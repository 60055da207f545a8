/**
 The MuSig2 primitives that the session builder calls, as the equations of BIP 327.

 A point is its exponent to the base G, reduced modulo the group order `q`; the point at infinity is
 exponent 0. What the equations do not determine (the parity of a y coordinate, the hash functions) is
 a field of `Curve`, so every statement below holds for any choice of it.
 */
module MusigPrimitives {
  import opened Wrappers
  import C = Congruence

  datatype Point = Point(log: int)
  datatype PubNonce = PubNonce(r1: Point, r2: Point)
  datatype SecNonce = SecNonce(k1: int, k2: int)
  type Message = seq<bv8>

  /** `keys` are the participants; `point` is `gacc * (sum of weighted keys) + tacc`. */
  datatype KeyAggCache = KeyAggCache(keys: seq<Point>, point: Point, gacc: int, tacc: int)

  /** What `Session::new` fixes: nonce coefficient, challenge, final nonce and the tweak's share. */
  datatype Session = Session(b: int, e: int, finalNonce: Point, tweakPart: int)

  datatype AggSig = AggSig(r: Point, s: int)

  datatype Curve = Curve(
    q: int,
    evenY: Point -> bool,
    keyAggCoeff: (seq<Point>, Point) -> int,
    nonceCoeff: (PubNonce, Point, Message) -> int,
    challenge: (Point, Point, Message) -> int)
  {
    /** Negating a finite point flips the parity of its y coordinate. */
    predicate NegationFlips(p: Point) {
      0 < p.log < q ==> evenY(Point(q - p.log)) != evenY(p)
    }

    ghost predicate Valid() {
      q > 2 && forall p: Point :: NegationFlips(p)
    }

    predicate OnCurve(p: Point) {
      0 <= p.log < q
    }

    function Mul(x: int): (p: Point)
      requires q > 0
      ensures OnCurve(p)
    {
      Point(x % q)
    }

    function Parity(p: Point): int {
      if evenY(p) then 1 else -1
    }

    /** The x-only form of a point, represented by its even lift. */
    function XOnly(p: Point): Point
      requires q > 0
    {
      Mul(Parity(p) * p.log)
    }

    // Key aggregation and tweaking

    function WeightedKeySum(all: seq<Point>, n: nat): int
      requires n <= |all|
    {
      if n == 0 then 0
      else WeightedKeySum(all, n - 1) + keyAggCoeff(all, all[n - 1]) * all[n - 1].log
    }

    function NewCache(keys: seq<Point>): KeyAggCache
      requires q > 0
    {
      KeyAggCache(keys, Mul(WeightedKeySum(keys, |keys|)), 1, 0)
    }

    function XOnlyTweak(cache: KeyAggCache, t: int): Option<KeyAggCache>
      requires q > 0
    {
      var g := Parity(cache.point);
      var tweaked := Mul(g * cache.point.log + t);
      if tweaked.log == 0 then None
      else Some(KeyAggCache(cache.keys, tweaked, g * cache.gacc, t + g * cache.tacc))
    }

    /** The cached point is the weighted key sum under the accumulated sign and tweak. */
    ghost predicate CacheInv(cache: KeyAggCache) {
      && OnCurve(cache.point)
      && C.Cong(q, cache.point.log,
                cache.gacc * WeightedKeySum(cache.keys, |cache.keys|) + cache.tacc)
    }

    lemma NewCacheInv(keys: seq<Point>)
      requires q > 0
      ensures CacheInv(NewCache(keys))
    {
      C.Reduce(q, WeightedKeySum(keys, |keys|));
    }

    lemma TweakKeepsCacheInv(cache: KeyAggCache, t: int)
      requires q > 0 && CacheInv(cache)
      ensures XOnlyTweak(cache, t).Some? ==> CacheInv(XOnlyTweak(cache, t).value)
    {
      var g := Parity(cache.point);
      var w := WeightedKeySum(cache.keys, |cache.keys|);
      var raw := g * cache.point.log + t;
      C.Reduce(q, raw);
      C.Scale(q, g, cache.point.log, cache.gacc * w + cache.tacc);
      C.Refl(q, t);
      C.Add(q, g * cache.point.log, g * (cache.gacc * w + cache.tacc), t, t);
      assert g * (cache.gacc * w + cache.tacc) + t == (g * cache.gacc) * w + (t + g * cache.tacc);
      C.Trans(q, raw % q, raw, (g * cache.gacc) * w + (t + g * cache.tacc));
    }

    // Nonces and sessions

    function PublicNonce(sec: SecNonce): PubNonce
      requires q > 0
    {
      PubNonce(Mul(sec.k1), Mul(sec.k2))
    }

    function NonceSum1(nonces: seq<PubNonce>, n: nat): int
      requires n <= |nonces|
    {
      if n == 0 then 0 else NonceSum1(nonces, n - 1) + nonces[n - 1].r1.log
    }

    function NonceSum2(nonces: seq<PubNonce>, n: nat): int
      requires n <= |nonces|
    {
      if n == 0 then 0 else NonceSum2(nonces, n - 1) + nonces[n - 1].r2.log
    }

    function AggregateNonce(nonces: seq<PubNonce>): PubNonce
      requires q > 0
    {
      PubNonce(Mul(NonceSum1(nonces, |nonces|)), Mul(NonceSum2(nonces, |nonces|)))
    }

    /** The effective nonce before the case distinction on infinity. */
    function EffectiveNonce(cache: KeyAggCache, agg: PubNonce, msg: Message): Point
      requires q > 0
    {
      Mul(agg.r1.log + nonceCoeff(agg, XOnly(cache.point), msg) * agg.r2.log)
    }

    function NewSession(cache: KeyAggCache, agg: PubNonce, msg: Message): Session
      requires q > 0
    {
      var raw := EffectiveNonce(cache, agg, msg);
      var r := if raw.log == 0 then Mul(1) else raw;
      var e := challenge(XOnly(r), XOnly(cache.point), msg);
      Session(nonceCoeff(agg, XOnly(cache.point), msg), e, r, e * Parity(cache.point) * cache.tacc)
    }

    // Partial signatures

    /** The exponent that participant `pk` with public nonce `nonce` has to present. */
    function Expected(cache: KeyAggCache, ses: Session, nonce: PubNonce, pk: Point): int {
      Parity(ses.finalNonce) * (nonce.r1.log + ses.b * nonce.r2.log)
      + ses.e * keyAggCoeff(cache.keys, pk) * (Parity(cache.point) * cache.gacc) * pk.log
    }

    predicate PartialVerify(cache: KeyAggCache, ses: Session, s: int, nonce: PubNonce, pk: Point)
      requires q > 0
    {
      s % q == Expected(cache, ses, nonce, pk) % q
    }

    function PartialSign(cache: KeyAggCache, ses: Session, sec: SecNonce, sk: int): (s: int)
      requires q > 0
      ensures 0 <= s < q
    {
      var d := Parity(cache.point) * cache.gacc * sk;
      (Parity(ses.finalNonce) * (sec.k1 + ses.b * sec.k2)
       + ses.e * keyAggCoeff(cache.keys, Mul(sk)) * d) % q
    }

    function Sum(sigs: seq<int>, n: nat): int
      requires n <= |sigs|
    {
      if n == 0 then 0 else Sum(sigs, n - 1) + sigs[n - 1]
    }

    function PartialSigAgg(ses: Session, sigs: seq<int>): AggSig
      requires q > 0
    {
      AggSig(XOnly(ses.finalNonce), (Sum(sigs, |sigs|) + ses.tweakPart) % q)
    }

    /** BIP 340: the nonce is a finite point with even y, and sG = R + eP. */
    predicate Verify(sig: AggSig, pk: Point, msg: Message)
      requires q > 0
    {
      && sig.r.log != 0
      && evenY(sig.r)
      && sig.s % q == (sig.r.log + challenge(sig.r, pk, msg) * pk.log) % q
    }

    // Theorems about the equations

    /** A signature made with the secret of the published nonce passes the check for that nonce. */
    lemma PartialSignVerifies(cache: KeyAggCache, ses: Session, sec: SecNonce, sk: int)
      requires q > 0
      ensures PartialVerify(cache, ses, PartialSign(cache, ses, sec, sk), PublicNonce(sec), Mul(sk))
    {
      var eps := Parity(ses.finalNonce);
      var h := Parity(cache.point) * cache.gacc;
      var ea := ses.e * keyAggCoeff(cache.keys, Mul(sk));
      var signed := eps * (sec.k1 + ses.b * sec.k2) + ea * (h * sk);
      C.Reduce(q, sec.k1);
      C.Reduce(q, sec.k2);
      C.Reduce(q, sk);
      SignatureCong(eps, ses.b, sec.k1, sec.k1 % q, sec.k2, sec.k2 % q, ea, h, sk, sk % q);
      MulAssoc(ea, h, sk);
      C.SameRemainder(q, Expected(cache, ses, PublicNonce(sec), Mul(sk)), signed);
      assert PartialSign(cache, ses, sec, sk) == signed % q;
      RemainderTwice(signed);
    }

    static lemma MulAssoc(x: int, y: int, z: int)
      ensures x * y * z == x * (y * z)
    {}

    lemma RemainderTwice(x: int)
      requires q > 0
      ensures x % q % q == x % q
    {}

    /** Congruent secrets combine to congruent signatures. */
    lemma SignatureCong(eps: int, b: int, k1: int, k1': int, k2: int, k2': int, ea: int, h: int, sk: int, sk': int)
      requires C.Cong(q, k1', k1) && C.Cong(q, k2', k2) && C.Cong(q, sk', sk)
      ensures C.Cong(q, eps * (k1' + b * k2') + ea * h * sk', eps * (k1 + b * k2) + ea * h * sk)
    {
      C.Scale(q, b, k2', k2);
      C.Add(q, k1', k1, b * k2', b * k2);
      C.Scale(q, eps, k1' + b * k2', k1 + b * k2);
      C.Scale(q, ea * h, sk', sk);
      C.Add(q, eps * (k1' + b * k2'), eps * (k1 + b * k2), ea * h * sk', ea * h * sk);
    }

    /** With any published nonce, our signature passes the check exactly if the secret combines to that nonce. */
    lemma PartialSignVerifiesIff(cache: KeyAggCache, ses: Session, sec: SecNonce, pub: PubNonce, sk: int)
      requires q > 0
      ensures PartialVerify(cache, ses, PartialSign(cache, ses, sec, sk), pub, Mul(sk))
              <==> C.Cong(q, sec.k1 + ses.b * sec.k2, pub.r1.log + ses.b * pub.r2.log)
    {
      var eps := Parity(ses.finalNonce);
      var h := Parity(cache.point) * cache.gacc;
      var ea := ses.e * keyAggCoeff(cache.keys, Mul(sk));
      var (k, p) := (sec.k1 + ses.b * sec.k2, pub.r1.log + ses.b * pub.r2.log);
      var signed, owed := eps * k + ea * (h * sk), Expected(cache, ses, pub, Mul(sk));
      assert owed == eps * p + ea * h * (sk % q);
      C.Reduce(q, sk);
      C.Scale(q, ea * h, sk % q, sk);
      C.Sym(q, ea * h * (sk % q), ea * h * sk);
      MulAssoc(ea, h, sk);
      SignsCancel(eps, k, p, ea * (h * sk), ea * h * (sk % q));
      C.SameRemainder(q, signed, owed);
      assert PartialSign(cache, ses, sec, sk) == signed % q;
      RemainderTwice(signed);
    }

    /** Congruent summands and a common sign do not matter to a congruence. */
    lemma SignsCancel(eps: int, k: int, p: int, x: int, y: int)
      requires (eps == 1 || eps == -1) && C.Cong(q, x, y)
      ensures C.Cong(q, eps * k + x, eps * p + y) <==> C.Cong(q, k, p)
    {
      if C.Cong(q, k, p) {
        C.Scale(q, eps, k, p);
        C.Add(q, eps * k, eps * p, x, y);
      }
      if C.Cong(q, eps * k + x, eps * p + y) {
        C.Scale(q, -1, x, y);
        C.Add(q, eps * k + x, eps * p + y, -x, -y);
        C.Scale(q, eps, eps * k, eps * p);
        assert eps * (eps * k) == k && eps * (eps * p) == p;
      }
    }

    /** The even lift of a finite point is a finite point with even y. */
    lemma XOnlyIsEven(p: Point)
      requires Valid() && 0 < p.log < q
      ensures XOnly(p).log != 0 && evenY(XOnly(p))
      ensures OnCurve(XOnly(p)) && C.Cong(q, XOnly(p).log, Parity(p) * p.log)
    {
      C.Reduce(q, Parity(p) * p.log);
      LiftIs(p);
      assert NegationFlips(p);
    }

    lemma LiftIs(p: Point)
      requires q > 0 && 0 < p.log < q
      ensures XOnly(p) == if evenY(p) then p else Point(q - p.log)
    {
      if evenY(p) {
        assert Parity(p) * p.log == p.log;
        C.Reduce(q, p.log);
        C.Canonical(q, p.log % q, p.log);
      } else {
        assert Parity(p) * p.log == -p.log;
        C.Reduce(q, -p.log);
        C.Witness(q, -p.log, q - p.log, -1);
        C.Trans(q, (-p.log) % q, -p.log, q - p.log);
        C.Canonical(q, (-p.log) % q, q - p.log);
      }
    }

    /** A nonce sum under a sign and a nonce coefficient, plus a challenged key sum. */
    static function Combined(eps: int, b: int, r1: int, r2: int, e: int, h: int, w: int): int {
      eps * (r1 + b * r2) + e * h * w
    }

    /** Summing what the participants owe: the nonce sums and the weighted key sum factor out. */
    lemma {:induction false} ExpectedSum(
        cache: KeyAggCache, ses: Session, nonces: seq<PubNonce>, sigs: seq<int>, n: nat)
      requires q > 0 && |nonces| == |sigs| == |cache.keys| && n <= |sigs|
      requires forall i :: 0 <= i < |sigs| ==> PartialVerify(cache, ses, sigs[i], nonces[i], cache.keys[i])
      ensures C.Cong(q, Sum(sigs, n),
                Combined(Parity(ses.finalNonce), ses.b, NonceSum1(nonces, n), NonceSum2(nonces, n),
                         ses.e, Parity(cache.point) * cache.gacc, WeightedKeySum(cache.keys, n)))
    {
      if n == 0 {
        C.Refl(q, 0);
      } else {
        hide Combined, Expected, Parity;
        ExpectedSum(cache, ses, nonces, sigs, n - 1);
        var pk, nonce := cache.keys[n - 1], nonces[n - 1];
        C.SameRemainder(q, sigs[n - 1], Expected(cache, ses, nonce, pk));
        AddOwed(cache, ses, nonce, pk, Sum(sigs, n - 1), sigs[n - 1],
                NonceSum1(nonces, n - 1), NonceSum2(nonces, n - 1), WeightedKeySum(cache.keys, n - 1));
      }
    }

    lemma AddOwed(cache: KeyAggCache, ses: Session, nonce: PubNonce, pk: Point, sum: int, s: int,
                  s1: int, s2: int, w: int)
      requires C.Cong(q, sum, Combined(Parity(ses.finalNonce), ses.b, s1, s2, ses.e,
                                       Parity(cache.point) * cache.gacc, w))
      requires C.Cong(q, s, Expected(cache, ses, nonce, pk))
      ensures C.Cong(q, sum + s, Combined(Parity(ses.finalNonce), ses.b, s1 + nonce.r1.log, s2 + nonce.r2.log, ses.e,
                                          Parity(cache.point) * cache.gacc,
                                          w + keyAggCoeff(cache.keys, pk) * pk.log))
    {
      var eps, h := Parity(ses.finalNonce), Parity(cache.point) * cache.gacc;
      C.Add(q, sum, Combined(eps, ses.b, s1, s2, ses.e, h, w), s, Expected(cache, ses, nonce, pk));
      Factor(eps, ses.b, s1, s2, nonce.r1.log, nonce.r2.log, ses.e, h, w, keyAggCoeff(cache.keys, pk), pk.log);
    }

    static lemma Factor(eps: int, b: int, s1: int, s2: int, r1: int, r2: int,
                        e: int, h: int, w: int, a: int, p: int)
      ensures Combined(eps, b, s1, s2, e, h, w) + (eps * (r1 + b * r2) + e * a * h * p)
           == Combined(eps, b, s1 + r1, s2 + r2, e, h, w + a * p)
    {
      assert eps * ((s1 + r1) + b * (s2 + r2)) == eps * (s1 + b * s2) + eps * (r1 + b * r2) by {
        assert (s1 + r1) + b * (s2 + r2) == (s1 + b * s2) + (r1 + b * r2);
      }
      assert e * a * h * p == e * h * (a * p);
      assert e * h * (w + a * p) == e * h * w + e * h * (a * p);
    }

    /** The tweak's share completes the key half. */
    static lemma TweakCompletes(eps: int, b: int, s1: int, s2: int, e: int, g: int, gacc: int, w: int, tacc: int)
      ensures Combined(eps, b, s1, s2, e, g * gacc, w) + e * g * tacc
           == eps * (s1 + b * s2) + e * (g * (gacc * w + tacc))
    {
      assert e * (g * (gacc * w + tacc)) == e * (g * gacc) * w + e * g * tacc;
    }

    lemma BothHalves(eps: int, x: int, x': int, e: int, g: int, y: int, y': int)
      requires C.Cong(q, x, x') && C.Cong(q, y, y')
      ensures C.Cong(q, eps * x + e * (g * y), eps * x' + e * (g * y'))
    {
      C.Scale(q, eps, x, x');
      C.Scale(q, g, y, y');
      C.Scale(q, e, g * y, g * y');
      C.Add(q, eps * x, eps * x', e * (g * y), e * (g * y'));
    }

    /** The aggregate is congruent to the effective nonce plus the challenged key. */
    lemma AggregateEquation(cache: KeyAggCache, nonces: seq<PubNonce>, msg: Message, sigs: seq<int>)
      requires q > 0 && CacheInv(cache) && |nonces| == |sigs| == |cache.keys|
      requires var ses := NewSession(cache, AggregateNonce(nonces), msg);
               forall i :: 0 <= i < |sigs| ==> PartialVerify(cache, ses, sigs[i], nonces[i], cache.keys[i])
      ensures var ses := NewSession(cache, AggregateNonce(nonces), msg);
              C.Cong(q, PartialSigAgg(ses, sigs).s,
                Parity(ses.finalNonce) * EffectiveNonce(cache, AggregateNonce(nonces), msg).log
                + ses.e * (Parity(cache.point) * cache.point.log))
    {
      hide Combined, Parity;
      var agg := AggregateNonce(nonces);
      var ses := NewSession(cache, agg, msg);
      var n := |sigs|;
      var eps, g := Parity(ses.finalNonce), Parity(cache.point);
      var s1, s2, w := NonceSum1(nonces, n), NonceSum2(nonces, n), WeightedKeySum(cache.keys, n);
      var raw := EffectiveNonce(cache, agg, msg).log;
      var keysum := cache.gacc * w + cache.tacc;
      ExpectedSum(cache, ses, nonces, sigs, n);
      var total := Combined(eps, ses.b, s1, s2, ses.e, g * cache.gacc, w) + ses.tweakPart;
      WithTweak(ses, sigs, total - ses.tweakPart);
      TweakCompletes(eps, ses.b, s1, s2, ses.e, g, cache.gacc, w, cache.tacc);
      NonceHalf(agg, ses.b, s1, s2);
      C.Sym(q, raw, s1 + ses.b * s2);
      C.Sym(q, cache.point.log, keysum);
      BothHalves(eps, s1 + ses.b * s2, raw, ses.e, g, keysum, cache.point.log);
      C.Trans(q, PartialSigAgg(ses, sigs).s, total, eps * raw + ses.e * (g * cache.point.log));
    }

    lemma WithTweak(ses: Session, sigs: seq<int>, sum: int)
      requires q > 0 && C.Cong(q, Sum(sigs, |sigs|), sum)
      ensures C.Cong(q, PartialSigAgg(ses, sigs).s, sum + ses.tweakPart)
    {
      C.Refl(q, ses.tweakPart);
      C.Add(q, Sum(sigs, |sigs|), sum, ses.tweakPart, ses.tweakPart);
      C.Reduce(q, Sum(sigs, |sigs|) + ses.tweakPart);
      C.Trans(q, PartialSigAgg(ses, sigs).s, Sum(sigs, |sigs|) + ses.tweakPart, sum + ses.tweakPart);
    }

    lemma NonceHalf(agg: PubNonce, b: int, s1: int, s2: int)
      requires q > 0 && agg == PubNonce(Mul(s1), Mul(s2))
      ensures C.Cong(q, (agg.r1.log + b * agg.r2.log) % q, s1 + b * s2)
    {
      C.Reduce(q, s1);
      C.Reduce(q, s2);
      C.Scale(q, b, s2 % q, s2);
      C.Add(q, s1 % q, s1, b * (s2 % q), b * s2);
      C.Reduce(q, agg.r1.log + b * agg.r2.log);
      C.Trans(q, (agg.r1.log + b * agg.r2.log) % q, agg.r1.log + b * agg.r2.log, s1 + b * s2);
    }

    /**
     If every slot was checked against its own key and nonce, the aggregate signature verifies for the
     aggregated key, unless the effective nonce is the point at infinity: then `Session::new` signs
     under G instead, and the aggregate never verifies.
     */
    lemma AggregateVerifiesIff(cache: KeyAggCache, nonces: seq<PubNonce>, msg: Message, sigs: seq<int>)
      requires Valid() && CacheInv(cache) && |nonces| == |sigs| == |cache.keys|
      requires var ses := NewSession(cache, AggregateNonce(nonces), msg);
               forall i :: 0 <= i < |sigs| ==> PartialVerify(cache, ses, sigs[i], nonces[i], cache.keys[i])
      ensures var agg := AggregateNonce(nonces);
              var sig := PartialSigAgg(NewSession(cache, agg, msg), sigs);
              Verify(sig, XOnly(cache.point), msg) <==> EffectiveNonce(cache, agg, msg).log != 0
    {
      var agg := AggregateNonce(nonces);
      var ses := NewSession(cache, agg, msg);
      var sig := PartialSigAgg(ses, sigs);
      var raw := EffectiveNonce(cache, agg, msg).log;
      AggregateEquation(cache, nonces, msg, sigs);
      LiftKey(sig.s, Parity(ses.finalNonce) * raw, ses.e, cache.point);
      FiniteNonce(cache, agg, msg);
      VerifiesUnlessInfinite(sig, ses.finalNonce, raw, XOnly(cache.point), msg);
    }

    lemma VerifiesUnlessInfinite(sig: AggSig, final: Point, raw: int, pk: Point, msg: Message)
      requires Valid() && 0 < final.log < q && sig.r == XOnly(final)
      requires raw != 0 ==> final.log == raw
      requires C.Cong(q, sig.s, Parity(final) * raw + challenge(sig.r, pk, msg) * pk.log)
      ensures Verify(sig, pk, msg) <==> raw != 0
    {
      var rest := challenge(sig.r, pk, msg) * pk.log;
      XOnlyIsEven(final);
      C.SameRemainder(q, sig.s, sig.r.log + rest);
      if raw != 0 {
        C.Sym(q, sig.r.log, Parity(final) * raw);
        Replace(sig.s, Parity(final) * raw, sig.r.log, rest);
      } else {
        NotUnderG(sig.s, Parity(final) * raw, sig.r.log, rest);
      }
    }

    lemma {:induction false} SumReplaced(sigs: seq<int>, k: nat, s: int, n: nat)
      requires k < |sigs| && n <= |sigs|
      ensures Sum(sigs[k := s], n) == Sum(sigs, n) + if k < n then s - sigs[k] else 0
    {
      if n > 0 {
        SumReplaced(sigs, k, s, n - 1);
      }
    }

    /** What one wrong slot does to the aggregate: it is off by what the slot is off. */
    lemma AggregateIsOffBy(ses: Session, sigs: seq<int>, k: nat, owed: int)
      requires q > 0 && k < |sigs|
      ensures C.Cong(q, PartialSigAgg(ses, sigs).s, PartialSigAgg(ses, sigs[k := owed]).s + (sigs[k] - owed))
    {
      var (a, b) := (Sum(sigs, |sigs|) + ses.tweakPart, Sum(sigs[k := owed], |sigs|) + ses.tweakPart);
      SumReplaced(sigs, k, owed, |sigs|);
      C.Reduce(q, a);
      C.Reduce(q, b);
      C.Sym(q, b % q, b);
      C.Refl(q, sigs[k] - owed);
      C.Add(q, b, b % q, sigs[k] - owed, sigs[k] - owed);
      C.Trans(q, a % q, a, b % q + (sigs[k] - owed));
    }

    /** How far slot `k` has to be off for the aggregate to verify. */
    function NeededShift(raw: int, final: Point): int
      requires q > 0
    {
      if raw != 0 then 0 else XOnly(final).log
    }

    /**
     If every slot but one was checked, the aggregate verifies exactly if that slot holds what its
     participant owes; under an infinite effective nonce it would have to be off by the generator.
     */
    lemma AggregateVerifiesIffSlot(cache: KeyAggCache, nonces: seq<PubNonce>, msg: Message, sigs: seq<int>, k: nat)
      requires Valid() && CacheInv(cache) && |nonces| == |sigs| == |cache.keys| && k < |sigs|
      requires var ses := NewSession(cache, AggregateNonce(nonces), msg);
               forall i :: 0 <= i < |sigs| && i != k ==>
                 PartialVerify(cache, ses, sigs[i], nonces[i], cache.keys[i])
      ensures var agg := AggregateNonce(nonces);
              var ses := NewSession(cache, agg, msg);
              Verify(PartialSigAgg(ses, sigs), XOnly(cache.point), msg)
              <==> C.Cong(q, sigs[k], Expected(cache, ses, nonces[k], cache.keys[k])
                                      + NeededShift(EffectiveNonce(cache, agg, msg).log, ses.finalNonce))
    {
      var agg := AggregateNonce(nonces);
      var ses := NewSession(cache, agg, msg);
      var owed := Expected(cache, ses, nonces[k], cache.keys[k]);
      var raw := EffectiveNonce(cache, agg, msg).log;
      var (sig, fixed) := (PartialSigAgg(ses, sigs), PartialSigAgg(ses, sigs[k := owed]));
      hide AggregateNonce, NewSession, Expected, EffectiveNonce, PartialSigAgg, XOnly, CacheInv, Verify, NeededShift;
      AggregateEquation(cache, nonces, msg, sigs[k := owed]);
      LiftKey(fixed.s, Parity(ses.finalNonce) * raw, ses.e, cache.point);
      AggregateIsOffBy(ses, sigs, k, owed);
      FiniteNonce(cache, agg, msg);
      SessionParts(cache, agg, msg, sigs);
      var d := sigs[k] - owed;
      Replace(sig.s, fixed.s, Parity(ses.finalNonce) * raw + ses.e * XOnly(cache.point).log, d);
      VerifiesIffShift(sig, ses.finalNonce, raw, XOnly(cache.point), msg, d);
      C.Refl(q, sigs[k]);
      C.Shift(q, sigs[k], owed, d, owed + NeededShift(raw, ses.finalNonce));
    }

    lemma SessionParts(cache: KeyAggCache, agg: PubNonce, msg: Message, sigs: seq<int>)
      requires q > 0
      ensures var ses := NewSession(cache, agg, msg);
              && PartialSigAgg(ses, sigs).r == XOnly(ses.finalNonce)
              && ses.e == challenge(XOnly(ses.finalNonce), XOnly(cache.point), msg)
              && (EffectiveNonce(cache, agg, msg).log != 0 ==>
                    ses.finalNonce.log == EffectiveNonce(cache, agg, msg).log)
    {}

    lemma VerifiesIffShift(sig: AggSig, final: Point, raw: int, pk: Point, msg: Message, d: int)
      requires Valid() && 0 < final.log < q && sig.r == XOnly(final)
      requires raw != 0 ==> final.log == raw
      requires C.Cong(q, sig.s, Parity(final) * raw + challenge(sig.r, pk, msg) * pk.log + d)
      ensures Verify(sig, pk, msg) <==> C.Cong(q, d, NeededShift(raw, final))
    {
      var (eps, rest) := (Parity(final), challenge(sig.r, pk, msg) * pk.log);
      XOnlyIsEven(final);
      C.SameRemainder(q, sig.s, sig.r.log + rest);
      if raw != 0 {
        C.Sym(q, sig.r.log, eps * raw);
        Replace(sig.s, eps * raw, sig.r.log, rest + d);
        C.Shift(q, sig.s, sig.r.log + rest, d, sig.r.log + rest);
      } else {
        assert eps * raw == 0;
        C.Shift(q, sig.s, rest, d, sig.r.log + rest);
      }
    }

    /** A session signs under the effective nonce, or under the generator if that is the point at infinity. */
    lemma FinalNonceIs(cache: KeyAggCache, agg: PubNonce, msg: Message)
      requires Valid()
      ensures var raw := (agg.r1.log + nonceCoeff(agg, XOnly(cache.point), msg) * agg.r2.log) % q;
              NewSession(cache, agg, msg).finalNonce == Point(if raw == 0 then 1 else raw)
    {
      assert 1 % q == 1;
    }

    lemma FiniteNonce(cache: KeyAggCache, agg: PubNonce, msg: Message)
      requires Valid()
      ensures 0 < NewSession(cache, agg, msg).finalNonce.log < q
    {
      assert 1 % q == 1;
    }

    /** Replaces the aggregated point by its even lift. */
    lemma LiftKey(s: int, r: int, e: int, p: Point)
      requires q > 0 && C.Cong(q, s, r + e * (Parity(p) * p.log))
      ensures C.Cong(q, s, r + e * XOnly(p).log)
    {
      var lifted := Parity(p) * p.log;
      C.Reduce(q, lifted);
      C.Sym(q, XOnly(p).log, lifted);
      C.Scale(q, e, lifted, XOnly(p).log);
      C.Refl(q, r);
      C.Add(q, r, r, e * lifted, e * XOnly(p).log);
      C.Trans(q, s, r + e * lifted, r + e * XOnly(p).log);
    }

    lemma Replace(s: int, r: int, r': int, rest: int)
      requires C.Cong(q, s, r + rest) && C.Cong(q, r, r')
      ensures C.Cong(q, s, r' + rest)
    {
      C.Refl(q, rest);
      C.Add(q, r, r', rest, rest);
      C.Trans(q, s, r + rest, r' + rest);
    }

    /** With the effective nonce at infinity the remaining nonce would have to be infinity too. */
    lemma NotUnderG(s: int, zero: int, r: int, rest: int)
      requires zero == 0 && 0 < r < q && C.Cong(q, s, zero + rest)
      ensures !C.Cong(q, s, r + rest)
    {
      if C.Cong(q, s, r + rest) {
        C.Sym(q, s, r + rest);
        C.Trans(q, r + rest, s, rest);
        C.Refl(q, -rest);
        C.Add(q, r + rest, rest, -rest, -rest);
        C.Canonical(q, r, 0);
      }
    }
  }
}
