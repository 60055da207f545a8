/** What holds at the end of every run of the MuSig2 builder. */
module MusigTheorems {
  import opened Wrappers
  import opened MusigPrimitives
  import opened MusigBuilder
  import opened MusigRuns
  import C = Congruence
  import N = MusigNonces

  // What a run keeps

  /** The cache that the tweaks among `calls` produce from the participant keys. */
  ghost function TweakedCache(c: Curve, keys: seq<Point>, calls: seq<Call>): Option<KeyAggCache>
    requires c.q > 0
  {
    if calls == [] then Some(c.NewCache(keys))
    else
      var last := |calls| - 1;
      match (TweakedCache(c, keys, calls[..last]), calls[last])
      case (Some(cache), Tweak(t)) => c.XOnlyTweak(cache, t)
      case (r, _) => r
  }

  lemma StepBinds(c: Curve, st: State, call: Call)
    requires c.q > 0 && StateInv(c, st) && Enabled(c, st, call)
    ensures var r := Step(c, st, call);
            r.Live? ==>
              && r.b.key == st.b.key && r.b.pubKeys == st.b.pubKeys
              && r.b.msg == (if call.Message? then Some(call.m) else st.b.msg)
              && (if call.Tweak? then c.XOnlyTweak(st.b.aggcache, call.t) == Some(r.b.aggcache)
                  else r.b.aggcache == st.b.aggcache)
  {}

  /** Keys never change, the aggregated key is the tweaked key sum, and the message is the bound one. */
  lemma {:induction false} RunBindsInputs(
      c: Curve, key: Keypair, keys: seq<Point>, states: seq<State>, calls: seq<Call>, n: nat)
    requires c.q > 0 && IsRun(c, key, keys, states, calls) && n <= |calls| && states[n].Live?
    ensures var b := states[n].b;
            && b.key == key && b.pubKeys == keys
            && TweakedCache(c, keys, calls[..n]) == Some(b.aggcache)
            && (b.msg.Some? ==> Message(b.msg.value) in calls[..n])
  {
    if n > 0 {
      hide Step, StateInv;
      var front := calls[..n - 1];
      assert calls[..n] == front + [calls[n - 1]];
      assert Takes(c, states[n - 1], calls[n - 1], states[n]);
      PhaseInvariants(c, key, keys, states, calls, n - 1);
      RunBindsInputs(c, key, keys, states, calls, n - 1);
      StepBinds(c, states[n - 1], calls[n - 1]);
    }
  }

  // Tweaks

  /** The tweaks among `calls`, in order. */
  function Tweaks(calls: seq<Call>): seq<int> {
    if calls == [] then []
    else
      var last := |calls| - 1;
      Tweaks(calls[..last]) + if calls[last].Tweak? then [calls[last].t] else []
  }

  /** Whether the key with this exponent has an even y coordinate is all that is needed to lift it. */
  function EvenLift(c: Curve, exponent: int): int {
    if c.evenY(Point(exponent)) then exponent else -exponent
  }

  /** Each tweak is added to the even lift of the key so far. */
  function TweakedKey(c: Curve, start: int, tweaks: seq<int>): int
    requires c.q > 0
  {
    if tweaks == [] then start % c.q
    else
      var last := |tweaks| - 1;
      (EvenLift(c, TweakedKey(c, start, tweaks[..last])) + tweaks[last]) % c.q
  }

  /** A tweak moves the key as defined, or fails if that is the point at infinity; no other call moves it. */
  lemma StepTweaks(c: Curve, st: State, call: Call)
    requires c.q > 0 && StateInv(c, st) && Enabled(c, st, call)
    ensures call.Tweak? ==>
              var r, moved := Step(c, st, call), (EvenLift(c, st.b.aggcache.point.log) + call.t) % c.q;
              && (r.Live? || r.Dropped?) && (r.Dropped? <==> moved == 0)
              && (r.Live? ==> r.b.aggcache.point.log == moved)
    ensures var r := Step(c, st, call);
            !call.Tweak? && r.Live? ==> r.b.aggcache.point == st.b.aggcache.point
  {
    if call.Tweak? {
      OneTweak(c, st.b.aggcache, call.t);
    }
  }

  lemma OneTweak(c: Curve, cache: KeyAggCache, t: int)
    requires c.q > 0
    ensures var moved := (EvenLift(c, cache.point.log) + t) % c.q;
            && (c.XOnlyTweak(cache, t).None? <==> moved == 0)
            && (c.XOnlyTweak(cache, t).Some? ==> c.XOnlyTweak(cache, t).value.point.log == moved)
  {
    assert c.Parity(cache.point) * cache.point.log == EvenLift(c, cache.point.log) by {
      assert cache.point == Point(cache.point.log);
    }
  }

  /**
   Over any run the aggregated key is the weighted key sum, moved by every tweak in turn; a tweak fails
   exactly if it would move the key to the point at infinity.
   */
  lemma {:induction false} TweaksMoveKey(
      c: Curve, key: Keypair, keys: seq<Point>, states: seq<State>, calls: seq<Call>, n: nat)
    requires c.q > 0 && IsRun(c, key, keys, states, calls) && n <= |calls|
    ensures states[n].Live? ==>
              states[n].b.aggcache.point.log == TweakedKey(c, c.WeightedKeySum(keys, |keys|), Tweaks(calls[..n]))
    ensures n > 0 && calls[n - 1].Tweak? ==>
              (states[n].Dropped? <==> TweakedKey(c, c.WeightedKeySum(keys, |keys|), Tweaks(calls[..n])) == 0)
              && (states[n].Live? || states[n].Dropped?)
  {
    hide Step, StateInv, EvenLift;
    if n > 0 {
      var front, call := calls[..n - 1], calls[n - 1];
      assert calls[..n] == front + [call] && calls[..n][..n - 1] == front;
      assert Takes(c, states[n - 1], call, states[n]);
      PhaseInvariants(c, key, keys, states, calls, n - 1);
      TweaksMoveKey(c, key, keys, states, calls, n - 1);
      StepTweaks(c, states[n - 1], call);
      if call.Tweak? {
        assert Tweaks(calls[..n])[..|Tweaks(front)|] == Tweaks(front);
      } else {
        assert Tweaks(front) + [] == Tweaks(front);
      }
    }
  }

  // The secret nonce

  function Exits(calls: seq<Call>): nat {
    if calls == [] then 0
    else
      var last := |calls| - 1;
      Exits(calls[..last]) + if calls[last] in {TakeNonce, Sign} then 1 else 0
  }

  /** The call puts exactly this pair into the builder. */
  predicate Injects(c: Curve, call: Call, pair: NoncePair)
    requires c.q > 0
  {
    || (call == Generate(pair.sec) && pair.pub == PubNonce(Point(pair.sec.k1 % c.q), Point(pair.sec.k2 % c.q)))
    || call == SetNonce(pair.sec, pair.pub)
  }

  lemma StepInjects(c: Curve, st: State, call: Call)
    requires c.q > 0 && StateInv(c, st) && Enabled(c, st, call)
    requires Step(c, st, call).Live? && Step(c, st, call).b.nonce.Some?
    ensures Step(c, st, call).b.nonce == st.b.nonce || Injects(c, call, Step(c, st, call).b.nonce.value)
  {}

  /** The nonce pair that a builder holds is a generated one, with its public part, or the injected one. */
  lemma {:induction false} HeldNonceWasInjected(
      c: Curve, key: Keypair, keys: seq<Point>, states: seq<State>, calls: seq<Call>, n: nat)
    returns (i: nat)
    requires c.q > 0 && IsRun(c, key, keys, states, calls) && n <= |calls|
    requires states[n].Live? && states[n].b.nonce.Some?
    ensures i < n && Injects(c, calls[i], states[n].b.nonce.value)
  {
    hide Step, StateInv, Injects;
    PhaseInvariants(c, key, keys, states, calls, n);
    if n == 0 {
      NoNonceAtStart(c, key, keys);
    } else {
      assert Takes(c, states[n - 1], calls[n - 1], states[n]);
      PhaseInvariants(c, key, keys, states, calls, n - 1);
      StepInjects(c, states[n - 1], calls[n - 1]);
      if states[n].b.nonce == states[n - 1].b.nonce {
        i := HeldNonceWasInjected(c, key, keys, states, calls, n - 1);
      } else {
        i := n - 1;
      }
    }
  }

  lemma NoNonceAtStart(c: Curve, key: Keypair, keys: seq<Point>)
    requires c.q > 0
    ensures Initial(c, key, keys).Live? ==> Initial(c, key, keys).b.nonce.None?
  {}

  ghost predicate Injected(calls: seq<Call>, sec: SecNonce) {
    exists i :: 0 <= i < |calls| &&
      (calls[i] == Generate(sec) || (calls[i].SetNonce? && calls[i].sec == sec))
  }

  lemma InjectedGrows(front: seq<Call>, call: Call)
    ensures forall sec :: Injected(front, sec) ==> Injected(front + [call], sec)
    ensures call.Generate? || call.SetNonce? ==> Injected(front + [call], call.sec)
  {
    var all := front + [call];
    assert all[|front|] == call;
    forall sec | Injected(front, sec)
      ensures Injected(all, sec)
    {
      var i :| 0 <= i < |front| && (front[i] == Generate(sec) || (front[i].SetNonce? && front[i].sec == sec));
      assert all[i] == front[i];
    }
  }

  lemma StepExits(c: Curve, st: State, call: Call)
    requires c.q > 0 && StateInv(c, st) && Enabled(c, st, call)
    ensures var r := Step(c, st, call);
            && |r.exits| <= 1
            && (call in {TakeNonce, Sign} ==> st.b.nonce.Some? && r.exits == st.exits + [st.b.nonce.value.sec])
            && (call !in {TakeNonce, Sign} ==> r.exits == st.exits)
            && (r.Live? && r.b.nonce.Some? ==>
                  && r.exits == []
                  && (r.b.nonce == st.b.nonce
                      || ((call.Generate? || call.SetNonce?) && call.sec == r.b.nonce.value.sec)))
  {}

  /**
   Signing and extracting the secret nonce happen at most once in a run, taken together; what leaves is
   the nonce that was put in, and a builder that is still live afterwards no longer holds one.
   */
  lemma {:induction false} SecretNonceLeavesOnce(
      c: Curve, key: Keypair, keys: seq<Point>, states: seq<State>, calls: seq<Call>, n: nat)
    requires c.q > 0 && IsRun(c, key, keys, states, calls) && n <= |calls|
    ensures var st := states[n];
            && Exits(calls[..n]) == |st.exits| <= 1
            && (forall sec :: sec in st.exits ==> Injected(calls[..n], sec))
            && (st.Live? && st.b.nonce.Some? ==> st.exits == [] && Injected(calls[..n], st.b.nonce.value.sec))
  {
    if n > 0 {
      hide Step, StateInv;
      var front := calls[..n - 1];
      assert calls[..n] == front + [calls[n - 1]];
      assert Takes(c, states[n - 1], calls[n - 1], states[n]);
      PhaseInvariants(c, key, keys, states, calls, n - 1);
      SecretNonceLeavesOnce(c, key, keys, states, calls, n - 1);
      StepExits(c, states[n - 1], calls[n - 1]);
      InjectedGrows(front, calls[n - 1]);
      hide Injected;
    }
  }

  // The aggregated signature

  /** A nonce pair given to the builder belongs together; `Generate` always satisfies this. */
  predicate HonestCall(c: Curve, call: Call)
    requires c.q > 0
  {
    call.SetNonce? ==> call.pub == c.PublicNonce(call.sec)
  }

  ghost predicate HonestNonce(c: Curve, b: Builder)
    requires c.q > 0
  {
    b.nonce.Some? ==> b.nonce.value.pub == c.PublicNonce(b.nonce.value.sec)
  }

  /** Slot i holds a signature that passes the check for key i and nonce i. */
  ghost predicate SlotsVerified(c: Curve, b: Builder)
    requires SessionSet(c, b)
  {
    forall i :: 0 <= i < |b.partialSigs| && b.partialSigs[i].Some? ==>
      c.PartialVerify(b.aggcache, b.session.value, b.partialSigs[i].value, b.pubNonces.value[i], b.pubKeys[i])
  }

  ghost predicate HonestInv(c: Curve, st: State)
    requires StateInv(c, st)
  {
    st.Live? ==>
      && HonestNonce(c, st.b)
      && (st.phase in {Unsigned, Signed} ==> SlotsVerified(c, st.b))
  }

  lemma HonestAdd(c: Curve, st: State, call: Call)
    requires c.q > 0 && StateInv(c, st) && Enabled(c, st, call) && call.Add? && HonestInv(c, st)
    requires StateInv(c, Step(c, st, call))
    ensures HonestInv(c, Step(c, st, call))
  {}

  lemma HonestSign(c: Curve, st: State, call: Call)
    requires c.q > 0 && StateInv(c, st) && Enabled(c, st, call) && call.Sign? && HonestInv(c, st)
    requires StateInv(c, Step(c, st, call))
    ensures HonestInv(c, Step(c, st, call))
  {
    c.PartialSignVerifies(st.b.aggcache, st.b.session.value, st.b.nonce.value.sec, st.b.key.sk);
  }

  lemma HonestStep(c: Curve, st: State, call: Call)
    requires c.q > 0 && StateInv(c, st) && Enabled(c, st, call) && StateInv(c, Step(c, st, call))
    requires HonestInv(c, st) && HonestCall(c, call)
    ensures HonestInv(c, Step(c, st, call))
  {
    match call
    case Add(_, _) => HonestAdd(c, st, call);
    case Sign => HonestSign(c, st, call);
    case _ =>
      hide PartialAdd, PartialSign;
  }

  lemma {:induction false} HonestRun(
      c: Curve, key: Keypair, keys: seq<Point>, states: seq<State>, calls: seq<Call>, n: nat)
    requires c.q > 0 && IsRun(c, key, keys, states, calls) && n <= |calls|
    requires forall i :: 0 <= i < |calls| ==> HonestCall(c, calls[i])
    ensures StateInv(c, states[n]) && HonestInv(c, states[n])
  {
    hide Step, StateInv, HonestInv, HonestCall;
    PhaseInvariants(c, key, keys, states, calls, n);
    if n == 0 {
      HonestStart(c, key, keys);
    } else {
      HonestRun(c, key, keys, states, calls, n - 1);
      assert Takes(c, states[n - 1], calls[n - 1], states[n]);
      HonestStep(c, states[n - 1], calls[n - 1]);
    }
  }

  lemma HonestStart(c: Curve, key: Keypair, keys: seq<Point>)
    requires c.q > 0 && StateInv(c, Initial(c, key, keys))
    ensures HonestInv(c, Initial(c, key, keys))
  {}

  /**
   Whatever the participants, tweaks and order of arrival: if `partial_aggregate` succeeds, the result
   verifies for the aggregated key and the bound message, exactly unless the participants' nonces cancel
   out to the point at infinity.
   */
  lemma AggregatedSignatureVerifiesIff(
      c: Curve, key: Keypair, keys: seq<Point>, states: seq<State>, calls: seq<Call>, n: nat)
    requires c.Valid() && IsRun(c, key, keys, states, calls) && n < |calls|
    requires forall i :: 0 <= i < |calls| ==> HonestCall(c, calls[i])
    requires states[n].Live? && states[n + 1].Finished?
    ensures var b := states[n].b;
            && b.msg.Some? && Message(b.msg.value) in calls[..n] && b.aggnonce.Some?
            && TweakedCache(c, keys, calls[..n]) == Some(b.aggcache)
            && (c.Verify(states[n + 1].sig, c.XOnly(b.aggcache.point), b.msg.value)
                <==> c.EffectiveNonce(b.aggcache, b.aggnonce.value, b.msg.value).log != 0)
  {
    hide Step;
    RunBindsInputs(c, key, keys, states, calls, n);
    HonestRun(c, key, keys, states, calls, n);
    assert Takes(c, states[n], calls[n], states[n + 1]);
    FinishAggregates(c, states[n], calls[n]);
    var b := states[n].b;
    c.AggregateVerifiesIff(b.aggcache, b.pubNonces.value, b.msg.value, Collect(b.partialSigs).value);
  }

  /** In terms of the calls: the signature is for the even lift of the tweaked key and the bound message. */
  lemma SignatureIsForTweakedKey(
      c: Curve, key: Keypair, keys: seq<Point>, states: seq<State>, calls: seq<Call>, n: nat,
      msg: MusigPrimitives.Message)
    requires c.Valid() && IsRun(c, key, keys, states, calls) && n < |calls|
    requires forall i :: 0 <= i < |calls| ==> HonestCall(c, calls[i])
    requires states[n].Live? && states[n + 1].Finished?
    requires forall i :: 0 <= i < n && calls[i].Message? ==> calls[i].m == msg
    ensures var b := states[n].b;
            var tweaked := TweakedKey(c, c.WeightedKeySum(keys, |keys|), Tweaks(calls[..n]));
            && b.aggnonce.Some?
            && (c.Verify(states[n + 1].sig, Point(EvenLift(c, tweaked) % c.q), msg)
                <==> c.EffectiveNonce(b.aggcache, b.aggnonce.value, msg).log != 0)
  {
    hide Step, Initial, Curve.Verify, Curve.EffectiveNonce, Curve.WeightedKeySum, TweakedKey, TweakedCache;
    AggregatedSignatureVerifiesIff(c, key, keys, states, calls, n);
    TweaksMoveKey(c, key, keys, states, calls, n);
    XOnlyIsLift(c, states[n].b.aggcache.point);
  }

  lemma XOnlyIsLift(c: Curve, p: Point)
    requires c.q > 0
    ensures c.XOnly(p) == Point(EvenLift(c, p.log) % c.q)
  {
    assert p == Point(p.log);
    assert c.Parity(p) * p.log == EvenLift(c, p.log);
  }

  /** Only `partial_aggregate` finishes a run, and only with every slot filled. */
  lemma FinishAggregates(c: Curve, st: State, call: Call)
    requires c.q > 0 && StateInv(c, st) && Enabled(c, st, call) && Step(c, st, call).Finished?
    ensures st.phase == Signed && Collect(st.b.partialSigs).Some?
    ensures Step(c, st, call).sig == c.PartialSigAgg(st.b.session.value, Collect(st.b.partialSigs).value)
  {}

  // Nonces that do not match

  /** Every slot but ours holds a signature that passes the check for its key and nonce. */
  ghost predicate OthersVerified(c: Curve, b: Builder)
    requires SessionSet(c, b)
  {
    forall i :: 0 <= i < |b.partialSigs| && b.partialSigs[i].Some? && i != OurIndex(c, b) ==>
      c.PartialVerify(b.aggcache, b.session.value, b.partialSigs[i].value, b.pubNonces.value[i], b.pubKeys[i])
  }

  ghost predicate OthersInv(c: Curve, st: State)
    requires StateInv(c, st)
  {
    st.Live? && st.phase in {Unsigned, Signed} ==> OthersVerified(c, st.b)
  }

  lemma OthersAdd(c: Curve, st: State, call: Call)
    requires c.q > 0 && StateInv(c, st) && Enabled(c, st, call) && call.Add? && OthersInv(c, st)
    requires StateInv(c, Step(c, st, call))
    ensures OthersInv(c, Step(c, st, call))
  {}

  lemma OthersSign(c: Curve, st: State, call: Call)
    requires c.q > 0 && StateInv(c, st) && Enabled(c, st, call) && call.Sign? && OthersInv(c, st)
    requires StateInv(c, Step(c, st, call))
    ensures OthersInv(c, Step(c, st, call))
  {}

  lemma OthersStep(c: Curve, st: State, call: Call)
    requires c.q > 0 && StateInv(c, st) && Enabled(c, st, call) && StateInv(c, Step(c, st, call))
    requires OthersInv(c, st)
    ensures OthersInv(c, Step(c, st, call))
  {
    match call
    case Add(_, _) => OthersAdd(c, st, call);
    case Sign => OthersSign(c, st, call);
    case _ =>
      hide PartialAdd, PartialSign;
  }

  lemma {:induction false} OthersRun(
      c: Curve, key: Keypair, keys: seq<Point>, states: seq<State>, calls: seq<Call>, n: nat)
    requires c.q > 0 && IsRun(c, key, keys, states, calls) && n <= |calls|
    ensures StateInv(c, states[n]) && OthersInv(c, states[n])
  {
    hide Step, StateInv, OthersInv;
    PhaseInvariants(c, key, keys, states, calls, n);
    if n == 0 {
      OthersStart(c, key, keys);
    } else {
      OthersRun(c, key, keys, states, calls, n - 1);
      assert Takes(c, states[n - 1], calls[n - 1], states[n]);
      OthersStep(c, states[n - 1], calls[n - 1]);
    }
  }

  lemma OthersStart(c: Curve, key: Keypair, keys: seq<Point>)
    requires c.q > 0 && StateInv(c, Initial(c, key, keys))
    ensures OthersInv(c, Initial(c, key, keys))
  {}

  /**
   The signature verifies exactly if our slot holds what our published nonce owes; if the nonces cancel out,
   it would have to be off by the generator.
   */
  ghost predicate OurSlotDecides(c: Curve, b: Builder, sig: AggSig)
    requires SessionSet(c, b) && Collect(b.partialSigs).Some?
  {
    var (i, ses) := (OurIndex(c, b), b.session.value);
    var raw := c.EffectiveNonce(b.aggcache, b.aggnonce.value, b.msg.value).log;
    c.Verify(sig, c.XOnly(b.aggcache.point), b.msg.value)
    <==> C.Cong(c.q, b.partialSigs[i].value,
                c.Expected(b.aggcache, ses, b.pubNonces.value[i], b.pubKeys[i]) + c.NeededShift(raw, ses.finalNonce))
  }

  /**
   In every run, mismatched nonce pairs included, our slot alone decides whether the aggregated signature
   verifies.
   */
  lemma AnyNonceVerifiesIff(
      c: Curve, key: Keypair, keys: seq<Point>, states: seq<State>, calls: seq<Call>, n: nat)
    requires c.Valid() && IsRun(c, key, keys, states, calls) && n < |calls|
    requires states[n].Live? && states[n + 1].Finished?
    ensures SessionSet(c, states[n].b) && Collect(states[n].b.partialSigs).Some?
    ensures OurSlotDecides(c, states[n].b, states[n + 1].sig)
  {
    hide Step, Initial, OthersInv, StateInv, OurSlotDecides;
    OthersRun(c, key, keys, states, calls, n);
    assert Takes(c, states[n], calls[n], states[n + 1]);
    FinishDecides(c, states[n], calls[n]);
  }

  lemma BuilderDecides(c: Curve, b: Builder)
    requires c.Valid() && SessionSet(c, b) && OthersVerified(c, b) && Collect(b.partialSigs).Some?
    ensures OurSlotDecides(c, b, c.PartialSigAgg(b.session.value, Collect(b.partialSigs).value))
  {
    hide Curve.Verify, Curve.PartialSigAgg, Curve.NewSession, Curve.AggregateNonce, Curve.EffectiveNonce;
    hide Curve.PartialVerify, Curve.Expected, Curve.NeededShift, Curve.XOnly, Curve.CacheInv, Collect;
    var sigs := Collect(b.partialSigs).value;
    c.AggregateVerifiesIffSlot(b.aggcache, b.pubNonces.value, b.msg.value, sigs, OurIndex(c, b));
  }

  lemma FinishDecides(c: Curve, st: State, call: Call)
    requires c.Valid() && StateInv(c, st) && OthersInv(c, st)
    requires Enabled(c, st, call) && Step(c, st, call).Finished?
    ensures SessionSet(c, st.b) && Collect(st.b.partialSigs).Some?
    ensures OurSlotDecides(c, st.b, Step(c, st, call).sig)
  {
    hide Step, OurSlotDecides, OthersVerified;
    FinishAggregates(c, st, call);
    BuilderDecides(c, st.b);
  }

  /** In every run, what we sign passes the check for our slot exactly if our secret combines to our nonce. */
  lemma SignPassesIff(
      c: Curve, key: Keypair, keys: seq<Point>, states: seq<State>, calls: seq<Call>, n: nat)
    requires c.q > 0 && IsRun(c, key, keys, states, calls) && n < |calls| && calls[n].Sign?
    ensures states[n].Live? && InPhase(c, Unsigned, states[n].b)
    ensures states[n + 1].Live? && InPhase(c, Signed, states[n + 1].b)
    ensures var (b, b') := (states[n].b, states[n + 1].b);
            var (i, ses, pair) := (OurIndex(c, b), b.session.value, b.nonce.value);
            i == OurIndex(c, b') &&
            (c.PartialVerify(b.aggcache, ses, b'.partialSigs[i].value, b.pubNonces.value[i], b.pubKeys[i])
             <==> C.Cong(c.q, pair.sec.k1 + ses.b * pair.sec.k2, pair.pub.r1.log + ses.b * pair.pub.r2.log))
  {
    hide Initial;
    PhaseInvariants(c, key, keys, states, calls, n);
    PhaseInvariants(c, key, keys, states, calls, n + 1);
    assert Takes(c, states[n], calls[n], states[n + 1]);
    var b := states[n].b;
    c.PartialSignVerifiesIff(b.aggcache, b.session.value, b.nonce.value.sec, b.nonce.value.pub, b.key.sk);
  }

  // Setup and the missing signature

  /** A run starts with an empty builder for all keys exactly if ours is among them, and fails otherwise. */
  lemma SetupIff(c: Curve, key: Keypair, keys: seq<Point>)
    requires c.q > 0
    ensures Setup(c, key, keys).Ok? <==> Point(key.sk % c.q) in keys
    ensures Setup(c, key, keys).Err? ==> Setup(c, key, keys).error == OurKeyNotInList
    ensures Setup(c, key, keys).Ok? ==>
              var b := Setup(c, key, keys).value;
              && b.key == key && b.pubKeys == keys && |b.partialSigs| == |keys| && NoSlots(b)
              && b.msg.None? && b.nonce.None? && b.pubNonces.None? && b.aggnonce.None? && b.session.None?
              && b.aggcache.point.log == c.WeightedKeySum(keys, |keys|) % c.q
    ensures Initial(c, key, keys).Live? <==> Setup(c, key, keys).Ok?
  {}

  /** Aggregation has one way to fail: a slot is empty. */
  lemma AggregateFailsWith(c: Curve, b: Builder)
    requires c.q > 0 && b.session.Some?
    ensures PartialAggregate(c, b) == Err(MissingPartialSignature)
            <==> exists i :: 0 <= i < |b.partialSigs| && b.partialSigs[i].None?
    ensures PartialAggregate(c, b).Err? ==> PartialAggregate(c, b).error == MissingPartialSignature
  {}

  // Which slots get filled

  predicate WeSigned(calls: seq<Call>) {
    Sign in calls
  }

  /** The participant heard from in a call: the one named by an `Add`, or ourselves in `Sign`. */
  function Heard(keys: seq<Point>, our: Point, call: Call): set<nat>
    requires our in keys
  {
    match call
    case Add(pk, _) => if pk in keys then {KeyIndex(keys, pk).value} else {}
    case Sign => {KeyIndex(keys, our).value}
    case _ => {}
  }

  function Contributed(keys: seq<Point>, our: Point, calls: seq<Call>): set<nat>
    requires our in keys
  {
    if calls == [] then {}
    else
      var last := |calls| - 1;
      Contributed(keys, our, calls[..last]) + Heard(keys, our, calls[last])
  }

  /** Exactly the slots of `heard` are filled. */
  ghost predicate FilledAre(b: Builder, heard: set<nat>) {
    forall i: nat :: i < |b.partialSigs| ==> (b.partialSigs[i].Some? <==> i in heard)
  }

  /** A call fills the slot of the participant it comes from, and no other. */
  lemma StepFills(c: Curve, st: State, call: Call, heard: set<nat>)
    requires c.q > 0 && StateInv(c, st) && Enabled(c, st, call) && Step(c, st, call).Live?
    requires FilledAre(st.b, heard)
    ensures OurKey(c, st.b) in st.b.pubKeys
    ensures FilledAre(Step(c, st, call).b, heard + Heard(st.b.pubKeys, OurKey(c, st.b), call))
    ensures Step(c, st, call).phase == Signed <==> st.phase == Signed || call.Sign?
  {}

  /** What a run's live states have in common, by name only. */
  lemma LiveInRun(
      c: Curve, key: Keypair, keys: seq<Point>, states: seq<State>, calls: seq<Call>, n: nat)
    requires c.q > 0 && IsRun(c, key, keys, states, calls) && n <= |calls| && states[n].Live?
    ensures StateInv(c, states[n]) && states[n].b.pubKeys == keys && OurKey(c, states[n].b) == c.Mul(key.sk)
    ensures c.Mul(key.sk) in keys && |states[n].b.partialSigs| == |keys|
  {
    hide Step, Initial;
    RunBindsInputs(c, key, keys, states, calls, n);
    PhaseInvariants(c, key, keys, states, calls, n);
  }

  lemma StartsEmpty(c: Curve, key: Keypair, keys: seq<Point>)
    requires c.q > 0 && Initial(c, key, keys).Live?
    ensures FilledAre(Initial(c, key, keys).b, {}) && Initial(c, key, keys).phase == NoMessage
  {}

  /** In every run, whatever the nonces: a slot is filled exactly if its participant was heard from. */
  lemma {:induction false} SlotsFilledIff(
      c: Curve, key: Keypair, keys: seq<Point>, states: seq<State>, calls: seq<Call>, n: nat)
    requires c.q > 0 && IsRun(c, key, keys, states, calls) && n <= |calls| && states[n].Live?
    ensures c.Mul(key.sk) in keys && |states[n].b.partialSigs| == |keys|
    ensures FilledAre(states[n].b, Contributed(keys, c.Mul(key.sk), calls[..n]))
    ensures states[n].phase == Signed <==> WeSigned(calls[..n])
  {
    hide Step, Initial, StateInv, FilledAre, Heard;
    LiveInRun(c, key, keys, states, calls, n);
    if n == 0 {
      StartsEmpty(c, key, keys);
    } else {
      var front, call := calls[..n - 1], calls[n - 1];
      assert calls[..n] == front + [call] && calls[..n][..n - 1] == front;
      assert Takes(c, states[n - 1], call, states[n]);
      LiveInRun(c, key, keys, states, calls, n - 1);
      SlotsFilledIff(c, key, keys, states, calls, n - 1);
      StepFills(c, states[n - 1], call, Contributed(keys, c.Mul(key.sk), front));
    }
  }

  lemma FinishesIffFilled(c: Curve, st: State)
    requires c.q > 0 && StateInv(c, st) && Enabled(c, st, Finish)
    ensures Step(c, st, Finish).Finished? <==> forall i :: 0 <= i < |st.b.partialSigs| ==> st.b.partialSigs[i].Some?
    ensures !Step(c, st, Finish).Finished? ==> Step(c, st, Finish).Dropped?
  {}

  /** In every run, whatever the nonces: aggregation succeeds exactly when everybody was heard from. */
  lemma AggregateSucceedsIff(
      c: Curve, key: Keypair, keys: seq<Point>, states: seq<State>, calls: seq<Call>, n: nat)
    requires c.q > 0 && IsRun(c, key, keys, states, calls) && n < |calls| && calls[n].Finish?
    ensures c.Mul(key.sk) in keys
    ensures states[n + 1].Finished?
            <==> forall i: nat :: i < |keys| ==> i in Contributed(keys, c.Mul(key.sk), calls[..n])
    ensures !states[n + 1].Finished? ==> states[n + 1].Dropped?
  {
    hide Step;
    assert Takes(c, states[n], calls[n], states[n + 1]);
    SlotsFilledIff(c, key, keys, states, calls, n);
    PhaseInvariants(c, key, keys, states, calls, n);
    FinishesIffFilled(c, states[n]);
  }

  lemma {:induction false} OurAddContributes(keys: seq<Point>, our: Point, calls: seq<Call>)
    requires our in keys && !WeSigned(calls)
    ensures KeyIndex(keys, our).value in Contributed(keys, our, calls)
            <==> exists i :: 0 <= i < |calls| && calls[i].Add? && calls[i].pk == our
  {
    if calls != [] {
      var last := |calls| - 1;
      var front := calls[..last];
      OurAddContributes(keys, our, front);
      assert forall i :: 0 <= i < last ==> front[i] == calls[i];
      assert calls[last] in calls;
    }
  }

  /**
   In every run, whatever the nonces: our slot is still empty when we sign exactly if nobody added a
   signature under our key before.
   */
  lemma OurSlotIsEmptyIff(
      c: Curve, key: Keypair, keys: seq<Point>, states: seq<State>, calls: seq<Call>, n: nat)
    requires c.q > 0 && IsRun(c, key, keys, states, calls) && n < |calls| && calls[n].Sign?
    ensures states[n].Live? && c.Mul(key.sk) in keys && |states[n].b.partialSigs| == |keys|
    ensures states[n].b.partialSigs[KeyIndex(keys, c.Mul(key.sk)).value].None?
            <==> forall i :: 0 <= i < n && calls[i].Add? ==> calls[i].pk != c.Mul(key.sk)
  {
    hide Step;
    assert Takes(c, states[n], calls[n], states[n + 1]);
    SlotsFilledIff(c, key, keys, states, calls, n);
    OurAddContributes(keys, c.Mul(key.sk), calls[..n]);
    assert forall i :: 0 <= i < n ==> calls[..n][i] == calls[i];
  }

  predicate FirstAt(keys: seq<Point>, pk: Point, i: nat) {
    i < |keys| && keys[i] == pk && pk !in keys[..i]
  }

  /** When an addition succeeds, which error it fails with otherwise, and that it only fills its first slot. */
  lemma AddIff(c: Curve, b: Builder, pk: Point, sig: int, i: nat)
    requires c.q > 0 && SessionSet(c, b)
    ensures PartialAdd(c, b, pk, sig) == Err(KeyNotFound) <==> pk !in b.pubKeys
    ensures FirstAt(b.pubKeys, pk, i) ==>
              PartialAdd(c, b, pk, sig)
              == if c.PartialVerify(b.aggcache, b.session.value, sig, b.pubNonces.value[i], pk)
                 then Ok(b.(partialSigs := b.partialSigs[i := Some(sig)]))
                 else Err(InvalidPartialSignature)
  {
    if FirstAt(b.pubKeys, pk, i) {
      var first := KeyIndex(b.pubKeys, pk).value;
      assert first == i;
    }
  }

  // What the slots hold

  /** The scalar that participant i owes: the only reduced one that passes the check. */
  function Owed(c: Curve, b: Builder, i: nat): int
    requires c.q > 0 && b.session.Some? && b.pubNonces.Some?
    requires i < |b.pubKeys| && i < |b.pubNonces.value|
  {
    c.Expected(b.aggcache, b.session.value, b.pubNonces.value[i], b.pubKeys[i]) % c.q
  }

  function SlotsOf(c: Curve, b: Builder, heard: set<nat>): (slots: seq<Option<int>>)
    requires c.q > 0 && b.session.Some? && b.pubNonces.Some? && |b.pubNonces.value| == |b.pubKeys|
    ensures |slots| == |b.pubKeys|
  {
    seq(|b.pubKeys|, i requires 0 <= i < |b.pubKeys| => if i in heard then Some(Owed(c, b, i)) else None)
  }

  lemma OnlyOwedPasses(c: Curve, b: Builder, i: nat, sig: int)
    requires c.q > 0 && b.session.Some? && b.pubNonces.Some?
    requires i < |b.pubKeys| && i < |b.pubNonces.value| && 0 <= sig < c.q
    requires c.PartialVerify(b.aggcache, b.session.value, sig, b.pubNonces.value[i], b.pubKeys[i])
    ensures sig == Owed(c, b, i)
  {
    assert sig % c.q == sig;
  }

  lemma VerifiedSlotsAreOwed(c: Curve, b: Builder, heard: set<nat>)
    requires SessionSet(c, b) && SlotsReachable(c, b) && SlotsVerified(c, b) && FilledAre(b, heard)
    ensures b.partialSigs == SlotsOf(c, b, heard)
  {
    var slots := SlotsOf(c, b, heard);
    forall i | 0 <= i < |slots|
      ensures b.partialSigs[i] == slots[i]
    {
      if b.partialSigs[i].Some? {
        OnlyOwedPasses(c, b, i, b.partialSigs[i].value);
      }
    }
  }

  /**
   In every run with matching nonce pairs, once the session is open: the contributors' slots hold exactly
   what they owe under the session, and all others are empty.
   */
  lemma SigningClosedForm(
      c: Curve, key: Keypair, keys: seq<Point>, states: seq<State>, calls: seq<Call>, n: nat)
    requires c.q > 0 && IsRun(c, key, keys, states, calls) && n <= |calls|
    requires forall i :: 0 <= i < |calls| ==> HonestCall(c, calls[i])
    requires states[n].Live? && states[n].phase in {Unsigned, Signed}
    ensures c.Mul(key.sk) in keys && SessionSet(c, states[n].b)
    ensures states[n].b.partialSigs == SlotsOf(c, states[n].b, Contributed(keys, c.Mul(key.sk), calls[..n]))
  {
    SlotsFilledIff(c, key, keys, states, calls, n);
    HonestRun(c, key, keys, states, calls, n);
    hide IsRun, SessionSet, SlotsReachable, SlotsVerified, FilledAre, SlotsOf, Contributed;
    VerifiedSlotsAreOwed(c, states[n].b, Contributed(keys, c.Mul(key.sk), calls[..n]));
  }

  /** What signing leaves alone: from an open session on, only the nonce and the slots change. */
  ghost predicate SameSession(open: State, st: State)
    requires open.Live? && open.b.nonce.Some?
  {
    && st.Live? && st.phase in {Unsigned, Signed}
    && st.b == open.b.(nonce := if st.phase == Signed then None else open.b.nonce, partialSigs := st.b.partialSigs)
    && st.exits == open.exits + if st.phase == Signed then [open.b.nonce.value.sec] else []
  }

  lemma OpenIsSameSession(c: Curve, st: State)
    requires c.q > 0 && StateInv(c, st) && st.Live? && st.phase == Unsigned
    ensures st.b.nonce.Some? && SameSession(st, st)
  {}

  lemma StepKeepsSession(c: Curve, open: State, st: State, call: Call)
    requires open.Live? && open.b.nonce.Some? && SameSession(open, st)
    requires c.q > 0 && StateInv(c, st) && Enabled(c, st, call) && Step(c, st, call).Live?
    ensures SameSession(open, Step(c, st, call))
  {}

  lemma {:induction false} SigningKeepsSession(
      c: Curve, key: Keypair, keys: seq<Point>, states: seq<State>, calls: seq<Call>, m: nat, n: nat)
    requires c.q > 0 && IsRun(c, key, keys, states, calls) && m <= n <= |calls|
    requires states[m].Live? && states[m].phase == Unsigned && states[n].Live?
    ensures states[m].b.nonce.Some? && SameSession(states[m], states[n])
  {
    hide Step, Initial, StateInv, SameSession;
    PhaseInvariants(c, key, keys, states, calls, m);
    OpenIsSameSession(c, states[m]);
    if m < n {
      assert Takes(c, states[n - 1], calls[n - 1], states[n]);
      PhaseInvariants(c, key, keys, states, calls, n - 1);
      SigningKeepsSession(c, key, keys, states, calls, m, n - 1);
      StepKeepsSession(c, states[m], states[n - 1], calls[n - 1]);
    }
  }

  lemma {:induction false} SameCallsSameState(
      c: Curve, key: Keypair, keys: seq<Point>, states: seq<State>, calls: seq<Call>,
      states': seq<State>, calls': seq<Call>, m: nat)
    requires c.q > 0 && IsRun(c, key, keys, states, calls) && IsRun(c, key, keys, states', calls')
    requires m <= |calls| && m <= |calls'| && calls[..m] == calls'[..m]
    ensures states[m] == states'[m]
  {
    if m > 0 {
      assert calls[..m][..m - 1] == calls[..m - 1] && calls'[..m][..m - 1] == calls'[..m - 1];
      SameCallsSameState(c, key, keys, states, calls, states', calls', m - 1);
      assert calls[m - 1] == calls[..m][m - 1] == calls'[m - 1];
      assert Takes(c, states[m - 1], calls[m - 1], states[m]);
      assert Takes(c, states'[m - 1], calls'[m - 1], states'[m]);
    }
  }

  /**
   Two runs that open the same session and then hear from the same participants, in any order and with any
   repetitions, end in the same state.
   */
  lemma ArrivalOrderIsIrrelevant(
      c: Curve, key: Keypair, keys: seq<Point>, m: nat,
      states: seq<State>, calls: seq<Call>, n: nat, states': seq<State>, calls': seq<Call>, n': nat)
    requires c.q > 0 && IsRun(c, key, keys, states, calls) && IsRun(c, key, keys, states', calls')
    requires forall i :: 0 <= i < |calls| ==> HonestCall(c, calls[i])
    requires forall i :: 0 <= i < |calls'| ==> HonestCall(c, calls'[i])
    requires m <= n <= |calls| && m <= n' <= |calls'| && calls[..m] == calls'[..m]
    requires states[m].Live? && states[m].phase == Unsigned && states[n].Live? && states'[n'].Live?
    requires c.Mul(key.sk) in keys
    requires WeSigned(calls[..n]) <==> WeSigned(calls'[..n'])
    requires Contributed(keys, c.Mul(key.sk), calls[..n]) == Contributed(keys, c.Mul(key.sk), calls'[..n'])
    ensures states[n] == states'[n']
  {
    SameCallsSameState(c, key, keys, states, calls, states', calls', m);
    SigningKeepsSession(c, key, keys, states, calls, m, n);
    SigningKeepsSession(c, key, keys, states', calls', m, n');
    SlotsFilledIff(c, key, keys, states, calls, n);
    SlotsFilledIff(c, key, keys, states', calls', n');
    SigningClosedForm(c, key, keys, states, calls, n);
    SigningClosedForm(c, key, keys, states', calls', n');
    hide IsRun, SessionSet, Contributed, FilledAre;
  }

  /** With a repeated participant key no run ever yields a signature. */
  lemma RepeatedKeyNeverFinishes(
      c: Curve, key: Keypair, keys: seq<Point>, states: seq<State>, calls: seq<Call>, n: nat)
    requires c.q > 0 && !N.Distinct(keys) && IsRun(c, key, keys, states, calls) && n <= |calls|
    ensures !states[n].Finished?
  {
    if n > 0 && states[n].Finished? {
      hide Step;
      assert Takes(c, states[n - 1], calls[n - 1], states[n]);
      PhaseInvariants(c, key, keys, states, calls, n - 1);
      RunBindsInputs(c, key, keys, states, calls, n - 1);
      FinishAggregates(c, states[n - 1], calls[n - 1]);
      var i, j :| 0 <= i < j < |keys| && keys[i] == keys[j];
      FilledMeansDistinct(c, states[n - 1].b, i, j);
    }
  }

  lemma FilledMeansDistinct(c: Curve, b: Builder, i: nat, j: nat)
    requires c.q > 0 && SessionSet(c, b) && SlotsReachable(c, b) && Collect(b.partialSigs).Some?
    requires i < j < |b.pubKeys|
    ensures b.pubKeys[i] != b.pubKeys[j]
  {
    var keys := b.pubKeys;
    assert b.partialSigs[j].Some?;
    assert KeyIndex(keys, keys[j]) == Ok(j);
    assert keys[..j][i] == keys[i];
  }

  // The run in which the nonces cancel out

  function Negated(sec: SecNonce): SecNonce {
    SecNonce(-sec.k1, -sec.k2)
  }

  lemma OppositesCancel(q: int, k: int, a: int, b: int)
    requires q > 0 && C.Cong(q, a, k) && C.Cong(q, b, -k)
    ensures (a + b) % q == 0
  {
    C.Add(q, a, k, b, -k);
    C.SameRemainder(q, a + b, 0);
  }

  ghost predicate Cancel(c: Curve, a: PubNonce, b: PubNonce)
    requires c.q > 0
  {
    (a.r1.log + b.r1.log) % c.q == 0 && (a.r2.log + b.r2.log) % c.q == 0
  }

  lemma NegatedCancels(c: Curve, sec: SecNonce)
    requires c.q > 0
    ensures Cancel(c, c.PublicNonce(sec), c.PublicNonce(Negated(sec)))
  {
    var (a, b) := (c.PublicNonce(sec), c.PublicNonce(Negated(sec)));
    C.Reduce(c.q, sec.k1);
    C.Reduce(c.q, -sec.k1);
    OppositesCancel(c.q, sec.k1, a.r1.log, b.r1.log);
    C.Reduce(c.q, sec.k2);
    C.Reduce(c.q, -sec.k2);
    OppositesCancel(c.q, sec.k2, a.r2.log, b.r2.log);
  }

  lemma NoncesCancel(c: Curve, a: PubNonce, b: PubNonce)
    requires c.q > 0 && Cancel(c, a, b)
    ensures c.AggregateNonce([a, b]) == PubNonce(Point(0), Point(0))
  {
    var nonces := [a, b];
    assert c.NonceSum1(nonces, 1) == c.NonceSum1(nonces, 0) + nonces[0].r1.log == a.r1.log;
    assert c.NonceSum2(nonces, 1) == c.NonceSum2(nonces, 0) + nonces[0].r2.log == a.r2.log;
  }

  lemma InfinityIsEffective(c: Curve, cache: KeyAggCache, msg: MusigPrimitives.Message)
    requires c.q > 0
    ensures c.EffectiveNonce(cache, PubNonce(Point(0), Point(0)), msg).log == 0
  {}

  /** The example's steps up to the open session. */
  lemma CancellingOpens(
      c: Curve, key: Keypair, other: Point, sec: SecNonce, msg: MusigPrimitives.Message)
    returns (states: seq<State>, calls: seq<Call>)
    requires c.q > 0
    ensures var keys := [c.Mul(key.sk), other];
            var nonces := [c.PublicNonce(sec), c.PublicNonce(Negated(sec))];
            && calls == [Message(msg), Generate(sec), AggregateOrdered(nonces), OpenSession]
            && IsRun(c, key, keys, states, calls)
            && |states| == 5 && states[4].Live? && states[4].phase == Unsigned
            && states[4].b.pubNonces == Some(nonces) && states[4].b.msg == Some(msg)
  {
    var keys := [c.Mul(key.sk), other];
    var nonces := [c.PublicNonce(sec), c.PublicNonce(Negated(sec))];
    assert KeyIndex(keys, c.Mul(key.sk)) == Ok(0);
    calls := [Message(msg), Generate(sec), AggregateOrdered(nonces), OpenSession];
    var s0 := Initial(c, key, keys);
    var s1 := Step(c, s0, calls[0]);
    var s2 := Step(c, s1, calls[1]);
    var s3 := Step(c, s2, calls[2]);
    states := [s0, s1, s2, s3, Step(c, s3, calls[3])];
  }

  lemma ExtendRun(
      c: Curve, key: Keypair, keys: seq<Point>, states: seq<State>, calls: seq<Call>, call: Call)
    requires c.q > 0 && IsRun(c, key, keys, states, calls) && Enabled(c, states[|calls|], call)
    ensures IsRun(c, key, keys, states + [Step(c, states[|calls|], call)], calls + [call])
  {
    hide Step, Initial, Enabled;
    var states', calls' := states + [Step(c, states[|calls|], call)], calls + [call];
    forall i | 0 <= i < |calls'|
      ensures Takes(c, states'[i], calls'[i], states'[i + 1])
    {
      if i < |calls| {
        assert Takes(c, states[i], calls[i], states[i + 1]);
      }
    }
  }

  lemma {:induction false} HeardContributes(keys: seq<Point>, our: Point, calls: seq<Call>, i: nat)
    requires our in keys && i < |calls|
    ensures Heard(keys, our, calls[i]) <= Contributed(keys, our, calls)
  {
    var last := |calls| - 1;
    if i < last {
      HeardContributes(keys, our, calls[..last], i);
    }
  }

  lemma SignGoesThrough(c: Curve, st: State)
    requires c.q > 0 && StateInv(c, st) && st.Live? && st.phase == Unsigned
    ensures Step(c, st, Sign).Live? && Step(c, st, Sign).phase == Signed
    ensures Step(c, st, Sign).b.pubNonces == st.b.pubNonces && Step(c, st, Sign).b.msg == st.b.msg
    ensures Step(c, st, Sign).b.session.Some?
  {}

  /** Signing with the other participant's secrets passes the check in their slot. */
  lemma HonestAddIsAccepted(c: Curve, st: State, sk: int, sec: SecNonce)
    requires c.q > 0 && StateInv(c, st) && st.Live? && st.phase == Signed
    requires |st.b.pubKeys| == 2 && st.b.pubKeys[1] == c.Mul(sk) != st.b.pubKeys[0]
    requires st.b.pubNonces.Some? && |st.b.pubNonces.value| == 2 && st.b.pubNonces.value[1] == c.PublicNonce(sec)
    ensures st.b.session.Some?
    ensures var sig := c.PartialSign(st.b.aggcache, st.b.session.value, sec, sk);
            && Enabled(c, st, Add(c.Mul(sk), sig))
            && Step(c, st, Add(c.Mul(sk), sig)).Live?
            && Step(c, st, Add(c.Mul(sk), sig)).phase == Signed
            && Step(c, st, Add(c.Mul(sk), sig)).b.msg == st.b.msg
            && Step(c, st, Add(c.Mul(sk), sig)).b.pubNonces == st.b.pubNonces
  {
    c.PartialSignVerifies(st.b.aggcache, st.b.session.value, sec, sk);
  }

  /** The example's steps up to both signatures. */
  lemma CancellingSigns(
      c: Curve, key: Keypair, other: Keypair, sec: SecNonce, msg: MusigPrimitives.Message)
    returns (states: seq<State>, calls: seq<Call>)
    requires c.q > 0 && c.Mul(key.sk) != c.Mul(other.sk)
    ensures IsRun(c, key, [c.Mul(key.sk), c.Mul(other.sk)], states, calls)
    ensures |calls| == 6 && |states| == 7 && calls[4] == Sign && calls[5].Add? && calls[5].pk == c.Mul(other.sk)
    ensures forall i :: 0 <= i < |calls| ==> !calls[i].SetNonce?
    ensures states[6].Live? && states[6].phase == Signed && states[6].b.msg == Some(msg)
    ensures states[6].b.pubNonces == Some([c.PublicNonce(sec), c.PublicNonce(Negated(sec))])
  {
    hide IsRun, Step, StateInv, Curve.PublicNonce, Curve.PartialSign, Curve.Mul;
    var their := c.Mul(other.sk);
    var keys := [c.Mul(key.sk), their];
    states, calls := CancellingOpens(c, key, their, sec, msg);
    var open := states[4];
    LiveInRun(c, key, keys, states, calls, 4);
    SignGoesThrough(c, open);
    ExtendRun(c, key, keys, states, calls, Sign);
    var signed := Step(c, open, Sign);
    states, calls := states + [signed], calls + [Sign];
    LiveInRun(c, key, keys, states, calls, 5);
    HonestAddIsAccepted(c, signed, other.sk, Negated(sec));
    var add := Add(their, c.PartialSign(signed.b.aggcache, signed.b.session.value, Negated(sec), other.sk));
    ExtendRun(c, key, keys, states, calls, add);
    states, calls := states + [Step(c, signed, add)], calls + [add];
  }

  /**
   On every curve, for any two participants and any message: if the other nonce is the negation of ours,
   everybody signs successfully, and the result does not verify.
   */
  lemma CancellingNoncesDoNotVerify(
      c: Curve, key: Keypair, other: Keypair, sec: SecNonce, msg: MusigPrimitives.Message)
    returns (states: seq<State>, calls: seq<Call>)
    requires c.Valid() && c.Mul(key.sk) != c.Mul(other.sk)
    ensures IsRun(c, key, [c.Mul(key.sk), c.Mul(other.sk)], states, calls)
    ensures forall i :: 0 <= i < |calls| ==> HonestCall(c, calls[i])
    ensures |calls| == 7 && |states| == 8 && states[6].Live? && states[7].Finished?
    ensures !c.Verify(states[7].sig, c.XOnly(states[6].b.aggcache.point), msg)
  {
    hide IsRun, Contributed, HonestCall, Step, StateInv, Cancel;
    hide Curve.Verify, Curve.EffectiveNonce, Curve.AggregateNonce, Curve.PublicNonce, Curve.XOnly, Curve.Mul;
    var our, their := c.Mul(key.sk), c.Mul(other.sk);
    var keys := [our, their];
    states, calls := CancellingSigns(c, key, other, sec, msg);
    LiveInRun(c, key, keys, states, calls, 6);
    var six, added := calls, states[6];
    ExtendRun(c, key, keys, states, calls, Finish);
    states, calls := states + [Step(c, added, Finish)], calls + [Finish];
    assert calls[..6] == six && states[6] == added && calls[6] == Finish;
    EverybodyContributed(our, their, six);
    AggregateSucceedsIff(c, key, keys, states, calls, 6);
    NegatedCancels(c, sec);
    NoncesCancel(c, c.PublicNonce(sec), c.PublicNonce(Negated(sec)));
    InfinityIsEffective(c, added.b.aggcache, msg);
    AllHonest(c, calls);
    SignedHasSession(c, added);
    AggregatedSignatureVerifiesIff(c, key, keys, states, calls, 6);
  }

  lemma AllHonest(c: Curve, calls: seq<Call>)
    requires c.q > 0 && forall i :: 0 <= i < |calls| ==> !calls[i].SetNonce?
    ensures forall i :: 0 <= i < |calls| ==> HonestCall(c, calls[i])
  {}

  lemma SignedHasSession(c: Curve, st: State)
    requires c.q > 0 && StateInv(c, st) && st.Live? && st.phase == Signed
    ensures SessionSet(c, st.b)
  {}

  lemma EverybodyContributed(our: Point, their: Point, calls: seq<Call>)
    requires our != their && |calls| == 6 && calls[4] == Sign && calls[5].Add? && calls[5].pk == their
    ensures forall i: nat :: i < 2 ==> i in Contributed([our, their], our, calls)
  {
    var keys := [our, their];
    HeardContributes(keys, our, calls, 4);
    HeardContributes(keys, our, calls, 5);
    assert KeyIndex(keys, our) == Ok(0) && KeyIndex(keys, their) == Ok(1);
  }
}
