/**
 The MuSig2 session builder. The phases that consume a builder and return the next one are functions on
 a `Builder` value; matching nonces to participants is a loop; and the signing phase, which takes the
 nonce and writes signature slots in place, is the class `SigningSession`.

 Every `expect` of the original is a precondition here, so a caller has to establish it.
 */
module MusigBuilder {
  import opened Wrappers
  import opened MusigPrimitives

  datatype MusigError =
    | OurKeyNotInList
    | KeyNotFound
    | OurNonceNotGenerated
    | IncorrectNonceCount
    | NonceNotFoundForKey(key: Point)
    | OurNonceWrongIndex
    | InvalidPartialSignature
    | MissingPartialSignature
    | InvalidTweak

  datatype Keypair = Keypair(sk: int)
  datatype NoncePair = NoncePair(sec: SecNonce, pub: PubNonce)

  datatype Builder = Builder(
    key: Keypair,
    msg: Option<Message>,
    nonce: Option<NoncePair>,
    aggcache: KeyAggCache,
    pubKeys: seq<Point>,
    pubNonces: Option<seq<PubNonce>>,
    aggnonce: Option<PubNonce>,
    session: Option<Session>,
    partialSigs: seq<Option<int>>)

  function OurKey(c: Curve, b: Builder): Point
    requires c.q > 0
  {
    c.Mul(b.key.sk)
  }

  /** The position of the first occurrence of `pk`. */
  function KeyIndex(keys: seq<Point>, pk: Point): (r: Result<nat, MusigError>)
    ensures r.Ok? <==> pk in keys
    ensures r.Err? ==> r.error == KeyNotFound
    ensures r.Ok? ==> r.value < |keys| && keys[r.value] == pk && pk !in keys[..r.value]
  {
    if keys == [] then Err(KeyNotFound)
    else if keys[0] == pk then Ok(0)
    else
      match KeyIndex(keys[1..], pk)
      case Err(e) => Err(e)
      case Ok(i) =>
        assert keys[..i + 1] == [keys[0]] + keys[1..][..i];
        Ok(i + 1)
  }

  // Setup and nonces

  function Setup(c: Curve, key: Keypair, keys: seq<Point>): Result<Builder, MusigError>
    requires c.q > 0
  {
    if c.Mul(key.sk) !in keys then Err(OurKeyNotInList)
    else Ok(Builder(key, None, None, c.NewCache(keys), keys, None, None, None, seq(|keys|, _ => None)))
  }

  function TweakAdd(c: Curve, b: Builder, t: int): Result<Builder, MusigError>
    requires c.q > 0
  {
    match c.XOnlyTweak(b.aggcache, t)
    case None => Err(InvalidTweak)
    case Some(cache) => Ok(b.(aggcache := cache))
  }

  function BindMessage(b: Builder, m: Message): Builder {
    b.(msg := Some(m))
  }

  /** The random secret is a parameter. */
  function GenerateNonce(c: Curve, b: Builder, sec: SecNonce): Builder
    requires c.q > 0 && b.msg.Some?
  {
    b.(nonce := Some(NoncePair(sec, c.PublicNonce(sec))))
  }

  function DangerousSetNonce(b: Builder, sec: SecNonce, pub: PubNonce): Builder {
    b.(nonce := Some(NoncePair(sec, pub)))
  }

  function AggregateNoncesOrdered(c: Curve, b: Builder, nonces: seq<PubNonce>): Result<Builder, MusigError>
    requires c.q > 0 && OurKey(c, b) in b.pubKeys
  {
    if |nonces| != |b.pubKeys| then Err(IncorrectNonceCount)
    else if b.nonce.None? then Err(OurNonceNotGenerated)
    else if nonces[KeyIndex(b.pubKeys, OurKey(c, b)).value] != b.nonce.value.pub then Err(OurNonceWrongIndex)
    else Ok(b.(pubNonces := Some(nonces), aggnonce := Some(c.AggregateNonce(nonces))))
  }

  type NonceList = seq<(Point, PubNonce)>

  function FindNonce(list: NonceList, pk: Point): (r: Option<PubNonce>)
    ensures r.Some? ==> (pk, r.value) in list
    ensures r.None? ==> forall e :: e in list ==> e.0 != pk
  {
    if list == [] then None
    else if list[0].0 == pk then Some(list[0].1)
    else FindNonce(list[1..], pk)
  }

  /** The nonces in participant order, or the first participant without one. */
  function InKeyOrder(keys: seq<Point>, list: NonceList): Result<seq<PubNonce>, MusigError> {
    if keys == [] then Ok([])
    else
      match FindNonce(list, keys[0])
      case None => Err(NonceNotFoundForKey(keys[0]))
      case Some(nonce) => Prepend([nonce], InKeyOrder(keys[1..], list))
  }

  function Prepend(front: seq<PubNonce>, r: Result<seq<PubNonce>, MusigError>): Result<seq<PubNonce>, MusigError> {
    match r
    case Err(e) => Err(e)
    case Ok(nonces) => Ok(front + nonces)
  }

  /** The list with our own entry appended if our key is missing from it. */
  function Completed(c: Curve, b: Builder, list: NonceList): NonceList
    requires c.q > 0 && b.nonce.Some?
  {
    if FindNonce(list, OurKey(c, b)).Some? then list
    else list + [(OurKey(c, b), b.nonce.value.pub)]
  }

  function AggregateNonces(c: Curve, b: Builder, list: NonceList): Result<Builder, MusigError>
    requires c.q > 0 && OurKey(c, b) in b.pubKeys
  {
    if FindNonce(list, OurKey(c, b)).None? && b.nonce.None? then Err(OurNonceNotGenerated)
    else
      var full := if b.nonce.None? then list else Completed(c, b, list);
      if |full| != |b.pubKeys| then Err(IncorrectNonceCount)
      else
        match InKeyOrder(b.pubKeys, full)
        case Err(e) => Err(e)
        case Ok(ordered) => AggregateNoncesOrdered(c, b, ordered)
  }

  /** The loop of `aggregate_nonces` that pushes one nonce per participant. */
  method OrderNonces(keys: seq<Point>, list: NonceList) returns (r: Result<seq<PubNonce>, MusigError>)
    ensures r == InKeyOrder(keys, list)
  {
    var ordered: seq<PubNonce> := [];
    ghost var whole := InKeyOrder(keys, list);
    assert keys[0..] == keys;
    assert whole.Ok? ==> [] + whole.value == whole.value;
    for i := 0 to |keys|
      invariant InKeyOrder(keys, list) == Prepend(ordered, InKeyOrder(keys[i..], list))
    {
      match FindNonce(list, keys[i]) {
        case None =>
          return Err(NonceNotFoundForKey(keys[i]));
        case Some(nonce) =>
          ghost var rest := InKeyOrder(keys[i + 1..], list);
          assert keys[i..][1..] == keys[i + 1..];
          assert rest.Ok? ==> ordered + ([nonce] + rest.value) == (ordered + [nonce]) + rest.value;
          ordered := ordered + [nonce];
      }
    }
    assert keys[|keys|..] == [] && ordered + [] == ordered;
    return Ok(ordered);
  }

  /** `aggregate_nonces`: completes the list, brings it in participant order and aggregates. */
  method AggregateReceived(c: Curve, b: Builder, received: NonceList) returns (r: Result<Builder, MusigError>)
    requires c.q > 0 && OurKey(c, b) in b.pubKeys
    ensures r == AggregateNonces(c, b, received)
  {
    var nonces := received;
    if FindNonce(nonces, OurKey(c, b)).None? {
      if b.nonce.None? {
        return Err(OurNonceNotGenerated);
      }
      nonces := nonces + [(OurKey(c, b), b.nonce.value.pub)];
    }
    if |nonces| != |b.pubKeys| {
      return Err(IncorrectNonceCount);
    }
    var ordered := OrderNonces(b.pubKeys, nonces);
    match ordered {
      case Err(e) => return Err(e);
      case Ok(inOrder) => return AggregateNoncesOrdered(c, b, inOrder);
    }
  }

  // Session and signatures

  function InitializeSession(c: Curve, b: Builder): Builder
    requires c.q > 0 && b.aggnonce.Some? && b.msg.Some?
  {
    b.(session := Some(c.NewSession(b.aggcache, b.aggnonce.value, b.msg.value)))
  }

  /** What the `expect`s of the signing phase demand. */
  predicate SessionOpen(b: Builder) {
    && b.session.Some?
    && b.pubNonces.Some? && |b.pubNonces.value| == |b.pubKeys|
    && |b.partialSigs| == |b.pubKeys|
  }

  function PartialVerify(c: Curve, b: Builder, pk: Point, sig: int): Result<bool, MusigError>
    requires c.q > 0 && SessionOpen(b)
  {
    match KeyIndex(b.pubKeys, pk)
    case Err(e) => Err(e)
    case Ok(i) => Ok(c.PartialVerify(b.aggcache, b.session.value, sig, b.pubNonces.value[i], pk))
  }

  function PartialAdd(c: Curve, b: Builder, pk: Point, sig: int): Result<Builder, MusigError>
    requires c.q > 0 && SessionOpen(b)
  {
    match PartialVerify(c, b, pk, sig)
    case Err(e) => Err(e)
    case Ok(valid) =>
      if !valid then Err(InvalidPartialSignature)
      else Ok(b.(partialSigs := b.partialSigs[KeyIndex(b.pubKeys, pk).value := Some(sig)]))
  }

  function PartialSign(c: Curve, b: Builder): Builder
    requires c.q > 0 && SessionOpen(b) && b.nonce.Some? && OurKey(c, b) in b.pubKeys
  {
    var sig := c.PartialSign(b.aggcache, b.session.value, b.nonce.value.sec, b.key.sk);
    b.(nonce := None, partialSigs := b.partialSigs[KeyIndex(b.pubKeys, OurKey(c, b)).value := Some(sig)])
  }

  /** All slots, or nothing if one is empty. */
  function Collect(slots: seq<Option<int>>): (r: Option<seq<int>>)
    ensures r.Some? <==> forall i :: 0 <= i < |slots| ==> slots[i].Some?
    ensures r.Some? ==> |r.value| == |slots| && forall i :: 0 <= i < |slots| ==> slots[i] == Some(r.value[i])
  {
    if slots == [] then Some([])
    else
      var last := |slots| - 1;
      match (Collect(slots[..last]), slots[last])
      case (Some(sigs), Some(sig)) => Some(sigs + [sig])
      case _ => None
  }

  function PartialAggregate(c: Curve, b: Builder): Result<AggSig, MusigError>
    requires c.q > 0 && b.session.Some?
  {
    match Collect(b.partialSigs)
    case None => Err(MissingPartialSignature)
    case Some(sigs) => Ok(c.PartialSigAgg(b.session.value, sigs))
  }

  /** The builder once its session is open: the nonce is taken and the slots are written in place. */
  class SigningSession {
    const c: Curve
    const base: Builder
    var nonce: Option<NoncePair>
    var slots: array<Option<int>>

    ghost function View(): Builder
      reads this, slots
    {
      base.(nonce := nonce, partialSigs := slots[..])
    }

    ghost predicate Valid()
      reads this, slots
    {
      c.q > 0 && SessionOpen(View()) && OurKey(c, base) in base.pubKeys
    }

    constructor (c: Curve, b: Builder)
      requires c.q > 0 && SessionOpen(b) && OurKey(c, b) in b.pubKeys
      ensures Valid() && fresh(slots)
      ensures this.c == c && View() == b
    {
      this.c := c;
      base := b;
      nonce := b.nonce;
      slots := new Option<int>[|b.partialSigs|](i requires 0 <= i < |b.partialSigs| => b.partialSigs[i]);
      new;
      assert slots[..] == b.partialSigs;
    }

    method AddPartial(pk: Point, sig: int) returns (r: Result<(), MusigError>)
      requires Valid()
      modifies slots
      ensures Valid()
      ensures match PartialAdd(c, old(View()), pk, sig)
              case Ok(b) => r == Ok(()) && View() == b
              case Err(e) => r == Err(e) && View() == old(View())
    {
      match KeyIndex(base.pubKeys, pk) {
        case Err(e) =>
          return Err(e);
        case Ok(i) =>
          var nonceOfKey := base.pubNonces.value[i];
          if !c.PartialVerify(base.aggcache, base.session.value, sig, nonceOfKey, pk) {
            return Err(InvalidPartialSignature);
          }
          slots[i] := Some(sig);
          assert slots[..] == old(slots[..])[i := Some(sig)];
          return Ok(());
      }
    }

    method Sign()
      requires Valid() && nonce.Some?
      modifies this`nonce, slots
      ensures Valid() && View() == PartialSign(c, old(View()))
      ensures nonce.None?
    {
      var secret := nonce.value.sec;
      nonce := None;
      var sig := c.PartialSign(base.aggcache, base.session.value, secret, base.key.sk);
      var our := KeyIndex(base.pubKeys, OurKey(c, base)).value;
      slots[our] := Some(sig);
      assert slots[..] == old(slots[..])[our := Some(sig)];
    }

    method Aggregate() returns (r: Result<AggSig, MusigError>)
      requires Valid()
      ensures r == PartialAggregate(c, View())
    {
      var sigs: seq<int> := [];
      for i := 0 to slots.Length
        invariant Collect(slots[..i]) == Some(sigs)
      {
        assert slots[..i + 1] == slots[..i] + [slots[i]];
        if slots[i].None? {
          assert slots[..][i].None?;
          return Err(MissingPartialSignature);
        }
        sigs := sigs + [slots[i].value];
        assert slots[..i + 1][..i] == slots[..i];
      }
      assert slots[..slots.Length] == slots[..];
      return Ok(c.PartialSigAgg(base.session.value, sigs));
    }
  }
}
