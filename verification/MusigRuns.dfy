/**
 Whole runs of the MuSig2 builder: every sequence of calls that the phase types admit, from setup to the
 aggregated signature, including the calls that fail and drop the builder.
 */
module MusigRuns {
  import opened Wrappers
  import opened MusigPrimitives
  import opened MusigBuilder

  datatype Phase = NoMessage | MissingNonce | NonceGenerated | NoncesAggregated | Unsigned | Signed

  datatype Call =
    | Tweak(t: int)
    | Message(m: MusigPrimitives.Message)
    | Generate(sec: SecNonce)
    | SetNonce(sec: SecNonce, pub: PubNonce)
    | TakeNonce
    | Aggregate(list: NonceList)
    | AggregateOrdered(nonces: seq<PubNonce>)
    | OpenSession
    | Add(pk: Point, sig: int)
    | Sign
    | Finish

  /** `exits` records every secret nonce that left; `Panicked` is a failed `expect`. */
  datatype State =
    | Live(phase: Phase, b: Builder, exits: seq<SecNonce>)
    | Finished(sig: AggSig, exits: seq<SecNonce>)
    | Dropped(exits: seq<SecNonce>)
    | Panicked(exits: seq<SecNonce>)

  /** What the phantom types admit; a parsed partial signature is a reduced scalar. */
  predicate Enabled(c: Curve, st: State, call: Call) {
    st.Live? &&
    match call
    case Tweak(_) => st.phase == NoMessage
    case Message(_) => st.phase == NoMessage
    case Generate(_) => st.phase == MissingNonce
    case SetNonce(_, _) => st.phase == MissingNonce
    case TakeNonce => st.phase == NonceGenerated
    case Aggregate(_) => st.phase == NonceGenerated
    case AggregateOrdered(_) => st.phase == NonceGenerated
    case OpenSession => st.phase == NoncesAggregated
    case Add(_, sig) => st.phase in {Unsigned, Signed} && 0 <= sig < c.q
    case Sign => st.phase == Unsigned
    case Finish => st.phase == Signed
  }

  // Phase invariants

  function OurIndex(c: Curve, b: Builder): nat
    requires c.q > 0 && OurKey(c, b) in b.pubKeys
  {
    KeyIndex(b.pubKeys, OurKey(c, b)).value
  }

  /** Our key is a participant, the vectors have one length, and the key cache is sound. */
  ghost predicate Core(c: Curve, b: Builder) {
    && c.q > 0
    && OurKey(c, b) in b.pubKeys
    && |b.partialSigs| == |b.pubKeys|
    && b.aggcache.keys == b.pubKeys
    && c.CacheInv(b.aggcache)
  }

  ghost predicate NoSlots(b: Builder) {
    forall i :: 0 <= i < |b.partialSigs| ==> b.partialSigs[i].None?
  }

  ghost predicate Aggregated(c: Curve, b: Builder) {
    && Core(c, b)
    && b.msg.Some?
    && b.pubNonces.Some? && |b.pubNonces.value| == |b.pubKeys|
    && b.aggnonce == Some(c.AggregateNonce(b.pubNonces.value))
  }

  ghost predicate OurNonceInPlace(c: Curve, b: Builder)
    requires Aggregated(c, b)
  {
    b.nonce.Some? && b.pubNonces.value[OurIndex(c, b)] == b.nonce.value.pub
  }

  ghost predicate SessionSet(c: Curve, b: Builder) {
    && Aggregated(c, b)
    && b.session == Some(c.NewSession(b.aggcache, b.aggnonce.value, b.msg.value))
  }

  /** A slot is only ever filled at the first position of its key, with a reduced scalar. */
  ghost predicate SlotsReachable(c: Curve, b: Builder) {
    forall i :: 0 <= i < |b.partialSigs| && i < |b.pubKeys| && b.partialSigs[i].Some? ==>
      KeyIndex(b.pubKeys, b.pubKeys[i]) == Ok(i) && 0 <= b.partialSigs[i].value < c.q
  }

  ghost predicate InPhase(c: Curve, phase: Phase, b: Builder) {
    match phase
    case NoMessage => Core(c, b) && NoSlots(b) && b.nonce.None? && b.msg.None?
    case MissingNonce => Core(c, b) && NoSlots(b) && b.nonce.None? && b.msg.Some?
    case NonceGenerated => Core(c, b) && NoSlots(b) && b.nonce.Some? && b.msg.Some?
    case NoncesAggregated => Aggregated(c, b) && NoSlots(b) && OurNonceInPlace(c, b)
    case Unsigned => SessionSet(c, b) && SlotsReachable(c, b) && OurNonceInPlace(c, b)
    case Signed =>
      SessionSet(c, b) && SlotsReachable(c, b) && b.nonce.None? && b.partialSigs[OurIndex(c, b)].Some?
  }

  ghost predicate StateInv(c: Curve, st: State) {
    match st
    case Live(phase, b, exits) =>
      InPhase(c, phase, b) && |exits| == if phase == Signed then 1 else 0
    case Finished(_, exits) => |exits| == 1
    case Dropped(exits) => |exits| <= 1
    case Panicked(_) => false
  }

  // Steps and runs

  function Continue(r: Result<Builder, MusigError>, phase: Phase, exits: seq<SecNonce>): State {
    match r
    case Ok(b) => Live(phase, b, exits)
    case Err(_) => Dropped(exits)
  }

  /** One call. A failed `expect` panics; an error drops the builder. */
  function Step(c: Curve, st: State, call: Call): State
    requires c.q > 0 && Enabled(c, st, call)
  {
    var b := st.b;
    match call
    case Tweak(t) => Continue(TweakAdd(c, b, t), NoMessage, st.exits)
    case Message(m) => Live(MissingNonce, BindMessage(b, m), st.exits)
    case Generate(sec) =>
      if b.msg.None? then Panicked(st.exits)
      else Live(NonceGenerated, GenerateNonce(c, b, sec), st.exits)
    case SetNonce(sec, pub) => Live(NonceGenerated, DangerousSetNonce(b, sec, pub), st.exits)
    case TakeNonce =>
      if b.nonce.None? then Panicked(st.exits)
      else Dropped(st.exits + [b.nonce.value.sec])
    case Aggregate(list) =>
      if OurKey(c, b) !in b.pubKeys then Panicked(st.exits)
      else Continue(AggregateNonces(c, b, list), NoncesAggregated, st.exits)
    case AggregateOrdered(nonces) =>
      if OurKey(c, b) !in b.pubKeys then Panicked(st.exits)
      else Continue(AggregateNoncesOrdered(c, b, nonces), NoncesAggregated, st.exits)
    case OpenSession =>
      if b.aggnonce.None? || b.msg.None? then Panicked(st.exits)
      else Live(Unsigned, InitializeSession(c, b), st.exits)
    case Add(pk, sig) =>
      if !SessionOpen(b) then Panicked(st.exits)
      else Continue(PartialAdd(c, b, pk, sig), st.phase, st.exits)
    case Sign =>
      if !SessionOpen(b) || b.nonce.None? || OurKey(c, b) !in b.pubKeys then Panicked(st.exits)
      else Live(Signed, PartialSign(c, b), st.exits + [b.nonce.value.sec])
    case Finish =>
      if b.session.None? then Panicked(st.exits)
      else
        match PartialAggregate(c, b)
        case Ok(sig) => Finished(sig, st.exits)
        case Err(_) => Dropped(st.exits)
  }

  function Initial(c: Curve, key: Keypair, keys: seq<Point>): State
    requires c.q > 0
  {
    Continue(Setup(c, key, keys), NoMessage, [])
  }

  ghost predicate Takes(c: Curve, st: State, call: Call, st': State)
    requires c.q > 0
  {
    Enabled(c, st, call) && st' == Step(c, st, call)
  }

  /** `states` are the states before and after each of `calls`. */
  ghost predicate IsExecution(c: Curve, states: seq<State>, calls: seq<Call>)
    requires c.q > 0
  {
    && |states| == |calls| + 1
    && forall i :: 0 <= i < |calls| ==> Takes(c, states[i], calls[i], states[i + 1])
  }

  ghost predicate IsRun(c: Curve, key: Keypair, keys: seq<Point>, states: seq<State>, calls: seq<Call>)
    requires c.q > 0
  {
    IsExecution(c, states, calls) && states[0] == Initial(c, key, keys)
  }

  lemma TweakKeepsInv(c: Curve, st: State, call: Call)
    requires c.q > 0 && StateInv(c, st) && Enabled(c, st, call) && call.Tweak?
    ensures StateInv(c, Step(c, st, call))
  {
    c.TweakKeepsCacheInv(st.b.aggcache, call.t);
  }

  lemma AggregateKeepsInv(c: Curve, st: State, call: Call)
    requires c.q > 0 && StateInv(c, st) && Enabled(c, st, call) && (call.Aggregate? || call.AggregateOrdered?)
    ensures StateInv(c, Step(c, st, call))
  {}

  lemma AddKeepsInv(c: Curve, st: State, call: Call)
    requires c.q > 0 && StateInv(c, st) && Enabled(c, st, call) && call.Add?
    ensures StateInv(c, Step(c, st, call))
  {}

  lemma SignKeepsInv(c: Curve, st: State, call: Call)
    requires c.q > 0 && StateInv(c, st) && Enabled(c, st, call) && call.Sign?
    ensures StateInv(c, Step(c, st, call))
  {}

  lemma StepKeepsInv(c: Curve, st: State, call: Call)
    requires c.q > 0 && StateInv(c, st) && Enabled(c, st, call)
    ensures StateInv(c, Step(c, st, call))
  {
    match call
    case Tweak(_) => TweakKeepsInv(c, st, call);
    case Aggregate(_) => AggregateKeepsInv(c, st, call);
    case AggregateOrdered(_) => AggregateKeepsInv(c, st, call);
    case Add(_, _) => AddKeepsInv(c, st, call);
    case Sign => SignKeepsInv(c, st, call);
    case _ =>
      hide AggregateNonces, AggregateNoncesOrdered, PartialAdd, PartialSign, TweakAdd;
  }

  lemma {:induction false} ExecutionKeepsInv(c: Curve, states: seq<State>, calls: seq<Call>, n: nat)
    requires c.q > 0 && IsExecution(c, states, calls) && StateInv(c, states[0]) && n <= |calls|
    ensures StateInv(c, states[n])
  {
    if n > 0 {
      ExecutionKeepsInv(c, states, calls, n - 1);
      assert Takes(c, states[n - 1], calls[n - 1], states[n]);
      StepKeepsInv(c, states[n - 1], calls[n - 1]);
    }
  }

  /**
   Every state of every run satisfies its phase's invariant: vectors of one length, our key and nonce at
   our index, message and session set. In particular no `expect` ever fails.
   */
  lemma PhaseInvariants(c: Curve, key: Keypair, keys: seq<Point>, states: seq<State>, calls: seq<Call>, n: nat)
    requires c.q > 0 && IsRun(c, key, keys, states, calls) && n <= |calls|
    ensures StateInv(c, states[n]) && !states[n].Panicked?
  {
    c.NewCacheInv(keys);
    ExecutionKeepsInv(c, states, calls, n);
  }
}
