/** Which writes about a swap's lockup transaction are applied, and what unbounded runs of them preserve. */
module LockupIdentity {
  import opened Wrappers

  datatype Status =
    | TransactionMempool
    | TransactionConfirmed
    | TransactionLockupFailed
    | TransactionZeroConfRejected
    | OtherStatus(name: string)

  type TargetStatus = s: Status | s.TransactionMempool? || s.TransactionConfirmed? || s.TransactionLockupFailed?
    witness TransactionMempool

  datatype Identity = Identity(transactionId: string, vout: Option<nat>)

  datatype WriteOutcome = Acquired | Idempotent | Rejected

  datatype Decision = Decision(outcome: WriteOutcome, write: bool, vout: Option<nat>)

  predicate CanTakeOver(status: Status) {
    status.TransactionLockupFailed? || status.TransactionZeroConfRejected?
  }

  /** A missing output index matches every index. */
  predicate IsSame(existing: Identity, incoming: Identity) {
    && existing.transactionId == incoming.transactionId
    && (existing.vout.None? || incoming.vout.None? || existing.vout == incoming.vout)
  }

  function OrElse(a: Option<nat>, b: Option<nat>): Option<nat> {
    if a.Some? then a else b
  }

  function Decide(
      existing: Option<Identity>, incoming: Identity, current: Status, target: TargetStatus, updatable: bool)
    : Decision
  {
    match existing
    case None =>
      if updatable then Decision(Acquired, true, incoming.vout) else Decision(Rejected, false, None)
    case Some(known) =>
      if IsSame(known, incoming) then
        var downgrades := current.TransactionConfirmed? && !target.TransactionConfirmed?;
        Decision(Idempotent, updatable && !downgrades, OrElse(incoming.vout, known.vout))
      else if updatable && CanTakeOver(current) then Decision(Acquired, true, incoming.vout)
      else Decision(Rejected, false, None)
  }

  predicate WritesRejection(existing: Option<Identity>, incoming: Identity, current: Status) {
    existing.Some? && current.TransactionMempool? && IsSame(existing.value, incoming)
  }

  // Applying decisions to the stored swap

  datatype Swap = Swap(lockup: Option<Identity>, status: Status)

  datatype Event =
    | Write(incoming: Identity, target: TargetStatus, updatable: bool)
    | RejectZeroConf(incoming: Identity)

  function DecisionFor(s: Swap, e: Event): Decision
    requires e.Write?
  {
    Decide(s.lockup, e.incoming, s.status, e.target, e.updatable)
  }

  function Apply(s: Swap, e: Event): Swap {
    match e
    case Write(incoming, target, _) =>
      var d := DecisionFor(s, e);
      if d.write then Swap(Some(Identity(incoming.transactionId, d.vout)), target) else s
    case RejectZeroConf(incoming) =>
      if WritesRejection(s.lockup, incoming, s.status) then s.(status := TransactionZeroConfRejected) else s
  }

  function Run(s: Swap, events: seq<Event>): Swap {
    if events == [] then s
    else Apply(Run(s, events[..|events| - 1]), events[|events| - 1])
  }

  /** A swap is only confirmed by a transaction, which is then stored. */
  predicate Consistent(s: Swap) {
    s.status.TransactionConfirmed? ==> s.lockup.Some?
  }

  lemma {:induction false} RunIsConsistent(s: Swap, events: seq<Event>)
    requires Consistent(s)
    ensures Consistent(Run(s, events))
  {
    if events != [] {
      RunIsConsistent(s, events[..|events| - 1]);
    }
  }

  // What one write does

  /** The two name different outputs: other transactions, or two different indices. */
  predicate Differ(a: Identity, b: Identity) {
    a.transactionId != b.transactionId || (a.vout.Some? && b.vout.Some? && a.vout.value != b.vout.value)
  }

  /** Exactly when a write acquires the lockup, repeats it, or is rejected. */
  lemma OutcomeIff(s: Swap, e: Event)
    requires e.Write?
    ensures DecisionFor(s, e).outcome == Acquired
            <==> && e.updatable
                 && (s.lockup.None?
                     || (Differ(s.lockup.value, e.incoming)
                         && s.status in {TransactionLockupFailed, TransactionZeroConfRejected}))
    ensures DecisionFor(s, e).outcome == Idempotent <==> s.lockup.Some? && !Differ(s.lockup.value, e.incoming)
  {}

  /**
   What a write leaves: an acquisition stores it as it came; a repetition that may update, and does not undo a
   confirmation, stores the target status and fills in a missing index; anything else stores nothing.
   */
  lemma WriteStores(s: Swap, e: Event)
    requires e.Write?
    ensures DecisionFor(s, e).outcome == Acquired ==> Apply(s, e) == Swap(Some(e.incoming), e.target)
    ensures DecisionFor(s, e).outcome == Rejected ==> Apply(s, e) == s
    ensures DecisionFor(s, e).outcome == Idempotent ==>
              if e.updatable && (s.status == TransactionConfirmed ==> e.target == TransactionConfirmed) then
                && Apply(s, e).status == e.target && Apply(s, e).lockup.Some?
                && Apply(s, e).lockup.value.transactionId == s.lockup.value.transactionId
                && Apply(s, e).lockup.value.vout
                   == if s.lockup.value.vout.Some? then s.lockup.value.vout else e.incoming.vout
              else Apply(s, e) == s
  {}

  /** A rejection of 0-conf changes exactly the status of a swap whose own lockup is in the mempool. */
  lemma RejectionStores(s: Swap, e: Event)
    requires e.RejectZeroConf?
    ensures Apply(s, e) == if RejectsOwn(s, e) then s.(status := TransactionZeroConfRejected) else s
  {}

  predicate RejectsOwn(s: Swap, e: Event) {
    && e.RejectZeroConf? && s.status == TransactionMempool
    && s.lockup.Some? && !Differ(s.lockup.value, e.incoming)
  }

  // The first lockup

  ghost predicate SomeUpdatable(events: seq<Event>) {
    exists i :: 0 <= i < |events| && events[i].Write? && events[i].updatable
  }

  /** Until an updatable write comes, an empty swap stays as it is. */
  lemma {:induction false} EmptyStays(s: Swap, events: seq<Event>)
    requires s.lockup.None? && !SomeUpdatable(events)
    ensures Run(s, events) == s
  {
    if events != [] {
      var front := events[..|events| - 1];
      assert forall i :: 0 <= i < |front| ==> front[i] == events[i];
      EmptyStays(s, front);
      assert !(events[|events| - 1].Write? && events[|events| - 1].updatable);
    }
  }

  lemma {:induction false} LockupStays(s: Swap, events: seq<Event>, i: nat)
    requires i <= |events| && Run(s, events[..i]).lockup.Some?
    ensures Run(s, events).lockup.Some?
    decreases |events|
  {
    if i < |events| {
      var front := events[..|events| - 1];
      assert front[..i] == events[..i];
      LockupStays(s, front, i);
    } else {
      assert events[..i] == events;
    }
  }

  /** An empty swap ends up with a lockup exactly if some write was updatable, and the first one sets it. */
  lemma FirstLockup(s: Swap, events: seq<Event>)
    requires s.lockup.None?
    ensures Run(s, events).lockup.Some? <==> SomeUpdatable(events)
    ensures forall i :: 0 <= i < |events| && events[i].Write? && events[i].updatable && !SomeUpdatable(events[..i]) ==>
              Run(s, events[..i]) == s && Run(s, events[..i + 1]) == Swap(Some(events[i].incoming), events[i].target)
  {
    forall i | 0 <= i < |events| && events[i].Write? && events[i].updatable && !SomeUpdatable(events[..i])
      ensures Run(s, events[..i]) == s && Run(s, events[..i + 1]) == Swap(Some(events[i].incoming), events[i].target)
    {
      EmptyStays(s, events[..i]);
      assert events[..i + 1][..i] == events[..i];
      OutcomeIff(s, events[i]);
    }
    if SomeUpdatable(events) {
      var i := FirstUpdatable(events);
      LockupStays(s, events, i + 1);
    } else {
      EmptyStays(s, events);
    }
  }

  lemma {:induction false} FirstUpdatable(events: seq<Event>) returns (i: nat)
    requires SomeUpdatable(events)
    ensures i < |events| && events[i].Write? && events[i].updatable && !SomeUpdatable(events[..i])
  {
    var last := |events| - 1;
    var front := events[..last];
    if SomeUpdatable(front) {
      i := FirstUpdatable(front);
      assert front[..i] == events[..i];
    } else {
      i := last;
      assert forall k :: 0 <= k < last ==> front[k] == events[k];
    }
  }

  // Rejected 0-conf

  /** The last thing that counted was a rejection of the swap's own mempool lockup, at position i. */
  ghost predicate RejectedAt(s: Swap, events: seq<Event>, i: nat) {
    i < |events| && RejectsOwn(Run(s, events[..i]), events[i]) && !SomeUpdatable(events[i + 1..])
  }

  /**
   A run ends with 0-conf rejected exactly if, with no updatable write after it, the swap's own mempool lockup
   was rejected or the run started that way.
   */
  lemma {:induction false} RejectedIff(s: Swap, events: seq<Event>)
    ensures Run(s, events).status == TransactionZeroConfRejected
            <==> (s.status == TransactionZeroConfRejected && !SomeUpdatable(events))
                 || exists i: nat :: RejectedAt(s, events, i)
  {
    if events != [] {
      var last := |events| - 1;
      var front, e := events[..last], events[last];
      RejectedIff(s, front);
      RejectedStep(Run(s, front), e);
      UpdatableSplits(events, 0);
      assert events[0..] == events && front[0..] == front;
      forall i: nat | i < last
        ensures RejectedAt(s, events, i) <==> RejectedAt(s, front, i) && !(e.Write? && e.updatable)
      {
        assert front[..i] == events[..i];
        UpdatableSplits(events, i + 1);
      }
      assert RejectedAt(s, events, last) <==> RejectsOwn(Run(s, front), e);
      if exists i: nat :: RejectedAt(s, events, i) {
        var i: nat :| RejectedAt(s, events, i);
        assert i < last ==> RejectedAt(s, front, i);
      }
      if i: nat :| RejectedAt(s, front, i) {
        assert RejectedAt(s, events, i) <==> !(e.Write? && e.updatable);
      }
    }
  }

  lemma RejectedStep(s: Swap, e: Event)
    ensures Apply(s, e).status == TransactionZeroConfRejected
            <==> RejectsOwn(s, e) || (s.status == TransactionZeroConfRejected && !(e.Write? && e.updatable))
  {}

  lemma UpdatableSplits(events: seq<Event>, i: nat)
    requires i < |events|
    ensures var last := |events| - 1;
            SomeUpdatable(events[i..])
            <==> SomeUpdatable(events[..last][i..]) || (events[last].Write? && events[last].updatable)
  {
    var last := |events| - 1;
    var all, front := events[i..], events[..last][i..];
    assert all == front + [events[last]];
    assert all[|all| - 1] == events[last];
    if SomeUpdatable(front) {
      var k :| 0 <= k < |front| && front[k].Write? && front[k].updatable;
      assert all[k] == front[k];
    }
    if SomeUpdatable(all) {
      var k :| 0 <= k < |all| && all[k].Write? && all[k].updatable;
      assert k < |front| ==> front[k] == all[k];
    }
  }

  // One transaction output

  /** The event is about this output: same transaction, and the index missing or equal. */
  predicate About(id: Identity, transactionId: string, vout: nat) {
    id.transactionId == transactionId && (id.vout.None? || id.vout == Some(vout))
  }

  ghost predicate AllAbout(events: seq<Event>, transactionId: string, vout: nat) {
    forall i :: 0 <= i < |events| ==> About(events[i].incoming, transactionId, vout)
  }

  predicate ConfirmingWrite(e: Event) {
    e.Write? && e.updatable && e.target.TransactionConfirmed?
  }

  ghost predicate TargetsConfirmed(events: seq<Event>) {
    exists i :: 0 <= i < |events| && ConfirmingWrite(events[i])
  }

  /** The swap knows nothing yet, or this output, and is confirmed only with a stored transaction. */
  predicate Fits(s: Swap, transactionId: string, vout: nat) {
    Consistent(s) && (s.lockup.Some? ==> About(s.lockup.value, transactionId, vout))
  }

  /**
   In any order, with repeats, with rejections and writes that may not update in between: the swap ends up
   confirmed exactly if it was before or some updatable write said so.
   */
  lemma {:induction false} ConfirmedIffTargeted(s: Swap, events: seq<Event>, transactionId: string, vout: nat)
    requires Fits(s, transactionId, vout) && AllAbout(events, transactionId, vout)
    ensures Fits(Run(s, events), transactionId, vout)
    ensures Run(s, events).status.TransactionConfirmed?
            <==> s.status.TransactionConfirmed? || TargetsConfirmed(events)
  {
    if events != [] {
      var last := |events| - 1;
      var front, e := events[..last], events[last];
      ConfirmedIffTargeted(s, front, transactionId, vout);
      assert TargetsConfirmed(events)
        <==> TargetsConfirmed(front) || ConfirmingWrite(e) by {
        assert forall i :: 0 <= i < last ==> front[i] == events[i];
      }
    }
  }

  /** Delivering an event again right after it was applied changes nothing, whatever the swap. */
  lemma ReplayChangesNothing(s: Swap, e: Event)
    ensures Apply(Apply(s, e), e) == Apply(s, e)
  {}

  // Arbitrary transactions

  /** Once a run has confirmed the swap, it stays confirmed with the same transaction. */
  lemma {:induction false} ConfirmedIsForever(s: Swap, events: seq<Event>, i: nat, n: nat)
    requires Consistent(s) && i <= n <= |events| && Run(s, events[..i]).status.TransactionConfirmed?
    ensures Run(s, events[..i]).lockup.Some?
    ensures Run(s, events[..n]).status.TransactionConfirmed? && Run(s, events[..n]).lockup.Some?
    ensures Run(s, events[..n]).lockup.value.transactionId == Run(s, events[..i]).lockup.value.transactionId
  {
    RunIsConsistent(s, events[..i]);
    if i < n {
      ConfirmedIsForever(s, events, i, n - 1);
      assert events[..n][..n - 1] == events[..n - 1];
    }
  }

  predicate Acquires(s: Swap, e: Event) {
    e.Write? && DecisionFor(s, e).outcome.Acquired?
  }

  /** The stored transaction changes exactly when an updatable takeover by another one is written. */
  lemma TransactionChangesIff(s: Swap, e: Event)
    requires s.lockup.Some?
    ensures Apply(s, e).lockup.Some?
    ensures Apply(s, e).lockup.value.transactionId != s.lockup.value.transactionId
            <==> && e.Write? && e.updatable && CanTakeOver(s.status)
                 && e.incoming.transactionId != s.lockup.value.transactionId
    ensures Apply(s, e).lockup.value.transactionId != s.lockup.value.transactionId ==> Acquires(s, e)
  {}

  /** No event from position `i` on, up to but excluding `j`, acquires the lockup. */
  ghost predicate NoAcquisition(s: Swap, events: seq<Event>, i: nat, j: nat)
    requires j <= |events|
  {
    forall k: nat :: i <= k < j ==> !Acquires(Run(s, events[..k]), events[k])
  }

  /** Between acquisitions a stored output index is neither lost nor replaced. */
  lemma {:induction false} VoutIsKept(s: Swap, events: seq<Event>, i: nat, j: nat)
    requires i <= j <= |events| && NoAcquisition(s, events, i, j)
    requires Run(s, events[..i]).lockup.Some? && Run(s, events[..i]).lockup.value.vout.Some?
    ensures Run(s, events[..j]).lockup == Run(s, events[..i]).lockup
  {
    if i < j {
      VoutIsKept(s, events, i, j - 1);
      assert events[..j][..j - 1] == events[..j - 1];
      assert !Acquires(Run(s, events[..j - 1]), events[j - 1]);
    }
  }

  /** The output index that event `k` of the run writes, if it writes one. */
  ghost function Written(s: Swap, events: seq<Event>, k: nat): Option<nat>
    requires k < |events|
  {
    var before := Run(s, events[..k]);
    if events[k].Write? && DecisionFor(before, events[k]).write then DecisionFor(before, events[k]).vout else None
  }

  /** All concrete indices written without an acquisition in between are the same. */
  lemma WrittenVoutsAgree(s: Swap, events: seq<Event>, i: nat, j: nat)
    requires i < j < |events| && NoAcquisition(s, events, i + 1, j + 1)
    requires Written(s, events, i).Some? && Written(s, events, j).Some?
    ensures Written(s, events, i) == Written(s, events, j)
  {
    assert events[..i + 1][..i] == events[..i];
    assert Run(s, events[..i + 1]).lockup.value.vout == Written(s, events, i);
    VoutIsKept(s, events, i + 1, j);
    assert !Acquires(Run(s, events[..j]), events[j]);
  }

  /** Agreement does not follow from the comparison alone, which is not transitive. */
  lemma SameIsNotTransitive(tx: string)
    ensures var (a, b, c) := (Identity(tx, Some(0)), Identity(tx, None), Identity(tx, Some(1)));
            IsSame(a, b) && IsSame(b, c) && !IsSame(a, c)
  {}
}
