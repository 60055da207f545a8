/**
 Runs of the payment protocol for one preimage hash: serialised calls of the payment handler, resolutions by
 the node trackers, and changes of the matching reverse swap, in any order.
 */
module PaymentRuns {
  import opened Wrappers
  import opened PaymentTracker

  // Self payments

  datatype ReverseStatus = SwapCreated | TransactionRefunded | TransactionFailed | OtherStatus

  datatype ReverseSwap = ReverseSwap(invoice: string, status: ReverseStatus, preimage: Option<string>)

  /** The environment's answers that the self-payment path asks for. */
  datatype SelfChecks =
    SelfChecks(signerDisabled: bool, cltvLimit: int, minFinalCltv: int, expired: bool,
               settledInTime: Option<string>, refundIsFinal: bool)

  datatype SelfResult =
    | NotSelf
    | IsSelf(accepted: bool, preimage: Option<string>)
    | Throws

  function GetPreimage(reverse: ReverseSwap, checks: SelfChecks): SelfResult {
    if reverse.preimage.Some? then IsSelf(false, reverse.preimage)
    else if reverse.status == TransactionRefunded then
      if checks.refundIsFinal then Throws else IsSelf(false, None)
    else if reverse.status == TransactionFailed then Throws
    else IsSelf(false, None)
  }

  /** `accepted` tells whether `htlc.accepted` was emitted. */
  function HandleSelfPayment(
      payments: seq<Row>, invoice: string, reverse: Option<ReverseSwap>, checks: SelfChecks): SelfResult
  {
    if payments != [] then NotSelf
    else
      match reverse
      case None => NotSelf
      case Some(r) =>
        if invoice != r.invoice then Throws
        else if r.status == SwapCreated then
          if checks.signerDisabled || checks.cltvLimit <= checks.minFinalCltv || checks.expired then Throws
          else IsSelf(true, checks.settledInTime)
        else GetPreimage(r, checks)
  }

  // The state machine

  /**
   `tracked` holds the attempts whose outcome the backend awaits, `orphaned` those still in flight on a node
   after their failure was recorded; `dispatches` lists the nodes a payment was sent to, and `accepted` counts
   `htlc.accepted`.
   */
  datatype State = State(
    rows: Rows, tracked: multiset<NodeId>, orphaned: multiset<NodeId>, dispatches: seq<NodeId>, accepted: nat,
    reverse: Option<ReverseSwap>)

  /** One call of the payment handler; `allowed` is false if a hook, signer or CLTV check stops it. */
  datatype Request = Request(
    payments: seq<Row>, preferred: NodeId, available: set<NodeId>, now: int, isCln: NodeId -> bool,
    attempt: Attempt, checks: SelfChecks, allowed: bool)

  /**
   `Resolve` is a node tracker writing an outcome, `inFlight` whether the node in fact goes on paying; `Land`
   is the end of an orphaned attempt, which nobody observes.
   */
  datatype Event =
    | Call(r: Request)
    | Resolve(node: NodeId, status: Status, inFlight: bool)
    | Land(node: NodeId)
    | Reverse(swap: ReverseSwap)

  datatype Setting = Setting(invoice: string, timeout: Option<int>)

  /** The handler reads all rows of the hash, in whatever order the database returns them. */
  ghost predicate IsSnapshot(rows: Rows, payments: seq<Row>) {
    && (forall p :: p in payments ==> p.node in rows && rows[p.node] == p)
    && (forall node :: node in rows ==> rows[node] in payments)
  }

  ghost predicate Enabled(s: State, e: Event) {
    match e
    case Call(r) => IsSnapshot(s.rows, r.payments)
    case Resolve(node, status, inFlight) =>
      && node in s.rows && s.rows[node].status == Pending && status != Pending
      && (inFlight ==> node in s.tracked && status != Success)
    case Land(node) => node in s.orphaned
    case Reverse(_) => true
  }

  function NodeFor(r: Request): NodeId {
    RelevantNode(r.payments, r.preferred, r.available).0
  }

  function SendFor(cfg: Setting, s: State, r: Request): Outcome {
    var node := NodeFor(r);
    Send(s.rows, r.payments, node, r.now, cfg.timeout, r.isCln(node), r.attempt)
  }

  predicate ReachesSend(cfg: Setting, s: State, r: Request) {
    HandleSelfPayment(r.payments, cfg.invoice, s.reverse, r.checks).NotSelf? && r.allowed
  }

  predicate Dispatches(cfg: Setting, s: State, e: Event) {
    e.Call? && ReachesSend(cfg, s, e.r) && SendFor(cfg, s, e.r).dispatched
  }

  /** The attempt that an event leaves in flight while recording its failure. */
  function Orphans(cfg: Setting, s: State, e: Event): multiset<NodeId> {
    match e
    case Call(r) =>
      if Dispatches(cfg, s, e) && Premature(r.isCln(NodeFor(r)), r.attempt) then multiset{NodeFor(r)} else multiset{}
    case Resolve(node, _, inFlight) => if inFlight then multiset{node} else multiset{}
    case _ => multiset{}
  }

  function Step(cfg: Setting, s: State, e: Event): State
    requires Enabled(s, e)
  {
    match e
    case Call(r) =>
      var self := HandleSelfPayment(r.payments, cfg.invoice, s.reverse, r.checks);
      if self.IsSelf? then s.(accepted := s.accepted + if self.accepted then 1 else 0)
      else if !ReachesSend(cfg, s, r) then s
      else
        var (node, o) := (NodeFor(r), SendFor(cfg, s, r));
        s.(rows := o.rows,
           tracked := if o.tracked then s.tracked + multiset{node} else s.tracked,
           orphaned := s.orphaned + Orphans(cfg, s, e),
           dispatches := if o.dispatched then s.dispatches + [node] else s.dispatches)
    case Resolve(node, status, _) =>
      s.(rows := SetStatus(s.rows, node, status), tracked := s.tracked - multiset{node},
         orphaned := s.orphaned + Orphans(cfg, s, e))
    case Land(node) => s.(orphaned := s.orphaned - multiset{node})
    case Reverse(swap) => s.(reverse := Some(swap))
  }

  ghost predicate Takes(cfg: Setting, s: State, e: Event, s': State) {
    Enabled(s, e) && s' == Step(cfg, s, e)
  }

  ghost predicate IsRun(cfg: Setting, states: seq<State>, events: seq<Event>) {
    && |states| == |events| + 1
    && states[0].rows == map[] && states[0].tracked == multiset{} && states[0].orphaned == multiset{}
    && states[0].dispatches == [] && states[0].accepted == 0
    && forall i :: 0 <= i < |events| ==> Takes(cfg, states[i], events[i], states[i + 1])
  }

  // Invariants

  ghost predicate RowsKeyed(rows: Rows) {
    forall node :: node in rows ==> rows[node].node == node
  }

  /** At most one row is pending, successful or permanently failed. */
  ghost predicate OneLive(rows: Rows) {
    forall a, b :: a in rows && b in rows && Live(rows[a]) && Live(rows[b]) ==> a == b
  }

  /** At most one attempt is awaited, and it belongs to the pending row. */
  ghost predicate OneTracked(s: State) {
    && |s.tracked| <= 1
    && forall node :: node in s.tracked ==> node in s.rows && s.rows[node].status == Pending
  }

  /** A self payment was accepted only without rows; a dispatch always leaves one. */
  ghost predicate SelfExclusive(s: State) {
    && (s.accepted > 0 ==> s.rows == map[] && s.reverse.Some?)
    && (s.dispatches != [] ==> s.rows != map[])
  }

  ghost predicate Inv(s: State) {
    RowsKeyed(s.rows) && OneLive(s.rows) && OneTracked(s) && SelfExclusive(s)
  }

  /** Nothing is sent, and no row is created, while some row is live. */
  lemma LiveRowStopsCall(cfg: Setting, s: State, r: Request)
    requires Enabled(s, Call(r)) && exists node :: node in s.rows && Live(s.rows[node])
    ensures Step(cfg, s, Call(r)) == s && !Dispatches(cfg, s, Call(r))
  {
    var node :| node in s.rows && Live(s.rows[node]);
    assert s.rows[node] in r.payments;
    assert ActedOn(r.payments).Some?;
  }

  lemma TrackedIsLive(s: State)
    requires OneTracked(s)
    ensures s.tracked != multiset{} ==> exists node :: node in s.rows && Live(s.rows[node])
  {
    if s.tracked != multiset{} {
      var node :| node in s.tracked;
      assert node in s.rows && Live(s.rows[node]);
    }
  }

  lemma SnapshotOfNothing(rows: Rows, payments: seq<Row>)
    requires IsSnapshot(rows, payments)
    ensures payments != [] ==> rows != map[]
  {
    if payments != [] {
      assert payments[0].node in rows;
    }
  }

  /** Only `node`'s row differs, so it alone may be live. */
  lemma OnlyOneChanged(rows: Rows, rows': Rows, node: NodeId)
    requires RowsKeyed(rows) && forall n :: n in rows ==> !Live(rows[n])
    requires forall n :: n in rows' && n != node ==> n in rows && rows'[n] == rows[n]
    requires node in rows' ==> rows'[node].node == node
    ensures RowsKeyed(rows') && OneLive(rows')
  {}

  /** Sending with no live row touches one row only, which alone may be live afterwards. */
  lemma SendFromIdle(
      rows: Rows, payments: seq<Row>, node: NodeId, now: int, timeout: Option<int>, isCln: bool, attempt: Attempt)
    requires RowsKeyed(rows) && IsSnapshot(rows, payments)
    requires forall n :: n in rows ==> !Live(rows[n])
    ensures var o := Send(rows, payments, node, now, timeout, isCln, attempt);
            && RowsKeyed(o.rows) && OneLive(o.rows)
            && (o.tracked ==> node in o.rows && o.rows[node].status == Pending)
            && (o.dispatched ==> node in o.rows)
            && (rows != map[] ==> o.rows != map[])
  {
    var o := Send(rows, payments, node, now, timeout, isCln, attempt);
    assert ActedOn(payments).None?;
    OnlyOneChanged(rows, o.rows, node);
    if n :| n in rows {
      assert n in o.rows;
    }
  }

  lemma SendKeepsInv(cfg: Setting, s: State, r: Request)
    requires Inv(s) && Enabled(s, Call(r)) && ReachesSend(cfg, s, r)
    requires forall node :: node in s.rows ==> !Live(s.rows[node])
    ensures Inv(Step(cfg, s, Call(r)))
  {
    hide Send;
    TrackedIsLive(s);
    SnapshotOfNothing(s.rows, r.payments);
    var node := NodeFor(r);
    SendFromIdle(s.rows, r.payments, node, r.now, cfg.timeout, r.isCln(node), r.attempt);
  }

  lemma StepKeepsInv(cfg: Setting, s: State, e: Event)
    requires Inv(s) && Enabled(s, e)
    ensures Inv(Step(cfg, s, e))
  {
    match e
    case Call(r) =>
      if exists node :: node in s.rows && Live(s.rows[node]) {
        LiveRowStopsCall(cfg, s, r);
      } else if ReachesSend(cfg, s, r) {
        SendKeepsInv(cfg, s, r);
      } else {
        assert s.rows != map[] ==> exists node :: node in s.rows && s.rows[node] in r.payments;
      }
    case Resolve(_, _, _) =>
      ResolveKeepsInv(cfg, s, e);
    case Land(_) =>
    case Reverse(_) =>
  }

  lemma ResolveKeepsInv(cfg: Setting, s: State, e: Event)
    requires Inv(s) && Enabled(s, e) && e.Resolve?
    ensures Inv(Step(cfg, s, e))
  {
    assert forall n :: n in s.tracked ==> n == e.node by {
      assert Live(s.rows[e.node]);
    }
    AtMostOne(s.tracked, e.node);
  }

  lemma AtMostOne(m: multiset<NodeId>, node: NodeId)
    requires |m| <= 1 && forall n :: n in m ==> n == node
    ensures m - multiset{node} == multiset{}
  {
    if m != multiset{} {
      var n :| n in m;
      assert m == multiset{n} + (m - multiset{n});
    }
  }

  lemma {:induction false} RunInv(cfg: Setting, states: seq<State>, events: seq<Event>, n: nat)
    requires IsRun(cfg, states, events) && n <= |events|
    ensures Inv(states[n])
  {
    if n > 0 {
      hide Step;
      RunInv(cfg, states, events, n - 1);
      assert Takes(cfg, states[n - 1], events[n - 1], states[n]);
      StepKeepsInv(cfg, states[n - 1], events[n - 1]);
    }
  }

  // Theorems

  /**
   At most one row is live and the outcome of at most one attempt is awaited, in every state of every run; a
   dispatch happens only with neither.
   */
  lemma OneAttemptAtATime(cfg: Setting, states: seq<State>, events: seq<Event>, n: nat)
    requires IsRun(cfg, states, events) && n <= |events|
    ensures OneLive(states[n].rows) && OneTracked(states[n])
    ensures n < |events| && Dispatches(cfg, states[n], events[n]) ==>
              && states[n].tracked == multiset{}
              && forall node :: node in states[n].rows ==> states[n].rows[node].status == TemporaryFailure
  {
    RunInv(cfg, states, events, n);
    if n < |events| && Dispatches(cfg, states[n], events[n]) {
      var s := states[n];
      assert Takes(cfg, s, events[n], states[n + 1]);
      if exists node :: node in s.rows && Live(s.rows[node]) {
        LiveRowStopsCall(cfg, s, events[n].r);
      }
      TrackedIsLive(s);
    }
  }

  /** Sending with no live row. */
  lemma IdleSend(
      rows: Rows, payments: seq<Row>, node: NodeId, now: int, timeout: Option<int>, isCln: bool, attempt: Attempt)
    requires IsSnapshot(rows, payments) && forall n :: n in rows ==> !Live(rows[n])
    ensures var o := Send(rows, payments, node, now, timeout, isCln, attempt);
            && (o.dispatched <==> !InvoiceTimedOut(payments, now, timeout) && !attempt.LookupThrew?)
            && (o.dispatched ==> node in o.rows && (o.rows[node].status == Pending <==> o.tracked))
  {
    IdleIsNotActedOn(rows, payments);
    hide ActedOn, InvoiceTimedOut, IsSnapshot;
  }

  /**
   A call that gets as far as sending dispatches exactly if no row is live, the invoice has not timed out and
   the preparations did not throw.
   */
  lemma DispatchesIff(cfg: Setting, states: seq<State>, events: seq<Event>, n: nat)
    requires IsRun(cfg, states, events) && n < |events| && events[n].Call? && ReachesSend(cfg, states[n], events[n].r)
    ensures Dispatches(cfg, states[n], events[n])
            <==> && (forall node :: node in states[n].rows ==> !Live(states[n].rows[node]))
                 && !InvoiceTimedOut(events[n].r.payments, events[n].r.now, cfg.timeout)
                 && !events[n].r.attempt.LookupThrew?
  {
    hide Send, ReachesSend, InvoiceTimedOut, Step;
    var s, r := states[n], events[n].r;
    assert Takes(cfg, s, events[n], states[n + 1]);
    if forall node :: node in s.rows ==> !Live(s.rows[node]) {
      IdleSend(s.rows, r.payments, NodeFor(r), r.now, cfg.timeout, r.isCln(NodeFor(r)), r.attempt);
    } else {
      LiveRowStopsCall(cfg, s, r);
    }
  }

  /** A dispatched attempt has a row for its node, and its outcome is awaited exactly while that row is pending. */
  lemma DispatchLeavesAttempt(cfg: Setting, states: seq<State>, events: seq<Event>, n: nat)
    requires IsRun(cfg, states, events) && n < |events| && Dispatches(cfg, states[n], events[n])
    ensures var node := NodeFor(events[n].r);
            && states[n + 1].dispatches == states[n].dispatches + [node] && node in states[n + 1].rows
            && (states[n + 1].rows[node].status == Pending <==> states[n + 1].tracked == multiset{node})
            && (states[n + 1].rows[node].status != Pending <==> states[n + 1].tracked == multiset{})
  {
    hide Send, InvoiceTimedOut, NodeFor;
    var s, r := states[n], events[n].r;
    assert Takes(cfg, s, events[n], states[n + 1]);
    OneAttemptAtATime(cfg, states, events, n);
    IdleSend(s.rows, r.payments, NodeFor(r), r.now, cfg.timeout, r.isCln(NodeFor(r)), r.attempt);
    assert multiset{NodeFor(r)} != multiset{} && multiset{} + multiset{NodeFor(r)} == multiset{NodeFor(r)};
  }

  lemma IdleIsNotActedOn(rows: Rows, payments: seq<Row>)
    requires IsSnapshot(rows, payments) && forall node :: node in rows ==> !Live(rows[node])
    ensures ActedOn(payments).None?
  {}

  // Attempts that are still in flight

  /** The attempts not known to have ended, whether or not the backend still awaits them. */
  function Unfinished(s: State): multiset<NodeId> {
    s.tracked + s.orphaned
  }

  /** The attempts orphaned by the first `n` events. */
  ghost function OrphansOf(cfg: Setting, states: seq<State>, events: seq<Event>, n: nat): multiset<NodeId>
    requires n <= |events| < |states|
  {
    if n == 0 then multiset{}
    else OrphansOf(cfg, states, events, n - 1) + Orphans(cfg, states[n - 1], events[n - 1])
  }

  function LandedBy(e: Event): multiset<NodeId> {
    if e.Land? then multiset{e.node} else multiset{}
  }

  function Landed(events: seq<Event>): multiset<NodeId> {
    if events == [] then multiset{}
    else Landed(events[..|events| - 1]) + LandedBy(events[|events| - 1])
  }

  lemma StepOrphans(cfg: Setting, s: State, e: Event)
    requires Enabled(s, e)
    ensures Step(cfg, s, e).orphaned + LandedBy(e) == s.orphaned + Orphans(cfg, s, e)
  {
    hide Send;
  }

  lemma Rearrange(a: multiset<NodeId>, b: multiset<NodeId>, c: multiset<NodeId>, d: multiset<NodeId>,
                  e: multiset<NodeId>, f: multiset<NodeId>)
    requires a + b == c + d && c + e == f
    ensures a + (e + b) == f + d
  {
    forall x
      ensures (a + (e + b))[x] == (f + d)[x]
    {
      assert (a + b)[x] == (c + d)[x] && (c + e)[x] == f[x];
    }
  }

  /** The attempts orphaned so far are those that landed since and those still in flight. */
  lemma {:induction false} OrphansAreConserved(cfg: Setting, states: seq<State>, events: seq<Event>, n: nat)
    requires IsRun(cfg, states, events) && n <= |events|
    ensures states[n].orphaned + Landed(events[..n]) == OrphansOf(cfg, states, events, n)
  {
    hide Step, Orphans, LandedBy;
    if n > 0 {
      var s, e := states[n - 1], events[n - 1];
      OrphansAreConserved(cfg, states, events, n - 1);
      assert Takes(cfg, s, e, states[n]);
      StepOrphans(cfg, s, e);
      assert events[..n][..n - 1] == events[..n - 1] && events[..n][n - 1] == e;
      Rearrange(states[n].orphaned, LandedBy(e), s.orphaned, Orphans(cfg, s, e), Landed(events[..n - 1]),
                OrphansOf(cfg, states, events, n - 1));
    }
  }

  lemma {:induction false} NothingOrphanedIff(cfg: Setting, states: seq<State>, events: seq<Event>, n: nat)
    requires n <= |events| < |states|
    ensures OrphansOf(cfg, states, events, n) == multiset{}
            <==> forall i :: 0 <= i < n ==> Orphans(cfg, states[i], events[i]) == multiset{}
  {
    hide Orphans;
    if n > 0 {
      NothingOrphanedIff(cfg, states, events, n - 1);
      BothEmptyIff(OrphansOf(cfg, states, events, n - 1), Orphans(cfg, states[n - 1], events[n - 1]));
    }
  }

  lemma BothEmptyIff(a: multiset<NodeId>, b: multiset<NodeId>)
    ensures a + b == multiset{} <==> a == multiset{} && b == multiset{}
  {
    assert |a + b| == |a| + |b|;
  }

  /** As long as no failure was recorded for an attempt in flight, at most one attempt is unfinished. */
  lemma OneUnfinished(cfg: Setting, states: seq<State>, events: seq<Event>, n: nat)
    requires IsRun(cfg, states, events) && n <= |events|
    ensures |states[n].tracked| <= 1 && |Unfinished(states[n])| <= 1 + |states[n].orphaned|
    ensures (forall i :: 0 <= i < n ==> Orphans(cfg, states[i], events[i]) == multiset{}) ==>
              states[n].orphaned == multiset{} && |Unfinished(states[n])| <= 1
  {
    hide Step, Orphans;
    RunInv(cfg, states, events, n);
    OrphansAreConserved(cfg, states, events, n);
    NothingOrphanedIff(cfg, states, events, n);
    if OrphansOf(cfg, states, events, n) == multiset{} {
      assert |states[n].orphaned + Landed(events[..n])| == |states[n].orphaned| + |Landed(events[..n])|;
    }
  }

  /** A payment is dispatched while an earlier attempt is unfinished exactly if some orphan has not landed. */
  lemma DispatchOverlapsIff(cfg: Setting, states: seq<State>, events: seq<Event>, n: nat)
    requires IsRun(cfg, states, events) && n < |events| && Dispatches(cfg, states[n], events[n])
    ensures Unfinished(states[n]) != multiset{} <==> OrphansOf(cfg, states, events, n) != Landed(events[..n])
  {
    hide Step, Dispatches;
    OneAttemptAtATime(cfg, states, events, n);
    OrphansAreConserved(cfg, states, events, n);
    var (orphaned, landed) := (states[n].orphaned, Landed(events[..n]));
    assert |orphaned + landed| == |orphaned| + |landed|;
    assert multiset{} + orphaned == orphaned && multiset{} + landed == landed;
  }

  /** A request to pay through `node`, which is no CLN node, with nothing in the way. */
  function PlainRequest(payments: seq<Row>, node: NodeId, now: int, attempt: Attempt): Request {
    Request(payments, node, {node}, now, _ => false, attempt, SelfChecks(false, 0, 0, false, None, false), true)
  }

  const EMPTY := State(map[], multiset{}, multiset{}, [], 0, None)

  lemma PlainCall(cfg: Setting, s: State, payments: seq<Row>, node: NodeId, now: int, attempt: Attempt)
    requires s.reverse == None && IsSnapshot(s.rows, payments)
    requires forall n :: n in s.rows ==> !Live(s.rows[n])
    ensures var e := Call(PlainRequest(payments, node, now, attempt));
            var o := if InvoiceTimedOut(payments, now, cfg.timeout)
                     then Outcome(SetStatus(s.rows, node, PermanentFailure), false, false, TimedOut)
                     else SendWithNode(s.rows, node, now, false, attempt);
            var gone := if o.dispatched && Premature(false, attempt) then multiset{node} else multiset{};
            && Enabled(s, e)
            && Step(cfg, s, e) == s.(rows := o.rows,
                                     tracked := if o.tracked then s.tracked + multiset{node} else s.tracked,
                                     orphaned := s.orphaned + gone,
                                     dispatches := if o.dispatched then s.dispatches + [node] else s.dispatches)
  {
    IdleIsNotActedOn(s.rows, payments);
    assert FirstLive(payments).None?;
    hide InvoiceTimedOut, SendWithNode, IsSnapshot, ActedOn;
  }

  /** The state after a node other than CLN failed the call and went on paying. */
  function AfterError(node: NodeId): State {
    State(map[node := Row(node, TemporaryFailure, 0)], multiset{}, multiset{node}, [node], 0, None)
  }

  lemma ErrorInFlight(cfg: Setting, node: NodeId)
    ensures Takes(cfg, EMPTY, Call(PlainRequest([], node, 0, OtherError(true))), AfterError(node))
  {
    PlainCall(cfg, EMPTY, [], node, 0, OtherError(true));
    assert map[node := Row(node, Pending, 0)][node := Row(node, TemporaryFailure, 0)]
        == map[node := Row(node, TemporaryFailure, 0)];
    assert multiset{} + multiset{node} == multiset{node};
  }

  /** The first node's call fails while it goes on paying; the next call dispatches to the second node. */
  lemma TwoAttemptsInFlight(invoice: string, first: NodeId, second: NodeId)
    returns (states: seq<State>, events: seq<Event>)
    requires first != second
    ensures IsRun(Setting(invoice, None), states, events)
    ensures |events| == 2 && states[2].dispatches == [first, second]
    ensures states[2].tracked == multiset{second} && states[2].orphaned == multiset{first}
  {
    var cfg := Setting(invoice, None);
    var row := Row(first, TemporaryFailure, 0);
    var failed := AfterError(first);
    ErrorInFlight(cfg, first);
    PlainCall(cfg, failed, [row], second, 1, StillPending);
    var again := Call(PlainRequest([row], second, 1, StillPending));
    events := [Call(PlainRequest([], first, 0, OtherError(true))), again];
    states := [EMPTY, failed, Step(cfg, failed, again)];
    assert Takes(cfg, failed, again, states[2]);
    hide Takes, Step;
  }

  /** The call fails while the node goes on paying; after the timeout the payment counts as failed for good. */
  lemma FailedForGoodInFlight(invoice: string, node: NodeId, timeout: nat)
    returns (states: seq<State>, events: seq<Event>)
    ensures IsRun(Setting(invoice, Some(timeout)), states, events)
    ensures |events| == 2 && Settled(states[2], node) && states[2].rows[node].status == PermanentFailure
    ensures states[2].orphaned == multiset{node}
  {
    var cfg := Setting(invoice, Some(timeout));
    var row := Row(node, TemporaryFailure, 0);
    var failed := AfterError(node);
    ErrorInFlight(cfg, node);
    TimedOutIffSomeRow([row], timeout + 1, timeout);
    assert row in [row];
    PlainCall(cfg, failed, [row], node, timeout + 1, Paid);
    var again := Call(PlainRequest([row], node, timeout + 1, Paid));
    events := [Call(PlainRequest([], node, 0, OtherError(true))), again];
    states := [EMPTY, failed, Step(cfg, failed, again)];
    assert Takes(cfg, failed, again, states[2]);
    hide Takes, Step;
  }

  // Pending rows without an attempt

  ghost predicate IsPending(s: State, node: NodeId) {
    node in s.rows && s.rows[node].status == Pending
  }

  /** Sending with no live row makes only its own node's row pending. */
  lemma SendBecomesPending(
      rows: Rows, payments: seq<Row>, node: NodeId, now: int, timeout: Option<int>, isCln: bool, attempt: Attempt)
    requires IsSnapshot(rows, payments) && forall n :: n in rows ==> !Live(rows[n])
    ensures var o := Send(rows, payments, node, now, timeout, isCln, attempt);
            forall n :: n in o.rows && o.rows[n].status == Pending ==>
              n == node && (o.tracked <==> !attempt.LookupThrew?)
  {
    IdleIsNotActedOn(rows, payments);
    hide ActedOn, InvoiceTimedOut, IsSnapshot;
  }

  /** A row becomes pending only in a call for its node, which awaits the attempt unless the lookup threw. */
  lemma BecomesPending(cfg: Setting, s: State, e: Event, node: NodeId)
    requires Inv(s) && Enabled(s, e) && !IsPending(s, node) && IsPending(Step(cfg, s, e), node)
    ensures e.Call? && NodeFor(e.r) == node
    ensures node in Step(cfg, s, e).tracked <==> !e.r.attempt.LookupThrew?
  {
    hide Send, NodeFor, IsSnapshot, HandleSelfPayment, Orphans;
    if e.Call? {
      var r := e.r;
      if exists n :: n in s.rows && Live(s.rows[n]) {
        LiveRowStopsCall(cfg, s, r);
      } else {
        TrackedIsLive(s);
        SendBecomesPending(s.rows, r.payments, NodeFor(r), r.now, cfg.timeout, r.isCln(NodeFor(r)), r.attempt);
      }
    }
  }

  lemma StaysPending(cfg: Setting, s: State, e: Event, node: NodeId)
    requires Inv(s) && Enabled(s, e) && IsPending(s, node) && IsPending(Step(cfg, s, e), node)
    ensures Step(cfg, s, e).tracked == s.tracked
  {
    assert Live(s.rows[node]);
    if e.Call? {
      LiveRowStopsCall(cfg, s, e.r);
    } else if e.Resolve? {
      assert Live(s.rows[e.node]);
    }
  }

  /**
   For every pending row there is the call that made it pending, and nobody awaits an outcome for it exactly
   if that call's referral lookup threw.
   */
  lemma {:induction false} PendingWithoutAttemptIff(
      cfg: Setting, states: seq<State>, events: seq<Event>, n: nat, node: NodeId)
    returns (i: nat)
    requires IsRun(cfg, states, events) && n <= |events| && IsPending(states[n], node)
    ensures i < n && events[i].Call? && NodeFor(events[i].r) == node
    ensures !IsPending(states[i], node) && forall k :: i < k <= n ==> IsPending(states[k], node)
    ensures node !in states[n].tracked <==> events[i].r.attempt.LookupThrew?
  {
    hide Step, Inv;
    RunInv(cfg, states, events, n - 1);
    assert Takes(cfg, states[n - 1], events[n - 1], states[n]);
    if IsPending(states[n - 1], node) {
      i := PendingWithoutAttemptIff(cfg, states, events, n - 1, node);
      StaysPending(cfg, states[n - 1], events[n - 1], node);
    } else {
      i := n - 1;
      BecomesPending(cfg, states[i], events[i], node);
    }
  }

  /** Until a node tracker resolves it, a live row blocks every call: no row changes, nothing is dispatched. */
  lemma {:induction false} LiveRowBlocks(
      cfg: Setting, states: seq<State>, events: seq<Event>, i: nat, n: nat, node: NodeId)
    requires IsRun(cfg, states, events) && i <= n <= |events|
    requires node in states[i].rows && Live(states[i].rows[node])
    requires forall k :: i <= k < n ==> !events[k].Resolve?
    ensures states[n].rows == states[i].rows && states[n].dispatches == states[i].dispatches
    ensures states[n].tracked == states[i].tracked
  {
    if i < n {
      LiveRowBlocks(cfg, states, events, i, n - 1, node);
      var s, e := states[n - 1], events[n - 1];
      assert Takes(cfg, s, e, states[n]);
      if e.Call? {
        LiveRowStopsCall(cfg, s, e.r);
      }
    }
  }

  ghost predicate Settled(s: State, node: NodeId) {
    node in s.rows && s.rows[node].status in {Success, PermanentFailure}
  }

  /** A successful or permanently failed row never changes again, and nothing is dispatched after it. */
  lemma {:induction false} SettledIsForever(
      cfg: Setting, states: seq<State>, events: seq<Event>, i: nat, n: nat, node: NodeId)
    requires IsRun(cfg, states, events) && i <= n <= |events| && Settled(states[i], node)
    ensures Settled(states[n], node) && states[n].rows == states[i].rows
    ensures states[n].dispatches == states[i].dispatches
  {
    hide Step, Inv;
    if i < n {
      SettledIsForever(cfg, states, events, i, n - 1, node);
      RunInv(cfg, states, events, n - 1);
      assert Takes(cfg, states[n - 1], events[n - 1], states[n]);
      SettledStep(cfg, states[n - 1], events[n - 1], node);
    }
  }

  lemma SettledStep(cfg: Setting, s: State, e: Event, node: NodeId)
    requires Inv(s) && Enabled(s, e) && Settled(s, node)
    ensures Step(cfg, s, e).rows == s.rows && Step(cfg, s, e).dispatches == s.dispatches
  {
    assert Live(s.rows[node]);
    if e.Call? {
      LiveRowStopsCall(cfg, s, e.r);
    }
  }

  /** The live row that selects the node is the row that `sendPayment` then acts on. */
  lemma SameRelevantRow(cfg: Setting, states: seq<State>, events: seq<Event>, n: nat, payments: seq<Row>)
    requires IsRun(cfg, states, events) && n <= |events| && IsSnapshot(states[n].rows, payments)
    ensures FirstLive(payments) == ActedOn(payments)
  {
    RunInv(cfg, states, events, n);
    var rows := states[n].rows;
    if FirstLive(payments).Some? {
      var row := FirstLive(payments).value;
      assert FirstWith(payments, row.status).Some?;
      var acted := ActedOn(payments).value;
      assert Live(rows[acted.node]) && Live(rows[row.node]);
    }
  }

  /** Call times never go back. */
  ghost predicate ClockAdvances(events: seq<Event>) {
    forall i, j :: 0 <= i < j < |events| && events[i].Call? && events[j].Call? ==> events[i].r.now <= events[j].r.now
  }

  predicate TimesOut(cfg: Setting, s: State, e: Event) {
    e.Call? && ReachesSend(cfg, s, e.r) && SendFor(cfg, s, e.r).reply.TimedOut?
  }

  /** Some row is permanently failed, or none is live and the clock has run out on one of them. */
  ghost predicate OutOfTime(cfg: Setting, s: State, now: int) {
    && cfg.timeout.Some?
    && ((exists node :: Settled(s, node))
        || (&& (forall node :: node in s.rows ==> !Live(s.rows[node]))
            && (exists node :: node in s.rows && now - s.rows[node].createdAt > cfg.timeout.value)))
  }

  lemma TimeoutFound(cfg: Setting, s: State, r: Request)
    requires Inv(s) && IsSnapshot(s.rows, r.payments) && forall node :: node in s.rows ==> !Live(s.rows[node])
    ensures InvoiceTimedOut(r.payments, r.now, cfg.timeout)
            <==> cfg.timeout.Some?
                 && exists node :: node in s.rows && r.now - s.rows[node].createdAt > cfg.timeout.value
  {
    if cfg.timeout.Some? {
      TimedOutIffSomeRow(r.payments, r.now, cfg.timeout.value);
      if InvoiceTimedOut(r.payments, r.now, cfg.timeout) {
        var p :| p in r.payments && !Live(p) && r.now - p.createdAt > cfg.timeout.value;
        assert p.node in s.rows && s.rows[p.node] == p;
      }
      if node :| node in s.rows && r.now - s.rows[node].createdAt > cfg.timeout.value {
        assert s.rows[node] in r.payments;
      }
    }
  }

  /** A call that times out leaves the hash out of time, whether or not the chosen node had a row. */
  lemma TimingOutIsOutOfTime(cfg: Setting, s: State, r: Request)
    requires Inv(s) && Enabled(s, Call(r)) && TimesOut(cfg, s, Call(r))
    ensures OutOfTime(cfg, Step(cfg, s, Call(r)), r.now)
    ensures Step(cfg, s, Call(r)).dispatches == s.dispatches
  {
    forall node | node in s.rows
      ensures !Live(s.rows[node])
    {
      assert s.rows[node] in r.payments;
    }
    TimeoutFound(cfg, s, r);
    var s' := Step(cfg, s, Call(r));
    var node := NodeFor(r);
    if node in s.rows {
      assert Settled(s', node);
    } else {
      assert s'.rows == s.rows;
    }
  }

  /** Out of time at `before`, a call at a later time dispatches nothing and stays out of time. */
  lemma StaysOutOfTime(cfg: Setting, s: State, e: Event, before: int)
    requires Inv(s) && Enabled(s, e) && OutOfTime(cfg, s, before) && (e.Call? ==> before <= e.r.now)
    ensures OutOfTime(cfg, Step(cfg, s, e), before)
    ensures !Dispatches(cfg, s, e) && Step(cfg, s, e).dispatches == s.dispatches
  {
    if node :| Settled(s, node) {
      assert Live(s.rows[node]);
      if e.Call? {
        LiveRowStopsCall(cfg, s, e.r);
      } else if e.Resolve? {
        assert Live(s.rows[e.node]);
      } else {
        assert Settled(Step(cfg, s, e), node);
      }
    } else if e.Call? {
      var late :| late in s.rows && before - s.rows[late].createdAt > cfg.timeout.value;
      assert s.rows[late] in e.r.payments;
      TimeoutFound(cfg, s, e.r);
      assert ActedOn(e.r.payments).None?;
      if ReachesSend(cfg, s, e.r) {
        var node, s' := NodeFor(e.r), Step(cfg, s, e);
        if node in s.rows {
          assert Settled(s', node);
        } else {
          assert s'.rows == s.rows;
        }
      }
    }
  }

  /** Once a call has timed out, no later call dispatches a payment. */
  lemma {:induction false} NoDispatchAfterTimeout(
      cfg: Setting, states: seq<State>, events: seq<Event>, i: nat, n: nat)
    requires IsRun(cfg, states, events) && ClockAdvances(events) && i < n <= |events|
    requires TimesOut(cfg, states[i], events[i])
    ensures OutOfTime(cfg, states[n], events[i].r.now)
    ensures states[n].dispatches == states[i].dispatches
  {
    hide Step, Inv, OutOfTime, TimesOut;
    RunInv(cfg, states, events, n - 1);
    assert Takes(cfg, states[n - 1], events[n - 1], states[n]);
    if n == i + 1 {
      assert events[i].Call? by { CallTimesOut(cfg, states[i], events[i]); }
      TimingOutIsOutOfTime(cfg, states[i], events[i].r);
    } else {
      NoDispatchAfterTimeout(cfg, states, events, i, n - 1);
      assert events[i].Call? by { CallTimesOut(cfg, states[i], events[i]); }
      StaysOutOfTime(cfg, states[n - 1], events[n - 1], events[i].r.now);
    }
  }

  lemma CallTimesOut(cfg: Setting, s: State, e: Event)
    requires TimesOut(cfg, s, e)
    ensures e.Call?
  {}

  /** No run both accepts a self payment and dispatches a node payment; once accepted, it stays one. */
  lemma SelfPaymentOrDispatch(cfg: Setting, states: seq<State>, events: seq<Event>, n: nat)
    requires IsRun(cfg, states, events) && n <= |events|
    ensures !(states[n].accepted > 0 && states[n].dispatches != [])
    ensures states[n].accepted > 0 && n < |events| && events[n].Call? ==>
              !HandleSelfPayment(events[n].r.payments, cfg.invoice, states[n].reverse, events[n].r.checks).NotSelf?
  {
    RunInv(cfg, states, events, n);
    if n < |events| && events[n].Call? {
      assert Takes(cfg, states[n], events[n], states[n + 1]);
      SnapshotOfNothing(states[n].rows, events[n].r.payments);
    }
  }
}
