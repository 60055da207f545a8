/** What the calls of a run write to the payment rows and answer, stated without the code's own functions. */
module PaymentRecords {
  import opened Wrappers
  import opened PaymentTracker
  import opened PaymentRuns

  /** What a call that found no live row writes and answers. */
  ghost predicate RecordsAttempt(
      rows: Rows, rows': Rows, node: NodeId, now: int, isCln: bool, attempt: Attempt, reply: Reply)
  {
    && node in rows' && rows'.Keys == rows.Keys + {node} && rows'[node].node == node
    && (forall n :: n in rows && n != node ==> rows'[n] == rows[n])
    && rows'[node].createdAt == (if node in rows then rows[node].createdAt else now)
    && (rows'[node].status == Success <==> attempt.Paid?)
    && (rows'[node].status == PermanentFailure <==> attempt.PermanentError?)
    && (rows'[node].status == TemporaryFailure <==> attempt.OtherError? && !isCln)
    && (reply == Response <==> attempt.Paid?)
    && (reply == Waiting <==> attempt.StillPending? || (attempt.OtherError? && isCln))
    && (reply == AttemptFailed <==>
          attempt.LookupThrew? || attempt.PermanentError? || (attempt.OtherError? && !isCln))
  }

  /** The answer on a live row. */
  ghost predicate AnswersFor(row: Row, reply: Reply) {
    && (reply == Waiting <==> row.status == Pending)
    && (reply == SuccessDetails(row) <==> row.status == Success)
    && (reply == FailureDetails(row) <==> row.status == PermanentFailure)
  }

  lemma IdleSendRecords(
      rows: Rows, payments: seq<Row>, node: NodeId, now: int, timeout: Option<int>, isCln: bool, attempt: Attempt)
    requires RowsKeyed(rows) && IsSnapshot(rows, payments) && forall n :: n in rows ==> !Live(rows[n])
    ensures var o := Send(rows, payments, node, now, timeout, isCln, attempt);
            if InvoiceTimedOut(payments, now, timeout) then
              && o.reply == TimedOut && o.rows.Keys == rows.Keys
              && (forall n :: n in rows && n != node ==> o.rows[n] == rows[n])
              && (node in rows ==> o.rows[node] == Row(node, PermanentFailure, rows[node].createdAt))
            else RecordsAttempt(rows, o.rows, node, now, isCln, attempt, o.reply)
  {
    IdleIsNotActedOn(rows, payments);
    hide ActedOn, InvoiceTimedOut, IsSnapshot, SendWithNode, RecordsAttempt;
    AttemptRecords(rows, node, now, isCln, attempt);
    assert node in rows ==> rows[node] == Row(node, TemporaryFailure, rows[node].createdAt);
  }

  lemma AttemptRecords(rows: Rows, node: NodeId, now: int, isCln: bool, attempt: Attempt)
    requires RowsKeyed(rows) && forall n :: n in rows ==> !Live(rows[n])
    ensures var o := SendWithNode(rows, node, now, isCln, attempt);
            RecordsAttempt(rows, o.rows, node, now, isCln, attempt, o.reply)
  {}

  /**
   What a call that gets as far as sending writes and answers, in every run: with a live row nothing and that
   row's state, after the timeout a permanent failure of the chosen node's row, and otherwise the attempt's
   outcome in that row. In particular `create` never finds a row in its way.
   */
  lemma CallRecords(cfg: Setting, states: seq<State>, events: seq<Event>, n: nat)
    requires IsRun(cfg, states, events) && n < |events| && events[n].Call? && ReachesSend(cfg, states[n], events[n].r)
    ensures var (s, r, rows') := (states[n], events[n].r, states[n + 1].rows);
            var (node, reply) := (NodeFor(r), SendFor(cfg, s, r).reply);
            && (forall live :: live in s.rows && Live(s.rows[live]) ==>
                  rows' == s.rows && AnswersFor(s.rows[live], reply))
            && ((forall other :: other in s.rows ==> !Live(s.rows[other])) ==>
                  if InvoiceTimedOut(r.payments, r.now, cfg.timeout) then
                    && reply == TimedOut && rows'.Keys == s.rows.Keys
                    && (forall other :: other in s.rows && other != node ==> rows'[other] == s.rows[other])
                    && (node in s.rows ==> rows'[node] == Row(node, PermanentFailure, s.rows[node].createdAt))
                  else RecordsAttempt(s.rows, rows', node, r.now, r.isCln(node), r.attempt, reply))
  {
    hide InvoiceTimedOut, Inv, RecordsAttempt, NodeFor;
    var s, r := states[n], events[n].r;
    RunInv(cfg, states, events, n);
    assert Takes(cfg, s, events[n], states[n + 1]);
    if live :| live in s.rows && Live(s.rows[live]) {
      LiveReply(cfg, s, r);
    } else {
      InvIsKeyed(s);
      hide Send;
      IdleSendRecords(s.rows, r.payments, NodeFor(r), r.now, cfg.timeout, r.isCln(NodeFor(r)), r.attempt);
    }
  }

  /** A call that a hook, the signer or the CLTV check stops, and that is no self payment, changes nothing. */
  lemma StoppedCallChangesNothing(cfg: Setting, states: seq<State>, events: seq<Event>, n: nat)
    requires IsRun(cfg, states, events) && n < |events| && events[n].Call? && !events[n].r.allowed
    ensures !Dispatches(cfg, states[n], events[n])
    ensures states[n + 1] == states[n].(accepted := states[n + 1].accepted)
  {
    hide Send;
    assert Takes(cfg, states[n], events[n], states[n + 1]);
  }

  lemma InvIsKeyed(s: State)
    requires Inv(s)
    ensures RowsKeyed(s.rows) && OneLive(s.rows)
  {}

  lemma LiveReply(cfg: Setting, s: State, r: Request)
    requires Inv(s) && IsSnapshot(s.rows, r.payments)
    ensures forall live :: live in s.rows && Live(s.rows[live]) ==>
              SendFor(cfg, s, r).rows == s.rows && AnswersFor(s.rows[live], SendFor(cfg, s, r).reply)
  {
    forall live | live in s.rows && Live(s.rows[live])
      ensures ActedOn(r.payments) == Some(s.rows[live])
    {
      assert s.rows[live] in r.payments;
      assert ActedOn(r.payments).Some?;
      var acted := ActedOn(r.payments).value;
      assert acted in r.payments && Live(acted) && s.rows[acted.node] == acted;
    }
  }

  /** Once an attempt was paid, nothing is ever dispatched again. */
  lemma PaidIsFinal(cfg: Setting, states: seq<State>, events: seq<Event>, i: nat, n: nat)
    requires IsRun(cfg, states, events) && i < n <= |events|
    requires Dispatches(cfg, states[i], events[i]) && events[i].r.attempt.Paid?
    ensures states[n].dispatches == states[i].dispatches + [NodeFor(events[i].r)]
    ensures Settled(states[n], NodeFor(events[i].r)) && states[n].rows[NodeFor(events[i].r)].status == Success
  {
    hide Step, Inv, Send, InvoiceTimedOut, NodeFor;
    OneAttemptAtATime(cfg, states, events, i);
    DispatchesIff(cfg, states, events, i);
    CallRecords(cfg, states, events, i);
    DispatchLeavesAttempt(cfg, states, events, i);
    SettledIsForever(cfg, states, events, i + 1, n, NodeFor(events[i].r));
  }

  /** A node tracker's resolution is what its row says afterwards, and changes no other row. */
  lemma ResolveRecords(cfg: Setting, states: seq<State>, events: seq<Event>, n: nat)
    requires IsRun(cfg, states, events) && n < |events| && events[n].Resolve?
    ensures var (rows, node) := (states[n].rows, events[n].node);
            && node in rows && states[n + 1].rows == rows[node := Row(node, events[n].status, rows[node].createdAt)]
            && node !in states[n + 1].tracked && states[n + 1].dispatches == states[n].dispatches
  {
    RunInv(cfg, states, events, n);
    assert Takes(cfg, states[n], events[n], states[n + 1]);
    ResolvedIsUntracked(states[n], events[n].node);
  }

  lemma ResolvedIsUntracked(s: State, node: NodeId)
    requires OneTracked(s)
    ensures node !in s.tracked - multiset{node}
  {
    if node in s.tracked {
      assert s.tracked == multiset{node} + (s.tracked - multiset{node});
    }
  }

  /** The node to pay with: a live row's node if it is available, else the preferred one. */
  lemma NodeForIs(cfg: Setting, states: seq<State>, events: seq<Event>, n: nat)
    requires IsRun(cfg, states, events) && n < |events| && events[n].Call?
    ensures var (s, r) := (states[n], events[n].r);
            && (forall live :: live in s.rows && Live(s.rows[live]) ==>
                  NodeFor(r) == if live in r.available then live else r.preferred)
            && ((forall node :: node in s.rows ==> !Live(s.rows[node])) ==> NodeFor(r) == r.preferred)
  {
    RunInv(cfg, states, events, n);
    var s, r := states[n], events[n].r;
    assert Takes(cfg, s, events[n], states[n + 1]);
    forall live | live in s.rows && Live(s.rows[live])
      ensures NodeFor(r) == if live in r.available then live else r.preferred
    {
      assert s.rows[live] in r.payments;
      var found := FirstLive(r.payments).value;
      assert found in r.payments && s.rows[found.node] == found;
    }
  }

  // Self payments

  /** No node has been tried for the hash, and a reverse swap of ours has it. */
  ghost predicate SelfCandidate(s: State) {
    s.rows == map[] && s.reverse.Some?
  }

  /**
   In every run, `htlc.accepted` is emitted exactly for a new reverse swap with the same invoice, while the
   signer is enabled, the CLTV limit leaves room and the invoice has not expired.
   */
  lemma SelfAcceptedIff(cfg: Setting, states: seq<State>, events: seq<Event>, n: nat)
    requires IsRun(cfg, states, events) && n < |events| && events[n].Call?
    ensures states[n + 1].accepted == states[n].accepted + 1
            <==> var (s, checks) := (states[n], events[n].r.checks);
                 && SelfCandidate(s) && s.reverse.value.invoice == cfg.invoice && s.reverse.value.status == SwapCreated
                 && !checks.signerDisabled && checks.minFinalCltv < checks.cltvLimit && !checks.expired
    ensures states[n + 1].accepted == states[n].accepted || states[n + 1].accepted == states[n].accepted + 1
  {
    hide Send, IsSnapshot, NodeFor;
    assert Takes(cfg, states[n], events[n], states[n + 1]);
    SnapshotIsEmptyIff(states[n].rows, events[n].r.payments);
  }

  lemma SnapshotIsEmptyIff(rows: Rows, payments: seq<Row>)
    requires IsSnapshot(rows, payments)
    ensures payments == [] <==> rows == map[]
  {
    SnapshotOfNothing(rows, payments);
  }

  /** What a self payment answers: the preimage it waited for, or the one the reverse swap already has. */
  lemma SelfPreimage(cfg: Setting, states: seq<State>, events: seq<Event>, n: nat)
    requires IsRun(cfg, states, events) && n < |events| && events[n].Call?
    ensures var (s, r) := (states[n], events[n].r);
            var self := HandleSelfPayment(r.payments, cfg.invoice, s.reverse, r.checks);
            && (self.NotSelf? <==> !SelfCandidate(s))
            && (self.IsSelf? ==>
                  self.preimage == if self.accepted then r.checks.settledInTime else s.reverse.value.preimage)
            && (self.Throws? <==> SelfCandidate(s) && SelfFails(cfg, s.reverse.value, r.checks))
            && (!self.NotSelf? ==> states[n + 1].rows == s.rows && states[n + 1].dispatches == s.dispatches)
  {
    hide Send, IsSnapshot, NodeFor;
    assert Takes(cfg, states[n], events[n], states[n + 1]);
    SnapshotIsEmptyIff(states[n].rows, events[n].r.payments);
  }

  /** A wrong invoice, a refused first attempt, or a reverse swap that failed, or was refunded for good, unpaid. */
  predicate SelfFails(cfg: Setting, reverse: ReverseSwap, checks: SelfChecks) {
    || reverse.invoice != cfg.invoice
    || (reverse.status == SwapCreated
        && (checks.signerDisabled || checks.expired || checks.cltvLimit <= checks.minFinalCltv))
    || (reverse.preimage.None?
        && (reverse.status == TransactionFailed || (reverse.status == TransactionRefunded && checks.refundIsFinal)))
  }
}
