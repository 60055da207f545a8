/**
 Paying the invoice of a swap: which node is used, when an attempt is dispatched, and how the payment rows
 of one preimage hash change. The functions are the specification; the class updates its rows in place.
 */
module PaymentTracker {
  import opened Wrappers

  /** Node ids are only ever compared. */
  type NodeId = nat

  datatype Status = Pending | Success | PermanentFailure | TemporaryFailure

  datatype Row = Row(node: NodeId, status: Status, createdAt: int)

  /** The rows of one preimage hash, keyed by node. */
  type Rows = map<NodeId, Row>

  /**
   How the attempt on the node went, once the row was created. An error tells that the call of the node
   failed; `inFlight` is whether the node goes on paying nevertheless, which the backend cannot see.
   */
  datatype Attempt =
    | LookupThrew      // the referral lookup threw before the node was called
    | Paid
    | StillPending     // no answer within the race timeout
    | PermanentError(inFlight: bool)
    | OtherError(inFlight: bool)

  datatype Reply =
    | Waiting
    | SuccessDetails(row: Row)
    | FailureDetails(row: Row)
    | TimedOut
    | RowExists
    | Response
    | AttemptFailed

  /** `tracked` is set if the outcome of the attempt is still awaited. */
  datatype Outcome = Outcome(rows: Rows, dispatched: bool, tracked: bool, reply: Reply)

  // Repository

  /** A new row is pending; a temporarily failed one is retried under its old creation time. */
  function Create(rows: Rows, node: NodeId, now: int): Option<Rows> {
    if node !in rows then Some(rows[node := Row(node, Pending, now)])
    else if rows[node].status != TemporaryFailure then None
    else Some(rows[node := rows[node].(status := Pending)])
  }

  /** Updates the row if there is one. */
  function SetStatus(rows: Rows, node: NodeId, status: Status): Rows {
    if node in rows then rows[node := rows[node].(status := status)] else rows
  }

  // Decisions

  function FirstWith(payments: seq<Row>, status: Status): (r: Option<Row>)
    ensures r.Some? ==> r.value in payments && r.value.status == status
    ensures r.None? <==> forall p :: p in payments ==> p.status != status
  {
    if payments == [] then None
    else if payments[0].status == status then Some(payments[0])
    else FirstWith(payments[1..], status)
  }

  predicate Live(row: Row) {
    row.status != TemporaryFailure
  }

  function FirstLive(payments: seq<Row>): (r: Option<Row>)
    ensures r.Some? ==> r.value in payments && Live(r.value)
    ensures r.None? <==> forall p :: p in payments ==> !Live(p)
  {
    if payments == [] then None
    else if Live(payments[0]) then Some(payments[0])
    else FirstLive(payments[1..])
  }

  function RelevantNode(payments: seq<Row>, preferred: NodeId, available: set<NodeId>): (NodeId, Option<Row>) {
    match FirstLive(payments)
    case None => (preferred, None)
    case Some(row) => (if row.node in available then row.node else preferred, Some(row))
  }

  /** The row `sendPayment` acts on: a pending one before a successful one before a failed one. */
  function ActedOn(payments: seq<Row>): Option<Row> {
    if FirstWith(payments, Pending).Some? then FirstWith(payments, Pending)
    else if FirstWith(payments, Success).Some? then FirstWith(payments, Success)
    else FirstWith(payments, PermanentFailure)
  }

  /** The swap's own timeout in seconds is preferred over the configured one in minutes. */
  function Timeout(swapSeconds: Option<int>, configMinutes: Option<int>): Option<int> {
    match (swapSeconds, configMinutes)
    case (Some(s), _) => Some(s * 1000)
    case (None, Some(m)) => Some(m * 60 * 1000)
    case (None, None) => None
  }

  /** The earliest creation time among the temporarily failed attempts. */
  function Earliest(payments: seq<Row>): Option<int> {
    if payments == [] then None
    else
      var (row, rest) := (payments[0], Earliest(payments[1..]));
      if Live(row) then rest
      else if rest.Some? && rest.value < row.createdAt then rest
      else Some(row.createdAt)
  }

  predicate InvoiceTimedOut(payments: seq<Row>, now: int, timeout: Option<int>) {
    timeout.Some? && Earliest(payments).Some? && now - Earliest(payments).value > timeout.value
  }

  /** The clock has run out on some failed attempt exactly if it has for the earliest. */
  lemma {:induction false} TimedOutIffSomeRow(payments: seq<Row>, now: int, limit: int)
    ensures InvoiceTimedOut(payments, now, Some(limit))
            <==> exists p :: p in payments && !Live(p) && now - p.createdAt > limit
    ensures Earliest(payments).None? <==> forall p :: p in payments ==> Live(p)
  {
    if payments != [] {
      TimedOutIffSomeRow(payments[1..], now, limit);
      var row := payments[0];
      assert row in payments;
      assert forall p :: p in payments <==> p == row || p in payments[1..];
    }
  }

  /** In milliseconds: the swap's own seconds count, and only without them the configured minutes. */
  lemma TimedOutInMilliseconds(
      payments: seq<Row>, now: int, swapSeconds: Option<int>, configMinutes: Option<int>)
    ensures InvoiceTimedOut(payments, now, Timeout(swapSeconds, configMinutes))
            <==> exists p :: p in payments && p.status == TemporaryFailure
                   && ((swapSeconds.Some? && now - p.createdAt > 1000 * swapSeconds.value)
                       || (swapSeconds.None? && configMinutes.Some? && now - p.createdAt > 60000 * configMinutes.value))
  {
    var timeout := Timeout(swapSeconds, configMinutes);
    if timeout.Some? {
      TimedOutIffSomeRow(payments, now, timeout.value);
    }
  }

  function AttemptOutcome(rows: Rows, node: NodeId, isCln: bool, attempt: Attempt): Outcome {
    match attempt
    case LookupThrew => Outcome(rows, false, false, AttemptFailed)
    case Paid => Outcome(SetStatus(rows, node, Success), true, false, Response)
    case StillPending => Outcome(rows, true, true, Waiting)
    case PermanentError(_) => Outcome(SetStatus(rows, node, PermanentFailure), true, false, AttemptFailed)
    case OtherError(_) =>
      if isCln then Outcome(rows, true, true, Waiting)
      else Outcome(SetStatus(rows, node, TemporaryFailure), true, false, AttemptFailed)
  }

  /** A failure is recorded for an attempt that the node goes on with; CLN's are awaited instead. */
  predicate Premature(isCln: bool, attempt: Attempt) {
    match attempt
    case PermanentError(inFlight) => inFlight
    case OtherError(inFlight) => inFlight && !isCln
    case _ => false
  }

  function SendWithNode(rows: Rows, node: NodeId, now: int, isCln: bool, attempt: Attempt): Outcome {
    match Create(rows, node, now)
    case None => Outcome(rows, false, false, RowExists)
    case Some(created) => AttemptOutcome(created, node, isCln, attempt)
  }

  function Send(
      rows: Rows, payments: seq<Row>, node: NodeId, now: int, timeout: Option<int>, isCln: bool, attempt: Attempt)
    : Outcome
  {
    match ActedOn(payments)
    case Some(row) =>
      Outcome(rows, false, false,
              if row.status == Pending then Waiting
              else if row.status == Success then SuccessDetails(row)
              else FailureDetails(row))
    case None =>
      if InvoiceTimedOut(payments, now, timeout)
      then Outcome(SetStatus(rows, node, PermanentFailure), false, false, TimedOut)
      else SendWithNode(rows, node, now, isCln, attempt)
  }

  /** The tracker for one preimage hash; `rows` is the repository, changed in place. */
  class PendingPaymentTracker {
    var rows: Rows
    const configMinutes: Option<int>

    constructor (configMinutes: Option<int>)
      ensures this.configMinutes == configMinutes && rows == map[]
    {
      this.configMinutes := configMinutes;
      rows := map[];
    }

    method SendPayment(
        payments: seq<Row>, node: NodeId, now: int, swapSeconds: Option<int>, isCln: bool, attempt: Attempt)
      returns (reply: Reply, dispatched: bool, tracked: bool)
      modifies this`rows
      ensures var o := Send(old(rows), payments, node, now, Timeout(swapSeconds, configMinutes), isCln, attempt);
              (rows, reply, dispatched, tracked) == (o.rows, o.reply, o.dispatched, o.tracked)
    {
      var statuses := [Pending, Success, PermanentFailure];
      for i := 0 to |statuses|
        invariant forall k :: 0 <= k < i ==> FirstWith(payments, statuses[k]).None?
      {
        assert i >= 1 ==> FirstWith(payments, statuses[0]).None?;
        assert i >= 2 ==> FirstWith(payments, statuses[1]).None?;
        var relevant := FirstWith(payments, statuses[i]);
        if relevant.Some? {
          if statuses[i] == Pending {
            return Waiting, false, false;
          } else if statuses[i] == Success {
            return SuccessDetails(relevant.value), false, false;
          } else {
            return FailureDetails(relevant.value), false, false;
          }
        }
      }
      assert FirstWith(payments, statuses[0]).None? && FirstWith(payments, statuses[1]).None?;
      assert FirstWith(payments, statuses[2]).None?;
      var timedOut := CheckInvoiceTimeout(payments, node, now, swapSeconds);
      if timedOut {
        return TimedOut, false, false;
      }
      reply, dispatched, tracked := SendPaymentWithNode(node, now, isCln, attempt);
    }

    method CheckInvoiceTimeout(payments: seq<Row>, node: NodeId, now: int, swapSeconds: Option<int>)
      returns (timedOut: bool)
      modifies this`rows
      ensures timedOut == InvoiceTimedOut(payments, now, Timeout(swapSeconds, configMinutes))
      ensures rows == if timedOut then SetStatus(old(rows), node, PermanentFailure) else old(rows)
    {
      var timeout := Timeout(swapSeconds, configMinutes);
      var earliest: Option<int> := None;
      var i := |payments|;
      while i > 0
        invariant 0 <= i <= |payments|
        invariant earliest == Earliest(payments[i..])
      {
        i := i - 1;
        assert payments[i..][1..] == payments[i + 1..];
        if payments[i].status == TemporaryFailure {
          if earliest.None? || payments[i].createdAt <= earliest.value {
            earliest := Some(payments[i].createdAt);
          }
        }
      }
      assert payments[0..] == payments;
      if timeout.None? || earliest.None? {
        return false;
      }
      if now - earliest.value > timeout.value {
        if node in rows {
          rows := rows[node := rows[node].(status := PermanentFailure)];
        }
        return true;
      }
      return false;
    }

    method SendPaymentWithNode(node: NodeId, now: int, isCln: bool, attempt: Attempt)
      returns (reply: Reply, dispatched: bool, tracked: bool)
      modifies this`rows
      ensures var o := SendWithNode(old(rows), node, now, isCln, attempt);
              (rows, reply, dispatched, tracked) == (o.rows, o.reply, o.dispatched, o.tracked)
    {
      if node in rows && rows[node].status != TemporaryFailure {
        return RowExists, false, false;
      }
      rows := rows[node := if node in rows then rows[node].(status := Pending) else Row(node, Pending, now)];
      match attempt {
        case LookupThrew =>
          return AttemptFailed, false, false;
        case Paid =>
          rows := rows[node := rows[node].(status := Success)];
          return Response, true, false;
        case StillPending =>
          return Waiting, true, true;
        case PermanentError(_) =>
          rows := rows[node := rows[node].(status := PermanentFailure)];
          return AttemptFailed, true, false;
        case OtherError(_) =>
          if isCln {
            return Waiting, true, true;
          }
          rows := rows[node := rows[node].(status := TemporaryFailure)];
          return AttemptFailed, true, false;
      }
    }
  }
}
