/**
 The lockup transaction tracker: per-chain maps that the tracker updates in place, and the database table of
 pending rows. Each method is one uninterrupted piece of the original (or, for the block handler, its whole
 loop without interference); `View` is the chain's book, on which the ledger's steps are defined.
 */
module LockupTracker {
  import opened Wrappers
  import opened RiskLedger

  datatype AcceptError = SymbolNotTracked | ZeroConfNotAccepted

  function GetOrZero(m: map<string, int>, k: string): int {
    if k in m then m[k] else 0
  }

  function RowsOf(pending: map<SwapId, string>, symbol: string): set<SwapId> {
    set id | id in pending && pending[id] == symbol
  }

  function Count(events: seq<string>, symbol: string): nat {
    if events == [] then 0
    else Count(events[..|events| - 1], symbol) + if events[|events| - 1] == symbol then 1 else 0
  }

  /** One pending swap in the block handler; the flag is false when the handler aborts. */
  function CheckOne(book: Book, amount: nat, id: SwapId, result: Lookup, rateUpdated: bool): (Book, bool) {
    match result
    case Unconfirmed => (book, true)
    case Confirmed => (GiveBack(DestroyRow(book, id), amount), true)
    case Failed =>
      if !book.zeroConf then (book, true)
      else if rateUpdated then (Announce(Disable(book)), true)
      else (Disable(book), false)
  }

  /** The whole handler: `results` are the lookups, `rates` whether the rate update went through. */
  function CheckAll(book: Book, amount: Amounts, swaps: seq<SwapId>, results: seq<Lookup>, rates: seq<bool>): Book
    requires |swaps| == |results| == |rates|
    decreases |swaps|
  {
    if swaps == [] then book
    else
      var (next, go) := CheckOne(book, amount(swaps[0]), swaps[0], results[0], rates[0]);
      if go then CheckAll(next, amount, swaps[1..], results[1..], rates[1..]) else next
  }

  class LockupTransactionTracker {
    const amount: Amounts
    var risk: map<string, int>
    var maxRisk: map<string, int>
    var zeroConfAccepted: map<string, bool>
    var pending: map<SwapId, string>
    var disabledEvents: seq<string>

    ghost function View(symbol: string): Book
      reads this
    {
      Book(GetOrZero(risk, symbol), GetOrZero(maxRisk, symbol),
           symbol in zeroConfAccepted && zeroConfAccepted[symbol],
           RowsOf(pending, symbol),
           Count(disabledEvents, symbol))
    }

    constructor (amount: Amounts, tracked: set<string>, limits: map<string, int>, stored: map<SwapId, string>)
      ensures this.amount == amount && pending == stored
      ensures forall s :: s in tracked ==>
        View(s) == Book(0, GetOrZero(limits, s), true, RowsOf(stored, s), 0)
    {
      this.amount := amount;
      risk := map[];
      maxRisk := limits;
      zeroConfAccepted := map s | s in tracked :: true;
      pending := stored;
      disabledEvents := [];
    }

    /** Sums up the pending swaps of one chain. */
    method Init(symbol: string, swaps: seq<SwapId>)
      requires multiset(swaps) == multiset(View(symbol).rows)
      modifies this`risk
      ensures var before := old(View(symbol));
              View(symbol) == before.(risk := before.risk + Sum(amount, multiset(before.rows)))
      ensures forall s :: s != symbol ==> View(s) == old(View(s))
    {
      hide Sum;
      SumEmpty(amount);
      ghost var before := GetOrZero(risk, symbol);
      for i := 0 to |swaps|
        invariant GetOrZero(risk, symbol) == before + Sum(amount, multiset(swaps[..i]))
        invariant forall s :: s != symbol ==> GetOrZero(risk, s) == GetOrZero(old(risk), s)
      {
        assert multiset(swaps[..i + 1]) == multiset(swaps[..i]) + multiset{swaps[i]} by {
          assert swaps[..i + 1] == swaps[..i] + [swaps[i]];
        }
        SumAdd(amount, multiset(swaps[..i]), swaps[i]);
        risk := risk[symbol := GetOrZero(risk, symbol) + amount(swaps[i])];
      }
      assert swaps[..|swaps|] == swaps;
    }

    /** The checks at the start of `isAcceptable`, before the lock is requested. */
    method StartAcceptance(symbol: string) returns (r: Result<(), AcceptError>)
      ensures r.Ok? <==> View(symbol).zeroConf
      ensures r == Err(SymbolNotTracked) <==> symbol !in zeroConfAccepted
    {
      if symbol !in zeroConfAccepted {
        return Err(SymbolNotTracked);
      }
      if !zeroConfAccepted[symbol] {
        return Err(ZeroConfNotAccepted);
      }
      return Ok(());
    }

    /** The callback of `isAcceptable` that runs under the lock. */
    method ReserveRisk(symbol: string, id: SwapId) returns (ok: bool)
      modifies this`risk
      ensures (View(symbol), ok) == Reserve(old(View(symbol)), amount(id))
      ensures forall s :: s != symbol ==> View(s) == old(View(s))
    {
      var sum := GetOrZero(risk, symbol) + amount(id);
      ok := sum <= GetOrZero(maxRisk, symbol);
      if ok {
        risk := risk[symbol := sum];
      }
    }

    /** Writing the row of an accepted swap; the swap id is the table's primary key. */
    method CreateRow(symbol: string, id: SwapId) returns (ok: bool)
      modifies this`pending
      ensures ok <==> id !in old(pending)
      ensures View(symbol) == if ok then StoreRow(old(View(symbol)), id) else old(View(symbol))
      ensures forall s :: s != symbol ==> View(s) == old(View(s))
    {
      ok := id !in pending;
      if ok {
        pending := pending[id := symbol];
      }
    }

    /** Destroying a confirmed swap's row, then giving its risk back. */
    method ReleaseConfirmed(symbol: string, id: SwapId)
      requires id in pending && pending[id] == symbol
      modifies this`pending, this`risk
      ensures View(symbol) == GiveBack(DestroyRow(old(View(symbol)), id), amount(id))
      ensures pending == old(pending) - {id}
      ensures forall s :: s != symbol ==> View(s) == old(View(s))
    {
      pending := pending - {id};
      risk := risk[symbol := Max(GetOrZero(risk, symbol) - amount(id), 0)];
    }

    /** Reacting to a failed lookup; false when the rate update threw. */
    method HandleFailure(symbol: string, rateUpdated: bool) returns (go: bool)
      requires symbol in zeroConfAccepted
      modifies this`zeroConfAccepted, this`disabledEvents
      ensures (View(symbol), go) == CheckOne(old(View(symbol)), 0, 0, Failed, rateUpdated)
      ensures symbol in zeroConfAccepted
      ensures forall s :: s != symbol ==> View(s) == old(View(s))
    {
      if zeroConfAccepted[symbol] == false {
        return true;
      }
      zeroConfAccepted := zeroConfAccepted[symbol := false];
      if !rateUpdated {
        return false;
      }
      disabledEvents := disabledEvents + [symbol];
      return true;
    }

    /** The block handler's loop over the pending swaps. */
    method CheckPendingLockups(symbol: string, swaps: seq<SwapId>, results: seq<Lookup>, rates: seq<bool>)
      requires symbol in zeroConfAccepted && |swaps| == |results| == |rates| && NoDuplicates(swaps)
      requires forall id :: id in swaps ==> id in pending && pending[id] == symbol
      modifies this`risk, this`zeroConfAccepted, this`pending, this`disabledEvents
      ensures View(symbol) == CheckAll(old(View(symbol)), amount, swaps, results, rates)
      ensures forall s :: s != symbol ==> View(s) == old(View(s))
    {
      for i := 0 to |swaps|
        invariant symbol in zeroConfAccepted
        invariant forall k :: i <= k < |swaps| ==> swaps[k] in pending && pending[swaps[k]] == symbol
        invariant CheckAll(old(View(symbol)), amount, swaps, results, rates)
               == CheckAll(View(symbol), amount, swaps[i..], results[i..], rates[i..])
        invariant forall s :: s != symbol ==> View(s) == old(View(s))
      {
        assert swaps[i..][1..] == swaps[i + 1..];
        assert results[i..][1..] == results[i + 1..] && rates[i..][1..] == rates[i + 1..];
        match results[i] {
          case Unconfirmed =>
          case Confirmed =>
            ReleaseConfirmed(symbol, swaps[i]);
          case Failed =>
            var go := HandleFailure(symbol, rates[i]);
            if !go {
              return;
            }
        }
      }
    }
  }

  ghost predicate FirstFailure(results: seq<Lookup>, i: nat)
    requires i < |results|
  {
    results[i].Failed? && forall j :: 0 <= j < i ==> !results[j].Failed?
  }

  /** The handler gets to position k unless, on an enabled chain, the rate update of the first failure threw. */
  ghost predicate Reaches(enabled: bool, results: seq<Lookup>, rates: seq<bool>, k: nat)
    requires |results| == |rates| && k <= |results|
  {
    enabled ==> forall i: nat :: i < k && FirstFailure(results, i) ==> rates[i]
  }

  lemma ReachesDescends(enabled: bool, results: seq<Lookup>, rates: seq<bool>, k: nat)
    requires |results| == |rates| && k < |results|
    ensures Reaches(enabled, results, rates, k + 1)
            <==> && !(enabled && results[0].Failed? && !rates[0])
                 && Reaches(enabled && !results[0].Failed?, results[1..], rates[1..], k)
  {
    forall i: nat | i < k
      ensures FirstFailure(results, i + 1) <==> !results[0].Failed? && FirstFailure(results[1..], i)
    {
      FailureDescends(results, i);
    }
    if enabled && Reaches(enabled, results, rates, k + 1) {
      assert FirstFailure(results, 0) <==> results[0].Failed?;
    }
    if enabled && !results[0].Failed? && Reaches(enabled, results[1..], rates[1..], k) {
      forall i: nat | i < k + 1 && FirstFailure(results, i)
        ensures rates[i]
      {
        assert FirstFailure(results[1..], i - 1);
      }
    }
  }

  lemma FailureDescends(results: seq<Lookup>, i: nat)
    requires i + 1 < |results|
    ensures FirstFailure(results, i + 1) <==> !results[0].Failed? && FirstFailure(results[1..], i)
  {
    var later := results[1..];
    if !results[0].Failed? && FirstFailure(later, i) {
      forall j | 0 <= j < i + 1
        ensures !results[j].Failed?
      {
        assert j > 0 ==> results[j] == later[j - 1];
      }
    }
    assert forall j :: 0 <= j < i ==> later[j] == results[j + 1];
  }

  /** Some lookup of the swap that the handler got to was confirmed. */
  ghost predicate FoundConfirmed(
      enabled: bool, swaps: seq<SwapId>, results: seq<Lookup>, rates: seq<bool>, id: SwapId)
    requires |swaps| == |results| == |rates|
  {
    exists k: nat :: k < |swaps| && swaps[k] == id && results[k].Confirmed? && Reaches(enabled, results, rates, k)
  }

  lemma FoundDescends(enabled: bool, swaps: seq<SwapId>, results: seq<Lookup>, rates: seq<bool>, id: SwapId)
    requires |swaps| == |results| == |rates| && swaps != []
    ensures FoundConfirmed(enabled, swaps, results, rates, id)
            <==> (swaps[0] == id && results[0].Confirmed?)
                 || (&& !(enabled && results[0].Failed? && !rates[0])
                     && FoundConfirmed(enabled && !results[0].Failed?, swaps[1..], results[1..], rates[1..], id))
  {
    var rest := swaps[1..];
    assert Reaches(enabled, results, rates, 0);
    if FoundConfirmed(enabled, swaps, results, rates, id) {
      var k: nat :| k < |swaps| && swaps[k] == id && results[k].Confirmed? && Reaches(enabled, results, rates, k);
      if k > 0 {
        ReachesDescends(enabled, results, rates, k - 1);
        assert rest[k - 1] == id && results[1..][k - 1].Confirmed?;
      }
    }
    if FoundConfirmed(enabled && !results[0].Failed?, rest, results[1..], rates[1..], id) {
      var k: nat :| k < |rest| && rest[k] == id && results[1..][k].Confirmed?
                    && Reaches(enabled && !results[0].Failed?, results[1..], rates[1..], k);
      ReachesDescends(enabled, results, rates, k);
      assert swaps[k + 1] == id && results[k + 1].Confirmed?;
    }
  }

  /** The handler removes exactly the rows of which it found a lookup confirmed. */
  lemma {:induction false} HandlerRemovesConfirmed(
      book: Book, amount: Amounts, swaps: seq<SwapId>, results: seq<Lookup>, rates: seq<bool>, id: SwapId)
    requires |swaps| == |results| == |rates|
    ensures id in CheckAll(book, amount, swaps, results, rates).rows
            <==> id in book.rows && !FoundConfirmed(book.zeroConf, swaps, results, rates, id)
    decreases |swaps|
  {
    if swaps != [] {
      FoundDescends(book.zeroConf, swaps, results, rates, id);
      var (next, go) := CheckOne(book, amount(swaps[0]), swaps[0], results[0], rates[0]);
      if go {
        HandlerRemovesConfirmed(next, amount, swaps[1..], results[1..], rates[1..], id);
      }
    }
  }

  /** The ledger's steps for one pending swap; afterwards the handler goes on or, if it aborts, is idle. */
  lemma OneSwapSteps(
      amount: Amounts, l: Ledger, swaps: seq<SwapId>, result: Lookup, rateUpdated: bool)
    returns (states: seq<Ledger>, events: seq<Event>)
    requires swaps != [] && l.handler == Checking(swaps)
    ensures IsExecution(amount, states, events) && states[0] == l
    ensures var next := states[|events|];
            var (book, go) := CheckOne(l.book, amount(swaps[0]), swaps[0], result, rateUpdated);
            && next.book == book && next.handler == (if go then Checking(swaps[1..]) else Idle)
            && next.waiting == l.waiting && next.storing == l.storing
  {
    var next := Step(amount, l, Look(result));
    states, events := [l, next], [Look(result)];
    if next.handler.Releasing? {
      states, events := states + [Step(amount, next, Release)], events + [Release];
    } else if next.handler.Disabling? {
      states, events := states + [Step(amount, next, Emit(rateUpdated))], events + [Emit(rateUpdated)];
    }
  }

  lemma ExecutionsJoin(
      amount: Amounts, states: seq<Ledger>, events: seq<Event>, states': seq<Ledger>, events': seq<Event>)
    requires IsExecution(amount, states, events) && IsExecution(amount, states', events')
    requires states[|events|] == states'[0]
    ensures IsExecution(amount, states + states'[1..], events + events')
    ensures (states + states'[1..])[|events + events'|] == states'[|events'|]
  {
    hide Takes;
    var all, both := states + states'[1..], events + events';
    forall i | 0 <= i < |both|
      ensures Takes(amount, all[i], both[i], all[i + 1])
    {
      if i < |events| {
        assert Takes(amount, states[i], events[i], states[i + 1]);
      } else {
        var j := i - |events|;
        assert Takes(amount, states'[j], events'[j], states'[j + 1]);
      }
    }
  }

  /** Without interference, the ledger's handler steps do what the loop does, whatever else is in flight. */
  lemma {:induction false} HandlerStepsMatchLoop(
      amount: Amounts, l: Ledger, swaps: seq<SwapId>, results: seq<Lookup>, rates: seq<bool>)
    returns (states: seq<Ledger>, events: seq<Event>)
    requires |swaps| == |results| == |rates| && l.handler == Checking(swaps)
    ensures IsExecution(amount, states, events) && states[0] == l
    ensures var last := states[|events|];
            && last.handler == Idle && last.waiting == l.waiting && last.storing == l.storing
            && last.book == CheckAll(l.book, amount, swaps, results, rates)
    decreases |swaps|
  {
    if swaps == [] {
      return [l, l.(handler := Idle)], [Leave];
    }
    hide IsExecution, CheckOne;
    states, events := OneSwapSteps(amount, l, swaps, results[0], rates[0]);
    assert |states| == |events| + 1 by { ExecutionLength(amount, states, events); }
    var next := states[|events|];
    if next.handler.Checking? {
      var later, rest := HandlerStepsMatchLoop(amount, next, swaps[1..], results[1..], rates[1..]);
      ExecutionLength(amount, later, rest);
      ExecutionsJoin(amount, states, events, later, rest);
      states, events := states + later[1..], events + rest;
    }
  }

  lemma ExecutionLength(amount: Amounts, states: seq<Ledger>, events: seq<Event>)
    requires IsExecution(amount, states, events)
    ensures |states| == |events| + 1
  {}
}
