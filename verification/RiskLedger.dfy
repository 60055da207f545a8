/**
 The 0-conf risk ledger of one chain as a concurrent state machine. Everything between two awaits is one
 step: risk is reserved under the chain's lock, the row of an accepted swap is written after the lock was
 released, and a block handler that holds the lock removes rows and gives their risk back.

 `Book` is the shared state that the tracker's code reads and writes; `Ledger` adds the calls in flight and
 counts which calls threw and what happened to the accepted swaps.
 */
module RiskLedger {

  /** Swap ids are only ever compared, so any type with equality does. */
  type SwapId = nat

  datatype Book = Book(risk: int, maxRisk: int, zeroConf: bool, rows: set<SwapId>, emitted: nat)

  /** What looking up the lockup transaction of a pending swap came to. */
  datatype Lookup = Confirmed | Unconfirmed | Failed

  datatype Handler =
    | Idle
    | Checking(todo: seq<SwapId>)
    | Releasing(id: SwapId, todo: seq<SwapId>)
    | Disabling(todo: seq<SwapId>)

  datatype Ledger = Ledger(
    book: Book,
    waiting: multiset<SwapId>,
    storing: multiset<SwapId>,
    handler: Handler,
    thrown: multiset<SwapId>,
    taken: multiset<SwapId>,
    lost: multiset<SwapId>,
    destroyed: multiset<SwapId>)

  datatype Event =
    | Start(id: SwapId)
    | Enter(id: SwapId)
    | Store(id: SwapId, ok: bool)
    | Block(swaps: seq<SwapId>)
    | Look(result: Lookup)
    | Release
    | Emit(ok: bool)
    | Leave

  /** The receiving amount of a swap, which does not change. */
  type Amounts = SwapId -> nat

  // The code between two awaits

  function Max(a: int, b: int): int {
    if a >= b then a else b
  }

  function Reserve(book: Book, amount: nat): (Book, bool) {
    if book.risk + amount <= book.maxRisk then (book.(risk := book.risk + amount), true)
    else (book, false)
  }

  function StoreRow(book: Book, id: SwapId): Book {
    book.(rows := book.rows + {id})
  }

  function DestroyRow(book: Book, id: SwapId): Book {
    book.(rows := book.rows - {id})
  }

  function GiveBack(book: Book, amount: nat): Book {
    book.(risk := Max(book.risk - amount, 0))
  }

  function Disable(book: Book): Book {
    book.(zeroConf := false)
  }

  function Announce(book: Book): Book {
    book.(emitted := book.emitted + 1)
  }

  // Steps

  ghost predicate NoDuplicates(s: seq<SwapId>) {
    forall i, j :: 0 <= i < j < |s| ==> s[i] != s[j]
  }

  ghost predicate Enabled(l: Ledger, e: Event) {
    match e
    case Start(_) => true
    case Enter(id) => id in l.waiting && l.handler.Idle?
    case Store(id, ok) => id in l.storing && (ok ==> id !in l.book.rows)
    case Block(swaps) => l.handler.Idle? && NoDuplicates(swaps) && forall id :: id in swaps ==> id in l.book.rows
    case Look(_) => l.handler.Checking? && l.handler.todo != []
    case Release => l.handler.Releasing?
    case Emit(_) => l.handler.Disabling?
    case Leave => l.handler.Checking? && l.handler.todo == []
  }

  function Step(amount: Amounts, l: Ledger, e: Event): Ledger
    requires Enabled(l, e)
  {
    match e
    case Start(id) =>
      if l.book.zeroConf then l.(waiting := l.waiting + multiset{id}) else l.(thrown := l.thrown + multiset{id})
    case Enter(id) =>
      var (book, ok) := Reserve(l.book, amount(id));
      var entered := l.(book := book, waiting := l.waiting - multiset{id});
      if ok then entered.(storing := l.storing + multiset{id}, taken := l.taken + multiset{id}) else entered
    case Store(id, ok) =>
      var stored := l.(storing := l.storing - multiset{id});
      if ok then stored.(book := StoreRow(l.book, id)) else stored.(lost := l.lost + multiset{id})
    case Block(swaps) => l.(handler := Checking(swaps))
    case Look(result) =>
      var id, rest := l.handler.todo[0], l.handler.todo[1..];
      match result {
        case Unconfirmed => l.(handler := Checking(rest))
        case Confirmed =>
          l.(book := DestroyRow(l.book, id), handler := Releasing(id, rest), destroyed := l.destroyed + multiset{id})
        case Failed =>
          if !l.book.zeroConf then l.(handler := Checking(rest))
          else l.(book := Disable(l.book), handler := Disabling(rest))
      }
    case Release => l.(book := GiveBack(l.book, amount(l.handler.id)), handler := Checking(l.handler.todo))
    case Emit(ok) =>
      if ok then l.(book := Announce(l.book), handler := Checking(l.handler.todo)) else l.(handler := Idle)
    case Leave => l.(handler := Idle)
  }

  /** The ledger after `init` summed up the rows that were already there. */
  ghost function Initial(amount: Amounts, rows: set<SwapId>, maxRisk: int): Ledger {
    Ledger(Book(Sum(amount, multiset(rows)), maxRisk, true, rows, 0),
           multiset{}, multiset{}, Idle, multiset{}, multiset(rows), multiset{}, multiset{})
  }

  ghost predicate Takes(amount: Amounts, l: Ledger, e: Event, l': Ledger) {
    Enabled(l, e) && l' == Step(amount, l, e)
  }

  /** `states` are the states before and after each of `events`. */
  ghost predicate IsExecution(amount: Amounts, states: seq<Ledger>, events: seq<Event>) {
    && |states| == |events| + 1
    && forall i :: 0 <= i < |events| ==> Takes(amount, states[i], events[i], states[i + 1])
  }

  ghost predicate IsRun(amount: Amounts, rows: set<SwapId>, maxRisk: int, states: seq<Ledger>, events: seq<Event>) {
    IsExecution(amount, states, events) && states[0] == Initial(amount, rows, maxRisk)
  }

  // Sums over multisets of swaps

  ghost function Pick(m: multiset<SwapId>): (id: SwapId)
    requires m != multiset{}
    ensures id in m
  {
    var id :| id in m;
    id
  }

  ghost function Sum(amount: Amounts, m: multiset<SwapId>): nat {
    if m == multiset{} then 0
    else amount(Pick(m)) + Sum(amount, m - multiset{Pick(m)})
  }

  lemma {:induction false} SumTake(amount: Amounts, m: multiset<SwapId>, id: SwapId)
    requires id in m
    ensures Sum(amount, m) == amount(id) + Sum(amount, m - multiset{id})
    decreases |m|
  {
    var first := Pick(m);
    assert Sum(amount, m) == amount(first) + Sum(amount, m - multiset{first});
    hide Sum;
    if first != id {
      SumTake(amount, m - multiset{first}, id);
      SumTake(amount, m - multiset{id}, first);
      assert m - multiset{first} - multiset{id} == m - multiset{id} - multiset{first};
    }
  }

  lemma SumEmpty(amount: Amounts)
    ensures Sum(amount, multiset{}) == 0
  {}

  lemma SumAdd(amount: Amounts, m: multiset<SwapId>, id: SwapId)
    ensures Sum(amount, m + multiset{id}) == Sum(amount, m) + amount(id)
  {
    hide Sum;
    SumTake(amount, m + multiset{id}, id);
    assert m + multiset{id} - multiset{id} == m;
  }

  lemma {:induction false} SumUnion(amount: Amounts, a: multiset<SwapId>, b: multiset<SwapId>)
    ensures Sum(amount, a + b) == Sum(amount, a) + Sum(amount, b)
    decreases |b|
  {
    if b == multiset{} {
      assert a + b == a;
    } else {
      hide Sum;
      var id := Pick(b);
      var rest := b - multiset{id};
      SumUnion(amount, a, rest);
      SumAdd(amount, a + rest, id);
      SumAdd(amount, rest, id);
      assert rest + multiset{id} == b;
      assert a + rest + multiset{id} == a + b;
    }
  }

  lemma SumMonotone(amount: Amounts, a: multiset<SwapId>, b: multiset<SwapId>)
    requires a <= b
    ensures Sum(amount, a) <= Sum(amount, b)
  {
    hide Sum;
    SumUnion(amount, a, b - a);
    assert a + (b - a) == b;
  }

  // The invariant

  /** The amount whose row is gone but whose risk is not given back yet. */
  function InRelease(amount: Amounts, l: Ledger): nat {
    if l.handler.Releasing? then amount(l.handler.id) else 0
  }

  /** The risk is accounted for to the last unit, and so is every acceptance. */
  ghost predicate Balanced(amount: Amounts, l: Ledger) {
    && l.book.risk == Sum(amount, multiset(l.book.rows)) + Sum(amount, l.storing) + Sum(amount, l.lost)
                      + InRelease(amount, l)
    && l.taken == multiset(l.book.rows) + l.storing + l.lost + l.destroyed
  }

  ghost predicate HandlerInv(l: Ledger) {
    !l.handler.Idle? ==>
      && NoDuplicates(l.handler.todo)
      && forall id :: id in l.handler.todo ==> id in l.book.rows
  }

  ghost predicate FlagInv(l: Ledger) {
    l.book.emitted + (if l.handler.Disabling? then 1 else 0) <= if l.book.zeroConf then 0 else 1
  }

  ghost predicate Inv(amount: Amounts, l: Ledger) {
    Balanced(amount, l) && HandlerInv(l) && FlagInv(l)
  }

  lemma RowsGrow(rows: set<SwapId>, id: SwapId)
    requires id !in rows
    ensures multiset(rows + {id}) == multiset(rows) + multiset{id}
  {}

  lemma RowsShrink(rows: set<SwapId>, id: SwapId)
    requires id in rows
    ensures multiset(rows) == multiset(rows - {id}) + multiset{id}
  {
    RowsGrow(rows - {id}, id);
    assert rows - {id} + {id} == rows;
  }

  lemma EnterBalances(amount: Amounts, l: Ledger, id: SwapId)
    requires Balanced(amount, l) && Enabled(l, Enter(id))
    ensures Balanced(amount, Step(amount, l, Enter(id)))
  {
    hide Sum;
    SumAdd(amount, l.storing, id);
  }

  lemma StoredBalances(amount: Amounts, l: Ledger, id: SwapId)
    requires Balanced(amount, l) && Enabled(l, Store(id, true))
    ensures Balanced(amount, Step(amount, l, Store(id, true)))
  {
    hide Sum;
    var rest := l.storing - multiset{id};
    assert l.storing == rest + multiset{id};
    SumAdd(amount, rest, id);
    RowsGrow(l.book.rows, id);
    SumAdd(amount, multiset(l.book.rows), id);
  }

  lemma LostBalances(amount: Amounts, l: Ledger, id: SwapId)
    requires Balanced(amount, l) && Enabled(l, Store(id, false))
    ensures Balanced(amount, Step(amount, l, Store(id, false)))
  {
    hide Sum;
    var rest := l.storing - multiset{id};
    assert l.storing == rest + multiset{id};
    SumAdd(amount, rest, id);
    SumAdd(amount, l.lost, id);
  }

  lemma LookBalances(amount: Amounts, l: Ledger, result: Lookup)
    requires Balanced(amount, l) && HandlerInv(l) && Enabled(l, Look(result))
    ensures Balanced(amount, Step(amount, l, Look(result)))
  {
    hide Sum;
    var id := l.handler.todo[0];
    if result.Confirmed? {
      RowsShrink(l.book.rows, id);
      SumAdd(amount, multiset(l.book.rows - {id}), id);
    }
  }

  lemma StepKeepsBalance(amount: Amounts, l: Ledger, e: Event)
    requires Balanced(amount, l) && HandlerInv(l) && Enabled(l, e)
    ensures Balanced(amount, Step(amount, l, e))
  {
    hide Sum;
    match e
    case Start(_) =>
    case Enter(id) => EnterBalances(amount, l, id);
    case Store(id, true) => StoredBalances(amount, l, id);
    case Store(id, false) => LostBalances(amount, l, id);
    case Block(_) =>
    case Look(result) => LookBalances(amount, l, result);
    case Release =>
    case Emit(_) =>
    case Leave =>
  }

  lemma LookKeepsHandler(amount: Amounts, l: Ledger, result: Lookup)
    requires HandlerInv(l) && Enabled(l, Look(result))
    ensures HandlerInv(Step(amount, l, Look(result)))
  {
    var id, rest := l.handler.todo[0], l.handler.todo[1..];
    assert NoDuplicates(rest);
    forall k | k in rest
      ensures k in l.book.rows - {id}
    {
      assert k in l.handler.todo;
    }
  }

  lemma StepKeepsHandler(amount: Amounts, l: Ledger, e: Event)
    requires HandlerInv(l) && Enabled(l, e)
    ensures HandlerInv(Step(amount, l, e))
  {
    if e.Look? {
      LookKeepsHandler(amount, l, e.result);
    }
  }

  lemma StepKeepsFlag(amount: Amounts, l: Ledger, e: Event)
    requires FlagInv(l) && Enabled(l, e)
    ensures FlagInv(Step(amount, l, e))
    ensures Step(amount, l, e).book.maxRisk == l.book.maxRisk
  {}

  lemma {:induction false} RunInv(
      amount: Amounts, rows: set<SwapId>, maxRisk: int, states: seq<Ledger>, events: seq<Event>, n: nat)
    requires IsRun(amount, rows, maxRisk, states, events) && n <= |events|
    ensures Inv(amount, states[n])
    ensures states[n].book.maxRisk == maxRisk
  {
    SumEmpty(amount);
    hide Sum;
    if n == 0 {
      assert multiset(rows) + multiset{} + multiset{} + multiset{} == multiset(rows);
    } else {
      hide Step;
      RunInv(amount, rows, maxRisk, states, events, n - 1);
      assert Takes(amount, states[n - 1], events[n - 1], states[n]);
      StepKeepsBalance(amount, states[n - 1], events[n - 1]);
      StepKeepsHandler(amount, states[n - 1], events[n - 1]);
      StepKeepsFlag(amount, states[n - 1], events[n - 1]);
    }
  }

  // Theorems

  /** The swaps that are pending or accepted but not yet stored, each counted once. */
  ghost function Exposed(l: Ledger): set<SwapId> {
    l.book.rows + set id | id in l.storing
  }

  /** Under every interleaving the exposed amount is covered by the recorded risk. */
  lemma ExposureIsCovered(
      amount: Amounts, rows: set<SwapId>, maxRisk: int, states: seq<Ledger>, events: seq<Event>, n: nat)
    requires IsRun(amount, rows, maxRisk, states, events) && n <= |events|
    ensures Sum(amount, multiset(Exposed(states[n]))) <= states[n].book.risk
  {
    hide Sum;
    var l := states[n];
    RunInv(amount, rows, maxRisk, states, events, n);
    SumUnion(amount, multiset(l.book.rows), l.storing);
    SumMonotone(amount, multiset(Exposed(l)), multiset(l.book.rows) + l.storing);
  }

  /** The recorded risk never exceeds the larger of the limit and what `init` found. */
  lemma {:induction false} RiskIsBounded(
      amount: Amounts, rows: set<SwapId>, maxRisk: int, states: seq<Ledger>, events: seq<Event>, n: nat)
    requires IsRun(amount, rows, maxRisk, states, events) && n <= |events|
    ensures 0 <= states[n].book.risk <= Max(Sum(amount, multiset(rows)), maxRisk)
  {
    hide Sum, Inv, Enabled, Step, Initial;
    if n == 0 {
      InitialRisk(amount, rows, maxRisk);
    } else {
      RiskIsBounded(amount, rows, maxRisk, states, events, n - 1);
      RunInv(amount, rows, maxRisk, states, events, n - 1);
      assert Takes(amount, states[n - 1], events[n - 1], states[n]);
      StepKeepsBound(amount, states[n - 1], events[n - 1], Max(Sum(amount, multiset(rows)), maxRisk));
    }
  }

  lemma InitialRisk(amount: Amounts, rows: set<SwapId>, maxRisk: int)
    ensures Initial(amount, rows, maxRisk).book.risk == Sum(amount, multiset(rows))
  {}

  lemma StepKeepsBound(amount: Amounts, l: Ledger, e: Event, bound: int)
    requires Enabled(l, e) && 0 <= l.book.risk <= bound && l.book.maxRisk <= bound
    ensures 0 <= Step(amount, l, e).book.risk <= bound
  {}

  /** Acceptances of a swap beyond the one that is counted as exposed. */
  ghost function Repeated(l: Ledger): multiset<SwapId> {
    multiset(l.book.rows) + l.storing - multiset(Exposed(l))
  }

  /** The risk is what is exposed, what was accepted again, what was lost and what is being released. */
  lemma RiskSplits(amount: Amounts, l: Ledger)
    requires Balanced(amount, l)
    ensures l.book.risk
         == Sum(amount, multiset(Exposed(l))) + Sum(amount, Repeated(l)) + Sum(amount, l.lost) + InRelease(amount, l)
  {
    hide Sum;
    var all := multiset(l.book.rows) + l.storing;
    SumUnion(amount, multiset(l.book.rows), l.storing);
    SumUnion(amount, multiset(Exposed(l)), Repeated(l));
    assert multiset(Exposed(l)) + Repeated(l) == all;
  }

  lemma {:induction false} SumIsZeroIff(amount: Amounts, m: multiset<SwapId>)
    ensures Sum(amount, m) == 0 <==> forall id :: id in m ==> amount(id) == 0
    decreases |m|
  {
    if m != multiset{} {
      SumIsZeroIff(amount, m - multiset{Pick(m)});
      forall id | id in m
        ensures id == Pick(m) || id in m - multiset{Pick(m)}
      {
      }
    }
  }

  /** The risk is exactly the exposed amount if and only if nothing of value was lost or accepted again. */
  lemma RiskIsExactIff(
      amount: Amounts, rows: set<SwapId>, maxRisk: int, states: seq<Ledger>, events: seq<Event>, n: nat)
    requires IsRun(amount, rows, maxRisk, states, events) && n <= |events|
    ensures states[n].book.risk == Sum(amount, multiset(Exposed(states[n]))) + InRelease(amount, states[n])
            <==> forall id :: id in states[n].lost || id in Repeated(states[n]) ==> amount(id) == 0
  {
    hide Sum, Exposed, Repeated;
    RunInv(amount, rows, maxRisk, states, events, n);
    RiskSplits(amount, states[n]);
    SumIsZeroIff(amount, states[n].lost);
    SumIsZeroIff(amount, Repeated(states[n]));
  }

  lemma TakenOnceIsNotRepeated(amount: Amounts, l: Ledger)
    requires Balanced(amount, l) && forall id :: l.taken[id] <= 1
    ensures Repeated(l) == multiset{}
  {
    hide Sum;
    forall id
      ensures multiset(Exposed(l))[id] == (multiset(l.book.rows) + l.storing)[id]
    {
      assert l.taken[id] <= 1;
    }
  }

  /** If no swap was taken twice and no row was lost, the risk is exactly the exposed amount. */
  lemma RiskIsExact(
      amount: Amounts, rows: set<SwapId>, maxRisk: int, states: seq<Ledger>, events: seq<Event>, n: nat)
    requires IsRun(amount, rows, maxRisk, states, events) && n <= |events|
    requires forall id :: states[n].taken[id] <= 1
    requires states[n].lost == multiset{}
    ensures states[n].book.risk
         == Sum(amount, multiset(Exposed(states[n]))) + InRelease(amount, states[n])
  {
    hide Sum, Exposed, Repeated;
    RunInv(amount, rows, maxRisk, states, events, n);
    TakenOnceIsNotRepeated(amount, states[n]);
    RiskIsExactIff(amount, rows, maxRisk, states, events, n);
  }

  /** The clamp at zero never changes a value, in any run: swaps taken twice and lost rows included. */
  lemma ClampNeverFires(
      amount: Amounts, rows: set<SwapId>, maxRisk: int, states: seq<Ledger>, events: seq<Event>, n: nat)
    requires IsRun(amount, rows, maxRisk, states, events) && n < |events| && events[n].Release?
    ensures states[n].handler.Releasing?
    ensures states[n + 1].book.risk == states[n].book.risk - amount(states[n].handler.id)
  {
    hide Sum;
    RunInv(amount, rows, maxRisk, states, events, n);
    assert Takes(amount, states[n], events[n], states[n + 1]);
  }

  lemma {:induction false} LostGrows(
      amount: Amounts, rows: set<SwapId>, maxRisk: int, states: seq<Ledger>, events: seq<Event>, i: nat, n: nat)
    requires IsRun(amount, rows, maxRisk, states, events) && i <= n <= |events|
    ensures states[i].lost <= states[n].lost
  {
    if i < n {
      LostGrows(amount, rows, maxRisk, states, events, i, n - 1);
      assert Takes(amount, states[n - 1], events[n - 1], states[n]);
    }
  }

  /**
   Lost rows keep their risk forever: the risk never again falls below them, and it is all that remains once
   nothing is pending.
   */
  lemma LostRiskStays(
      amount: Amounts, rows: set<SwapId>, maxRisk: int, states: seq<Ledger>, events: seq<Event>, i: nat, n: nat)
    requires IsRun(amount, rows, maxRisk, states, events) && i <= n <= |events|
    ensures states[i].lost <= states[n].lost
    ensures states[n].book.risk >= Sum(amount, states[i].lost)
    ensures states[n].handler.Idle? && Exposed(states[n]) == {} ==> states[n].book.risk == Sum(amount, states[n].lost)
  {
    hide Sum, Inv;
    LostGrows(amount, rows, maxRisk, states, events, i, n);
    RunInv(amount, rows, maxRisk, states, events, n);
    SumMonotone(amount, states[i].lost, states[n].lost);
    RiskCoversLost(amount, states[n]);
  }

  lemma RiskCoversLost(amount: Amounts, l: Ledger)
    requires Inv(amount, l)
    ensures l.book.risk >= Sum(amount, l.lost)
    ensures l.handler.Idle? && Exposed(l) == {} ==> l.book.risk == Sum(amount, l.lost)
  {
    SumEmpty(amount);
    hide Sum;
    if Exposed(l) == {} {
      assert l.storing == multiset{} by {
        assert forall id :: id in l.storing ==> id in Exposed(l);
      }
      assert multiset(l.book.rows) == multiset{};
    }
  }

  /** So lost rows can shut 0-conf for good: what no longer fits beside them is never accepted again. */
  lemma LostRiskBlocks(
      amount: Amounts, rows: set<SwapId>, maxRisk: int, states: seq<Ledger>, events: seq<Event>, i: nat, n: nat)
    requires IsRun(amount, rows, maxRisk, states, events) && i <= n < |events| && events[n].Enter?
    requires Sum(amount, states[i].lost) + amount(events[n].id) > maxRisk
    ensures states[n + 1].taken == states[n].taken && states[n + 1].book == states[n].book
  {
    hide Sum, Inv;
    LostRiskStays(amount, rows, maxRisk, states, events, i, n);
    RunInv(amount, rows, maxRisk, states, events, n);
    assert Takes(amount, states[n], events[n], states[n + 1]);
  }

  /** An accepted swap whose row could not be written: nothing is exposed and its amount stays recorded. */
  lemma RiskCanLeak(amount: Amounts, a: SwapId, maxRisk: int) returns (states: seq<Ledger>, events: seq<Event>)
    requires amount(a) <= maxRisk
    ensures IsRun(amount, {}, maxRisk, states, events)
    ensures |events| == 3 && states[3].lost == multiset{a} && Exposed(states[3]) == {}
    ensures states[3].book.risk == amount(a)
  {
    SumEmpty(amount);
    hide Sum;
    var none: set<SwapId> := {};
    assert multiset(none) == multiset{};
    var l0 := Initial(amount, none, maxRisk);
    var l1 := l0.(waiting := multiset{a});
    var l2 := l0.(book := l0.book.(risk := amount(a)), storing := multiset{a}, taken := multiset{a});
    var l3 := l2.(storing := multiset{}, lost := multiset{a});
    assert Takes(amount, l0, Start(a), l1);
    assert Takes(amount, l1, Enter(a), l2);
    assert Takes(amount, l2, Store(a, false), l3);
    hide Step, Takes;
    events := [Start(a), Enter(a), Store(a, false)];
    states := [l0, l1, l2, l3];
  }

  lemma DoubleEnters(amount: Amounts, l: Ledger, a: SwapId)
    requires l.handler.Idle? && l.book.zeroConf && l.book.risk == 0 && 2 * amount(a) <= l.book.maxRisk
    requires l.waiting == multiset{} && l.storing == multiset{} && l.taken == multiset{}
    ensures var l1, l2 := l.(waiting := multiset{a}), l.(waiting := multiset{a, a});
            var l3 := l1.(book := l.book.(risk := amount(a)), storing := multiset{a}, taken := multiset{a});
            var twice := l.(book := l.book.(risk := 2 * amount(a)), taken := multiset{a, a});
            && Takes(amount, l, Start(a), l1) && Takes(amount, l1, Start(a), l2)
            && Takes(amount, l2, Enter(a), l3) && Takes(amount, l3, Enter(a), twice.(storing := multiset{a, a}))
  {
    assert multiset{a} + multiset{a} == multiset{a, a};
    assert multiset{a, a} - multiset{a} == multiset{a};
  }

  lemma DoubleStores(amount: Amounts, l: Ledger, a: SwapId)
    requires l.book.rows == {} && l.storing == multiset{a, a} && l.lost == multiset{}
    ensures var stored := l.(book := StoreRow(l.book, a), storing := multiset{a});
            && Takes(amount, l, Store(a, true), stored) && !Enabled(stored, Store(a, true))
            && Takes(amount, stored, Store(a, false), stored.(storing := multiset{}, lost := multiset{a}))
  {
    assert multiset{a, a} - multiset{a} == multiset{a};
  }

  /** A swap accepted twice: its second row cannot be written, and its amount is recorded twice. */
  lemma DoubleAcceptanceLeaks(amount: Amounts, a: SwapId, maxRisk: int)
    returns (states: seq<Ledger>, events: seq<Event>)
    requires 2 * amount(a) <= maxRisk
    ensures IsRun(amount, {}, maxRisk, states, events)
    ensures |events| == 6 && !Enabled(states[5], Store(a, true)) && events[5] == Store(a, false)
    ensures Exposed(states[6]) == {a} && states[6].lost == multiset{a} && states[6].book.risk == 2 * amount(a)
  {
    SumEmpty(amount);
    hide Sum;
    var none: set<SwapId> := {};
    assert multiset(none) == multiset{};
    var l := Initial(amount, none, maxRisk);
    DoubleEnters(amount, l, a);
    var l1, l2 := l.(waiting := multiset{a}), l.(waiting := multiset{a, a});
    var l3 := l1.(book := l.book.(risk := amount(a)), storing := multiset{a}, taken := multiset{a});
    var twice := l.(book := l.book.(risk := 2 * amount(a)), taken := multiset{a, a});
    DoubleStores(amount, twice.(storing := multiset{a, a}), a);
    hide Step, Takes, Enabled;
    var l5 := twice.(book := StoreRow(twice.book, a), storing := multiset{a});
    events := [Start(a), Start(a), Enter(a), Enter(a), Store(a, true), Store(a, false)];
    states := [l, l1, l2, l3, twice.(storing := multiset{a, a}), l5,
               l5.(storing := multiset{}, lost := multiset{a})];
  }

  /** A waiting swap is accepted exactly if the exposure, and what is recorded beyond it, leave room for it. */
  lemma AcceptedIffExposureFits(
      amount: Amounts, rows: set<SwapId>, maxRisk: int, states: seq<Ledger>, events: seq<Event>, n: nat)
    requires IsRun(amount, rows, maxRisk, states, events) && n < |events| && events[n].Enter?
    ensures states[n + 1].storing == states[n].storing + multiset{events[n].id}
            <==> Sum(amount, multiset(Exposed(states[n]))) + Sum(amount, Repeated(states[n]))
                 + Sum(amount, states[n].lost) + amount(events[n].id) <= maxRisk
    ensures (forall id :: states[n].taken[id] <= 1) && states[n].lost == multiset{} ==>
              (states[n + 1].storing == states[n].storing + multiset{events[n].id}
               <==> Sum(amount, multiset(Exposed(states[n]))) + amount(events[n].id) <= maxRisk)
  {
    SumEmpty(amount);
    hide Sum, Exposed, Repeated, Inv, Balanced;
    RunInv(amount, rows, maxRisk, states, events, n);
    BalancedInv(amount, states[n]);
    RiskSplits(amount, states[n]);
    if forall id :: states[n].taken[id] <= 1 {
      TakenOnceIsNotRepeated(amount, states[n]);
    }
    assert Takes(amount, states[n], events[n], states[n + 1]);
    var before, id := states[n].storing, events[n].id;
    assert (before + multiset{id})[id] == before[id] + 1;
  }

  lemma BalancedInv(amount: Amounts, l: Ledger)
    requires Inv(amount, l)
    ensures Balanced(amount, l)
  {}

  // Rows

  /** The event is the confirmed lookup of this swap. */
  ghost predicate Confirms(l: Ledger, e: Event, id: SwapId) {
    e.Look? && e.result.Confirmed? && l.handler.Checking? && l.handler.todo != [] && l.handler.todo[0] == id
  }

  lemma StepLosesRow(amount: Amounts, l: Ledger, e: Event, id: SwapId)
    requires Enabled(l, e) && id in l.book.rows
    ensures id in Step(amount, l, e).book.rows <==> !Confirms(l, e, id)
  {
    if e.Enter? {
      hide Enabled;
    } else {
      hide Reserve;
    }
  }

  lemma StepGainsRow(amount: Amounts, l: Ledger, e: Event, id: SwapId)
    requires Enabled(l, e)
    ensures id !in l.book.rows && id in Step(amount, l, e).book.rows <==> e.Store? && e.ok && e.id == id
  {
    if e.Enter? {
      hide Enabled;
    }
  }

  /** Over every run a swap's row stays exactly as long as no lookup of it was confirmed. */
  lemma {:induction false} RowStaysIff(
      amount: Amounts, rows: set<SwapId>, maxRisk: int, states: seq<Ledger>, events: seq<Event>, i: nat, n: nat,
      id: SwapId)
    requires IsRun(amount, rows, maxRisk, states, events) && i <= n <= |events| && id in states[i].book.rows
    ensures (forall k :: i <= k <= n ==> id in states[k].book.rows)
            <==> forall k :: i <= k < n ==> !Confirms(states[k], events[k], id)
  {
    if i < n {
      hide Step, Initial;
      RowStaysIff(amount, rows, maxRisk, states, events, i, n - 1, id);
      assert Takes(amount, states[n - 1], events[n - 1], states[n]);
      if id in states[n - 1].book.rows {
        StepLosesRow(amount, states[n - 1], events[n - 1], id);
      }
    }
  }

  /** A row that was not there appears exactly when it is stored, which no run does for a swap that has one. */
  lemma RowAppearsIff(
      amount: Amounts, rows: set<SwapId>, maxRisk: int, states: seq<Ledger>, events: seq<Event>, n: nat, id: SwapId)
    requires IsRun(amount, rows, maxRisk, states, events) && n < |events|
    ensures id !in states[n].book.rows && id in states[n + 1].book.rows <==> events[n] == Store(id, true)
  {
    hide Step, Initial;
    assert Takes(amount, states[n], events[n], states[n + 1]);
    StepGainsRow(amount, states[n], events[n], id);
  }

  // The switch

  lemma StepFlag(amount: Amounts, l: Ledger, e: Event)
    requires Enabled(l, e)
    ensures Step(amount, l, e).book.zeroConf <==> l.book.zeroConf && !(e.Look? && e.result.Failed?)
    ensures Step(amount, l, e).book.emitted == l.book.emitted + if e.Emit? && e.ok then 1 else 0
  {
    hide Enabled;
  }

  /** 0-conf is disabled exactly once some lookup has failed, and announced exactly if a reaction completed. */
  lemma {:induction false} DisabledIff(
      amount: Amounts, rows: set<SwapId>, maxRisk: int, states: seq<Ledger>, events: seq<Event>, n: nat)
    requires IsRun(amount, rows, maxRisk, states, events) && n <= |events|
    ensures !states[n].book.zeroConf <==> Look(Failed) in events[..n]
    ensures states[n].book.emitted == if Emit(true) in events[..n] then 1 else 0
  {
    if n > 0 {
      hide Step, Balanced, HandlerInv;
      assert events[..n] == events[..n - 1] + [events[n - 1]];
      DisabledIff(amount, rows, maxRisk, states, events, n - 1);
      RunInv(amount, rows, maxRisk, states, events, n - 1);
      RunInv(amount, rows, maxRisk, states, events, n);
      assert Takes(amount, states[n - 1], events[n - 1], states[n]);
      StepFlag(amount, states[n - 1], events[n - 1]);
    }
  }

  function StartedBy(e: Event): multiset<SwapId> {
    if e.Start? then multiset{e.id} else multiset{}
  }

  /** The calls started among `events`. */
  function Started(events: seq<Event>): multiset<SwapId> {
    if events == [] then multiset{}
    else Started(events[..|events| - 1]) + StartedBy(events[|events| - 1])
  }

  /** Whatever `l'` has accepted or keeps waiting, `l` had accepted or kept waiting. */
  ghost predicate NoNewcomers(l: Ledger, l': Ledger) {
    l'.taken + l'.waiting <= l.taken + l.waiting
  }

  lemma NoNewcomersTrans(a: Ledger, b: Ledger, c: Ledger)
    requires NoNewcomers(a, b) && NoNewcomers(b, c)
    ensures NoNewcomers(a, c)
  {}

  lemma DisabledEnter(amount: Amounts, l: Ledger, id: SwapId)
    requires Enabled(l, Enter(id))
    ensures NoNewcomers(l, Step(amount, l, Enter(id)))
  {
    var l' := Step(amount, l, Enter(id));
    assert l.waiting == l'.waiting + multiset{id};
    assert l'.taken + l'.waiting <= l.taken + multiset{id} + l'.waiting;
  }

  lemma DisabledStep(amount: Amounts, l: Ledger, e: Event)
    requires Enabled(l, e) && !l.book.zeroConf
    ensures !Step(amount, l, e).book.zeroConf
    ensures Step(amount, l, e).thrown == l.thrown + StartedBy(e)
    ensures NoNewcomers(l, Step(amount, l, e))
  {
    hide NoNewcomers;
    if e.Enter? {
      DisabledEnter(amount, l, e.id);
    } else {
      SameCallers(l, Step(amount, l, e));
    }
  }

  lemma SameCallers(l: Ledger, l': Ledger)
    requires l'.taken == l.taken && l'.waiting == l.waiting
    ensures NoNewcomers(l, l')
  {}

  /**
   Disabled stays disabled: every call started afterwards throws, and whatever is accepted afterwards had
   already passed the check.
   */
  lemma {:induction false} DisabledIsForever(
      amount: Amounts, rows: set<SwapId>, maxRisk: int, states: seq<Ledger>, events: seq<Event>, i: nat, n: nat)
    requires IsRun(amount, rows, maxRisk, states, events) && i <= n <= |events|
    requires !states[i].book.zeroConf
    ensures !states[n].book.zeroConf
    ensures states[n].thrown == states[i].thrown + Started(events[i..n])
    ensures NoNewcomers(states[i], states[n])
  {
    hide Step, Initial, Enabled, NoNewcomers, StartedBy;
    if i == n {
      SameCallers(states[i], states[n]);
    } else {
      DisabledIsForever(amount, rows, maxRisk, states, events, i, n - 1);
      assert Takes(amount, states[n - 1], events[n - 1], states[n]);
      DisabledStep(amount, states[n - 1], events[n - 1]);
      NoNewcomersTrans(states[i], states[n - 1], states[n]);
      StartedGrows(events, i, n);
      AddAssoc(states[i].thrown, Started(events[i..n - 1]), StartedBy(events[n - 1]));
    }
  }

  lemma StartedGrows(events: seq<Event>, i: nat, n: nat)
    requires i < n <= |events|
    ensures Started(events[i..n]) == Started(events[i..n - 1]) + StartedBy(events[n - 1])
  {
    hide StartedBy;
    var part := events[i..n];
    assert part[..|part| - 1] == events[i..n - 1] && part[|part| - 1] == events[n - 1];
  }

  lemma AddAssoc(a: multiset<SwapId>, b: multiset<SwapId>, c: multiset<SwapId>)
    ensures a + b + c == a + (b + c)
  {}

  /** The event is emitted at most once, and only after 0-conf was disabled. */
  lemma EmittedAtMostOnce(
      amount: Amounts, rows: set<SwapId>, maxRisk: int, states: seq<Ledger>, events: seq<Event>, n: nat)
    requires IsRun(amount, rows, maxRisk, states, events) && n <= |events|
    ensures states[n].book.emitted <= 1
    ensures states[n].book.emitted == 1 ==> !states[n].book.zeroConf
    ensures forall i, j :: 0 <= i < j < n && events[i] == Emit(true) ==> events[j] != Emit(true)
  {
    RunInv(amount, rows, maxRisk, states, events, n);
    hide Step, Balanced, HandlerInv;
    forall i, j | 0 <= i < j < n && events[i] == Emit(true)
      ensures events[j] != Emit(true)
    {
      DisabledIff(amount, rows, maxRisk, states, events, j);
      assert events[..j][i] == Emit(true);
      RunInv(amount, rows, maxRisk, states, events, j);
      assert Takes(amount, states[j], events[j], states[j + 1]);
    }
  }

  lemma SumSingle(amount: Amounts, id: SwapId)
    ensures Sum(amount, multiset({id})) == amount(id)
  {
    SumTake(amount, multiset({id}), id);
    assert multiset({id}) - multiset{id} == multiset{};
    SumEmpty(amount);
  }

  lemma LateSteps(amount: Amounts, l: Ledger, a: SwapId, b: SwapId)
    requires l.handler.Idle? && l.book.zeroConf && a in l.book.rows && l.waiting == multiset{b}
    ensures var l2 := l.(handler := Checking([a]));
            var l3 := l.(book := Disable(l.book), handler := Disabling([]));
            var l4 := l3.(book := Announce(l3.book), handler := Checking([]));
            && Takes(amount, l, Block([a]), l2)
            && Takes(amount, l2, Look(Failed), l3)
            && Takes(amount, l3, Emit(true), l4)
            && Takes(amount, l4, Leave, l4.(handler := Idle))
  {
    assert [a][1..] == [];
  }

  /** A call that passed the check before 0-conf was disabled can still be accepted afterwards. */
  lemma LateAcceptanceIsPossible(amount: Amounts, a: SwapId, b: SwapId, maxRisk: int)
      returns (states: seq<Ledger>, events: seq<Event>)
    requires amount(a) + amount(b) <= maxRisk
    ensures IsRun(amount, {a}, maxRisk, states, events)
    ensures |events| == 6 && !states[5].book.zeroConf && events[5] == Enter(b) && b in states[6].storing
  {
    SumSingle(amount, a);
    hide Sum;
    var l0 := Initial(amount, {a}, maxRisk);
    var l1 := l0.(waiting := multiset{b});
    var l3 := l1.(book := Disable(l1.book), handler := Disabling([]));
    var l4 := l3.(book := Announce(l3.book), handler := Checking([]));
    var l5 := l4.(handler := Idle);
    var l6 := Step(amount, l5, Enter(b));
    assert Takes(amount, l0, Start(b), l1);
    assert Takes(amount, l5, Enter(b), l6) && b in l6.storing;
    LateSteps(amount, l1, a, b);
    hide Step, Takes;
    events := [Start(b), Block([a]), Look(Failed), Emit(true), Leave, Enter(b)];
    states := [l0, l1, l1.(handler := Checking([a])), l3, l4, l5, l6];
  }
}
