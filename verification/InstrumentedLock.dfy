/**
 The bookkeeping of the instrumented lock around an abstract mutual-exclusion queue. The queue admits a
 waiting task when nobody is inside for its key, and may refuse a waiting task instead (overflow or another
 error before entry). The bookkeeping maps are compared with what the tasks are really doing.
 */
module InstrumentedLock {
  import opened Wrappers

  type TaskId = nat

  datatype Phase = Waiting | Inside | Done | Refused | Overflowed

  /** `since` is when the task entered. */
  datatype Task = Task(key: string, op: string, phase: Phase, since: int)

  datatype HeldEntry = HeldEntry(op: string, since: int)

  datatype Maps = Maps(pending: map<string, nat>, held: map<string, HeldEntry>, rejections: map<string, nat>)

  datatype State = State(tasks: map<TaskId, Task>, maps: Maps)

  datatype Event =
    | Enqueue(t: TaskId, key: string, op: string)
    | Enter(t: TaskId, now: int)
    | Exit(t: TaskId)
    | Refuse(t: TaskId, overflow: bool)

  // The code that updates the maps

  function GetOrZero(m: map<string, nat>, key: string): nat {
    if key in m then m[key] else 0
  }

  function Clamped(x: int): nat {
    if x < 0 then 0 else x
  }

  /** Idle keys are deleted so that dynamic keys do not accumulate. */
  function ChangePending(m: map<string, nat>, key: string, delta: int): map<string, nat> {
    var next := Clamped(GetOrZero(m, key) + delta);
    if next == 0 then m - {key} else m[key := next]
  }

  function OnEnqueue(maps: Maps, key: string): Maps {
    maps.(pending := ChangePending(maps.pending, key, 1))
  }

  function OnEnter(maps: Maps, key: string, op: string, now: int): Maps {
    maps.(pending := ChangePending(maps.pending, key, -1), held := maps.held[key := HeldEntry(op, now)])
  }

  function OnExit(maps: Maps, key: string): Maps {
    maps.(held := maps.held - {key})
  }

  function OnRefuse(maps: Maps, key: string, overflow: bool): Maps {
    var left := maps.(pending := ChangePending(maps.pending, key, -1));
    if overflow then left.(rejections := left.rejections[key := GetOrZero(left.rejections, key) + 1]) else left
  }

  datatype SnapshotEntry =
    SnapshotEntry(name: string, key: string, op: Option<string>, holdAge: int, pending: nat, rejections: nat)

  function SnapshotKeys(maps: Maps): set<string> {
    maps.pending.Keys + maps.held.Keys + maps.rejections.Keys
  }

  /** What the snapshot says about one key of a lock. */
  ghost predicate Shows(entry: SnapshotEntry, name: string, key: string, maps: Maps, now: int) {
    && entry.name == name && entry.key == key
    && (key !in maps.held ==> entry.op == None && entry.holdAge == 0)
    && (key in maps.held ==> entry.op == Some(maps.held[key].op) && entry.holdAge == now - maps.held[key].since)
    && entry.pending == GetOrZero(maps.pending, key)
    && entry.rejections == GetOrZero(maps.rejections, key)
  }

  class Lock {
    const name: string
    var pending: map<string, nat>
    var held: map<string, HeldEntry>
    var rejections: map<string, nat>

    ghost function View(): Maps
      reads this
    {
      Maps(pending, held, rejections)
    }

    constructor (name: string)
      ensures View() == Maps(map[], map[], map[]) && this.name == name
    {
      this.name := name;
      pending, held, rejections := map[], map[], map[];
    }

    method AdjustPending(key: string, delta: int)
      modifies this`pending
      ensures pending == ChangePending(old(pending), key, delta)
    {
      var next := (if key in pending then pending[key] else 0) + delta;
      if next < 0 {
        next := 0;
      }
      if next == 0 {
        pending := pending - {key};
      } else {
        pending := pending[key := next];
      }
    }

    method TaskEnqueued(key: string)
      modifies this
      ensures View() == OnEnqueue(old(View()), key)
    {
      AdjustPending(key, 1);
    }

    method TaskEntered(key: string, op: string, now: int)
      modifies this
      ensures View() == OnEnter(old(View()), key, op, now)
    {
      AdjustPending(key, -1);
      held := held[key := HeldEntry(op, now)];
    }

    method TaskExited(key: string)
      modifies this
      ensures View() == OnExit(old(View()), key)
    {
      held := held - {key};
    }

    method TaskRefused(key: string, overflow: bool)
      modifies this
      ensures View() == OnRefuse(old(View()), key, overflow)
    {
      AdjustPending(key, -1);
      if overflow {
        rejections := rejections[key := (if key in rejections then rejections[key] else 0) + 1];
      }
    }

    /** One entry for every key that is waited for, held, or was ever refused for overflow. */
    method Snapshot(now: int) returns (entries: map<string, SnapshotEntry>)
      ensures entries.Keys == SnapshotKeys(View())
      ensures forall key :: key in entries ==> Shows(entries[key], name, key, View(), now)
    {
      entries := map[];
      var keys := pending.Keys + held.Keys + rejections.Keys;
      while keys != {}
        invariant keys <= SnapshotKeys(View())
        invariant entries.Keys == SnapshotKeys(View()) - keys
        invariant forall key :: key in entries ==> Shows(entries[key], name, key, View(), now)
        decreases keys
      {
        var key :| key in keys;
        keys := keys - {key};
        entries := entries[key := SnapshotEntry(name, key, if key in held then Some(held[key].op) else None,
                                                if key in held then now - held[key].since else 0,
                                                GetOrZero(pending, key), GetOrZero(rejections, key))];
      }
    }
  }

  /** The entries of all registered locks, for each lock by its keys. */
  method SnapshotAll(instances: set<Lock>, now: int) returns (entries: map<Lock, map<string, SnapshotEntry>>)
    ensures entries.Keys == instances
    ensures forall lock :: lock in instances ==> entries[lock].Keys == SnapshotKeys(lock.View())
    ensures forall lock, key :: lock in instances && key in entries[lock] ==>
      Shows(entries[lock][key], lock.name, key, lock.View(), now)
  {
    entries := map[];
    var todo := instances;
    while todo != {}
      invariant todo <= instances && entries.Keys == instances - todo
      invariant forall lock :: lock in entries ==> entries[lock].Keys == SnapshotKeys(lock.View())
      invariant forall lock, key :: lock in entries && key in entries[lock] ==>
        Shows(entries[lock][key], lock.name, key, lock.View(), now)
      decreases todo
    {
      var lock :| lock in todo;
      todo := todo - {lock};
      var shown := lock.Snapshot(now);
      entries := entries[lock := shown];
    }
  }

  // The queue and its tasks

  ghost function InPhase(s: State, key: string, phase: Phase): set<TaskId> {
    set t | t in s.tasks && s.tasks[t].key == key && s.tasks[t].phase == phase
  }

  ghost predicate Enabled(s: State, e: Event) {
    match e
    case Enqueue(t, _, _) => t !in s.tasks
    case Enter(t, _) => t in s.tasks && s.tasks[t].phase == Waiting && InPhase(s, s.tasks[t].key, Inside) == {}
    case Exit(t) => t in s.tasks && s.tasks[t].phase == Inside
    case Refuse(t, _) => t in s.tasks && s.tasks[t].phase == Waiting
  }

  function Move(s: State, t: TaskId, phase: Phase, maps: Maps): State
    requires t in s.tasks
  {
    State(s.tasks[t := s.tasks[t].(phase := phase)], maps)
  }

  function Step(s: State, e: Event): State
    requires Enabled(s, e)
  {
    match e
    case Enqueue(t, key, op) => State(s.tasks[t := Task(key, op, Waiting, 0)], OnEnqueue(s.maps, key))
    case Enter(t, now) =>
      var entered := s.(tasks := s.tasks[t := s.tasks[t].(since := now)]);
      Move(entered, t, Inside, OnEnter(s.maps, s.tasks[t].key, s.tasks[t].op, now))
    case Exit(t) => Move(s, t, Done, OnExit(s.maps, s.tasks[t].key))
    case Refuse(t, overflow) =>
      Move(s, t, if overflow then Overflowed else Refused, OnRefuse(s.maps, s.tasks[t].key, overflow))
  }

  ghost predicate IsRun(states: seq<State>, events: seq<Event>) {
    && |states| == |events| + 1
    && states[0] == State(map[], Maps(map[], map[], map[]))
    && forall i :: 0 <= i < |events| ==> Enabled(states[i], events[i]) && states[i + 1] == Step(states[i], events[i])
  }

  // What the maps say

  ghost predicate PendingIsExact(s: State, key: string) {
    && GetOrZero(s.maps.pending, key) == |InPhase(s, key, Waiting)|
    && (key in s.maps.pending <==> InPhase(s, key, Waiting) != {})
  }

  ghost predicate HeldIsExact(s: State, key: string) {
    if key in s.maps.held
    then exists t :: InPhase(s, key, Inside) == {t} && HeldEntry(s.tasks[t].op, s.tasks[t].since) == s.maps.held[key]
    else InPhase(s, key, Inside) == {}
  }

  ghost predicate RejectionsAreExact(s: State, key: string) {
    GetOrZero(s.maps.rejections, key) == |InPhase(s, key, Overflowed)|
  }

  ghost predicate Exact(s: State) {
    forall key :: PendingIsExact(s, key) && HeldIsExact(s, key) && RejectionsAreExact(s, key)
  }

  /** How one task's change of phase moves it between the sets. */
  lemma MovedSets(s: State, s': State, t: TaskId, key: string, phase: Phase)
    requires t in s'.tasks && s'.tasks == s.tasks[t := s'.tasks[t]]
    requires t in s.tasks ==> s.tasks[t].key == s'.tasks[t].key
    ensures InPhase(s', key, phase)
         == if s'.tasks[t].key == key && s'.tasks[t].phase == phase then InPhase(s, key, phase) + {t}
            else InPhase(s, key, phase) - {t}
    ensures t in InPhase(s, key, phase) <==> t in s.tasks && s.tasks[t].key == key && s.tasks[t].phase == phase
  {}

  function KeyOf(s: State, e: Event): string
    requires e.Enqueue? || e.t in s.tasks
  {
    if e.Enqueue? then e.key else s.tasks[e.t].key
  }

  function Delta(e: Event): int {
    if e.Enqueue? then 1 else if e.Exit? then 0 else -1
  }

  /** How an event changes the number of tasks waiting for a key. */
  lemma WaitingCount(s: State, e: Event, key: string)
    requires Enabled(s, e)
    ensures |InPhase(Step(s, e), key, Waiting)|
         == |InPhase(s, key, Waiting)| + if KeyOf(s, e) == key then Delta(e) else 0
  {
    MovedSets(s, Step(s, e), e.t, key, Waiting);
    var waiting, waiting' := InPhase(s, key, Waiting), InPhase(Step(s, e), key, Waiting);
    if e.t in waiting && KeyOf(s, e) == key && !e.Exit? {
      assert waiting' == waiting - {e.t};
    } else if e.Enqueue? && e.key == key {
      assert e.t !in waiting && waiting' == waiting + {e.t};
    } else {
      assert waiting' == waiting;
    }
  }

  lemma ChangeTracks(m: map<string, nat>, changed: string, delta: int, key: string, count: nat, count': nat)
    requires GetOrZero(m, key) == count && (key in m <==> count > 0)
    requires count' == count + if changed == key then delta else 0
    ensures var m' := ChangePending(m, changed, delta);
            GetOrZero(m', key) == count' && (key in m' <==> count' > 0)
  {}

  lemma StepKeepsPending(s: State, e: Event, key: string)
    requires Enabled(s, e) && PendingIsExact(s, key)
    ensures PendingIsExact(Step(s, e), key)
  {
    WaitingCount(s, e, key);
    ChangeTracks(s.maps.pending, KeyOf(s, e), Delta(e), key,
                 |InPhase(s, key, Waiting)|, |InPhase(Step(s, e), key, Waiting)|);
    hide InPhase, ChangePending;
  }

  lemma StepKeepsRejections(s: State, e: Event, key: string)
    requires Enabled(s, e) && RejectionsAreExact(s, key)
    ensures RejectionsAreExact(Step(s, e), key)
  {
    var s' := Step(s, e);
    MovedSets(s, s', e.t, key, Overflowed);
    var over, over' := InPhase(s, key, Overflowed), InPhase(s', key, Overflowed);
    if e.Refuse? && e.overflow && s.tasks[e.t].key == key {
      assert e.t !in over && over' == over + {e.t};
    } else {
      assert over' == over;
    }
  }

  lemma StepKeepsHeld(s: State, e: Event, key: string)
    requires Enabled(s, e) && HeldIsExact(s, key)
    ensures HeldIsExact(Step(s, e), key)
  {
    var s' := Step(s, e);
    MovedSets(s, s', e.t, key, Inside);
    var inside, inside' := InPhase(s, key, Inside), InPhase(s', key, Inside);
    if s'.tasks[e.t].key == key && e.Enter? {
      assert inside' == {e.t};
    } else if s'.tasks[e.t].key == key && e.Exit? {
      var t :| inside == {t};
      assert e.t in inside;
      assert inside' == {};
    } else {
      assert e.t !in inside;
      assert inside' == inside;
      if key in s.maps.held {
        var t :| inside == {t} && HeldEntry(s.tasks[t].op, s.tasks[t].since) == s.maps.held[key];
        assert t in inside;
        assert t != e.t;
        assert inside' == {t} && HeldEntry(s'.tasks[t].op, s'.tasks[t].since) == s'.maps.held[key];
      }
    }
  }

  /**
   In every state of every run, and for every key: the pending count is the number of tasks that were
   enqueued and neither entered nor refused, the key is absent exactly when that is zero, the key is held
   exactly while one task is inside, under that task's operation and entry time, and the rejection count is
   the number of tasks refused for overflow.
   */
  lemma {:induction false} MapsAreExact(states: seq<State>, events: seq<Event>, n: nat)
    requires IsRun(states, events) && n <= |events|
    ensures Exact(states[n])
  {
    if n == 0 {
      forall key
        ensures PendingIsExact(states[0], key) && HeldIsExact(states[0], key) && RejectionsAreExact(states[0], key)
      {
        assert InPhase(states[0], key, Waiting) == {} && InPhase(states[0], key, Inside) == {};
        assert InPhase(states[0], key, Overflowed) == {};
      }
    } else {
      MapsAreExact(states, events, n - 1);
      var s, e := states[n - 1], events[n - 1];
      assert Enabled(s, e) && states[n] == Step(s, e);
      forall key
        ensures PendingIsExact(states[n], key) && HeldIsExact(states[n], key) && RejectionsAreExact(states[n], key)
      {
        assert PendingIsExact(s, key) && HeldIsExact(s, key) && RejectionsAreExact(s, key);
        StepKeepsRejections(s, e, key);
        StepKeepsPending(s, e, key);
        StepKeepsHeld(s, e, key);
      }
    }
  }

  /** The clamp at zero never changes a value: whoever decrements is itself counted. */
  lemma ClampNeverChanges(states: seq<State>, events: seq<Event>, n: nat)
    requires IsRun(states, events) && n < |events| && (events[n].Enter? || events[n].Refuse?)
    ensures events[n].t in states[n].tasks
    ensures GetOrZero(states[n].maps.pending, states[n].tasks[events[n].t].key) >= 1
  {
    var s, e := states[n], events[n];
    MapsAreExact(states, events, n);
    assert Enabled(s, e);
    var key := s.tasks[e.t].key;
    assert PendingIsExact(s, key);
    assert e.t in InPhase(s, key, Waiting);
  }
}
