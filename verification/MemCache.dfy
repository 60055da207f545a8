/**
 The in-memory cache: one flat map under composed keys, with lazy eviction on read and a background cleanup.
 It is compared with a two-level map that never evicts and only filters by expiry when read. The clock (whole
 seconds since the epoch) is a parameter of every operation; stored values are abstract.
 */
module MemCache {
  import opened Wrappers

  datatype Entry<V> = Entry(value: V, expiresAt: Option<nat>)

  type Flat<V> = map<string, Entry<V>>

  /** What the reference remembers: the value with the time and the time to live it was set with. */
  datatype Kept<V> = Kept(value: V, setAt: nat, ttl: Option<nat>)

  type Nested<V> = map<string, map<string, Kept<V>>>

  /** The last second that the system clock can represent. */
  const MAX_SECONDS: nat := 0x7FFF_FFFF_FFFF_FFFF

  function GetKey(key: string, field: string): string {
    key + ":" + field
  }

  predicate Expired(expiresAt: Option<nat>, now: nat) {
    expiresAt.Some? && now >= expiresAt.value
  }

  function Expiry(ttl: Option<nat>, now: nat): Result<Option<nat>, ()> {
    match ttl
    case None => Ok(None)
    case Some(seconds) => if now + seconds > MAX_SECONDS then Err(()) else Ok(Some(now + seconds))
  }

  // The flat map

  function Read<V>(m: Flat<V>, k: string, now: nat): Option<V> {
    if k in m && !Expired(m[k].expiresAt, now) then Some(m[k].value) else None
  }

  function Evict<V>(m: Flat<V>, k: string, now: nat): Flat<V> {
    if k in m && Expired(m[k].expiresAt, now) then m - {k} else m
  }

  /** Reads one field after the other, each at its own time. */
  function ReadMany<V>(m: Flat<V>, key: string, fields: seq<string>, times: seq<nat>): (Flat<V>, seq<Option<V>>)
    requires |fields| == |times|
    decreases |fields|
  {
    if fields == [] then (m, [])
    else
      var last := |fields| - 1;
      var (m', values) := ReadMany(m, key, fields[..last], times[..last]);
      var k := GetKey(key, fields[last]);
      (Evict(m', k, times[last]), values + [Read(m', k, times[last])])
  }

  function Cleanup<V>(m: Flat<V>, now: nat): Flat<V> {
    map k | k in m && !Expired(m[k].expiresAt, now) :: m[k]
  }

  class Cache<V(==)> {
    var entries: Flat<V>

    constructor ()
      ensures entries == map[]
    {
      entries := map[];
    }

    method Get(key: string, field: string, now: nat) returns (r: Option<V>)
      modifies this
      ensures r == Read(old(entries), GetKey(key, field), now)
      ensures entries == Evict(old(entries), GetKey(key, field), now)
    {
      var k := GetKey(key, field);
      if k !in entries {
        return None;
      }
      var entry := entries[k];
      if Expired(entry.expiresAt, now) {
        entries := entries - {k};
        return None;
      }
      return Some(entry.value);
    }

    method GetMultiple(key: string, fields: seq<string>, times: seq<nat>) returns (r: seq<Option<V>>)
      requires |fields| == |times|
      modifies this
      ensures (entries, r) == ReadMany(old(entries), key, fields, times)
    {
      r := [];
      for i := 0 to |fields|
        invariant (entries, r) == ReadMany(old(entries), key, fields[..i], times[..i])
      {
        assert fields[..i + 1][..i] == fields[..i] && times[..i + 1][..i] == times[..i];
        var value := Get(key, fields[i], times[i]);
        r := r + [value];
      }
      assert fields[..|fields|] == fields && times[..|times|] == times;
    }

    method Set(key: string, field: string, value: V, ttl: Option<nat>, now: nat) returns (r: Result<(), ()>)
      modifies this
      ensures match Expiry(ttl, now)
              case Ok(e) => r == Ok(()) && entries == old(entries)[GetKey(key, field) := Entry(value, e)]
              case Err(_) => r == Err(()) && entries == old(entries)
    {
      var expiresAt := None;
      if ttl.Some? {
        if now + ttl.value > MAX_SECONDS {
          return Err(());
        }
        expiresAt := Some(now + ttl.value);
      }
      entries := entries[GetKey(key, field) := Entry(value, expiresAt)];
      return Ok(());
    }

    method Take(key: string, field: string, now: nat) returns (r: Option<V>)
      modifies this
      ensures r == Read(old(entries), GetKey(key, field), now)
      ensures entries == old(entries) - {GetKey(key, field)}
    {
      var k := GetKey(key, field);
      if k !in entries {
        return None;
      }
      var entry := entries[k];
      entries := entries - {k};
      r := if Expired(entry.expiresAt, now) then None else Some(entry.value);
    }

    method Delete(key: string, field: string)
      modifies this
      ensures entries == old(entries) - {GetKey(key, field)}
    {
      entries := entries - {GetKey(key, field)};
    }

    /** The background task keeps what has not expired. */
    method CleanupExpired(now: nat)
      modifies this
      ensures entries == Cleanup(old(entries), now)
    {
      var keys := entries.Keys;
      var kept: Flat<V> := map[];
      while keys != {}
        invariant keys <= entries.Keys
        invariant kept == map k | k in entries && k !in keys && !Expired(entries[k].expiresAt, now) :: entries[k]
        decreases keys
      {
        var k :| k in keys;
        keys := keys - {k};
        if !Expired(entries[k].expiresAt, now) {
          kept := kept[k := entries[k]];
        }
      }
      entries := kept;
    }
  }

  // Runs of operations

  datatype Op<V> =
    | Get(key: string, field: string, now: nat)
    | GetMultiple(key: string, fields: seq<string>, times: seq<nat>)
    | Set(key: string, field: string, value: V, ttl: Option<nat>, now: nat)
    | Take(key: string, field: string, now: nat)
    | Delete(key: string, field: string)
    | CleanupExpired(now: nat)

  datatype Answer<V> = Got(value: Option<V>) | GotMany(values: seq<Option<V>>) | Done | TooFar

  predicate WellFormed<V>(op: Op<V>) {
    op.GetMultiple? ==> |op.fields| == |op.times|
  }

  function Do<V>(m: Flat<V>, op: Op<V>): (Flat<V>, Answer<V>)
    requires WellFormed(op)
  {
    match op
    case Get(key, field, now) => (Evict(m, GetKey(key, field), now), Got(Read(m, GetKey(key, field), now)))
    case GetMultiple(key, fields, times) =>
      var (m', values) := ReadMany(m, key, fields, times);
      (m', GotMany(values))
    case Set(key, field, value, ttl, now) =>
      (match Expiry(ttl, now)
       case Err(_) => (m, TooFar)
       case Ok(e) => (m[GetKey(key, field) := Entry(value, e)], Done))
    case Take(key, field, now) => (m - {GetKey(key, field)}, Got(Read(m, GetKey(key, field), now)))
    case Delete(key, field) => (m - {GetKey(key, field)}, Done)
    case CleanupExpired(now) => (Cleanup(m, now), Done)
  }

  // The reference

  predicate Has<V>(n: Nested<V>, key: string, field: string) {
    key in n && field in n[key]
  }

  /** Readable before the time to live has passed since it was set. */
  predicate Fresh<V>(kept: Kept<V>, now: nat) {
    kept.ttl.Some? ==> now < kept.setAt + kept.ttl.value
  }

  function RefRead<V>(n: Nested<V>, key: string, field: string, now: nat): Option<V> {
    if Has(n, key, field) && Fresh(n[key][field], now) then Some(n[key][field].value) else None
  }

  /** The end of the time to live is past what the clock can represent. */
  predicate EndsTooFar(ttl: Option<nat>, now: nat) {
    ttl.Some? && now + ttl.value >= 0x8000_0000_0000_0000
  }

  function RefPut<V>(n: Nested<V>, key: string, field: string, kept: Kept<V>): Nested<V> {
    n[key := (if key in n then n[key] else map[])[field := kept]]
  }

  function RefRemove<V>(n: Nested<V>, key: string, field: string): Nested<V> {
    if key in n then n[key := n[key] - {field}] else n
  }

  function RefDo<V>(n: Nested<V>, op: Op<V>): (Nested<V>, Answer<V>)
    requires WellFormed(op)
  {
    match op
    case Get(key, field, now) => (n, Got(RefRead(n, key, field, now)))
    case GetMultiple(key, fields, times) =>
      (n, GotMany(seq(|fields|, i requires 0 <= i < |fields| => RefRead(n, key, fields[i], times[i]))))
    case Set(key, field, value, ttl, now) =>
      if EndsTooFar(ttl, now) then (n, TooFar) else (RefPut(n, key, field, Kept(value, now, ttl)), Done)
    case Take(key, field, now) => (RefRemove(n, key, field), Got(RefRead(n, key, field, now)))
    case Delete(key, field) => (RefRemove(n, key, field), Done)
    case CleanupExpired(_) => (n, Done)
  }

  // Which keys can be confused

  /** `longer` continues `key` after a separator. */
  predicate Extends(longer: string, key: string) {
    key + ":" <= longer
  }

  ghost predicate CanCollide(k1: string, k2: string) {
    exists f1, f2 :: GetKey(k1, f1) == GetKey(k2, f2)
  }

  /** The field under which the shorter key reaches the longer key's entry. */
  function Confused(longer: string, key: string, field: string): string
    requires Extends(longer, key)
  {
    longer[|key| + 1..] + ":" + field
  }

  lemma ConfusedFieldCollides(longer: string, key: string, field: string)
    requires Extends(longer, key)
    ensures GetKey(longer, field) == GetKey(key, Confused(longer, key, field))
  {
    assert longer == key + ":" + longer[|key| + 1..];
  }

  lemma LongerExtends(k1: string, f1: string, k2: string, f2: string)
    requires GetKey(k1, f1) == GetKey(k2, f2) && |k1| < |k2|
    ensures Extends(k2, k1)
  {
    var whole := GetKey(k1, f1);
    assert k1 + ":" == whole[..|k1| + 1];
    assert k2 == GetKey(k2, f2)[..|k2|];
    assert whole[..|k1| + 1] == k2[..|k1| + 1];
  }

  /** Two different keys share a composed key for some fields exactly if one extends the other. */
  lemma KeysCollideIff(k1: string, k2: string)
    requires k1 != k2
    ensures CanCollide(k1, k2) <==> Extends(k1, k2) || Extends(k2, k1)
  {
    if CanCollide(k1, k2) {
      var f1, f2 :| GetKey(k1, f1) == GetKey(k2, f2);
      if |k1| < |k2| {
        LongerExtends(k1, f1, k2, f2);
      } else if |k2| < |k1| {
        LongerExtends(k2, f2, k1, f1);
      } else {
        SameLengthKeys(k1, f1, k2, f2);
      }
    }
    if Extends(k1, k2) {
      ConfusedFieldCollides(k1, k2, "");
    } else if Extends(k2, k1) {
      ConfusedFieldCollides(k2, k1, "");
    }
  }

  lemma SameLengthKeys(k1: string, f1: string, k2: string, f2: string)
    requires GetKey(k1, f1) == GetKey(k2, f2) && |k1| == |k2|
    ensures k1 == k2 && f1 == f2
  {
    var whole := GetKey(k1, f1);
    assert k1 == whole[..|k1|] && k2 == GetKey(k2, f2)[..|k2|];
    assert f1 == whole[|k1| + 1..] && f2 == GetKey(k2, f2)[|k2| + 1..];
  }

  /** No key of the set extends another one. */
  ghost predicate Separated(keys: iset<string>) {
    forall k1, k2 :: k1 in keys && k2 in keys ==> !Extends(k1, k2)
  }

  /** Composed keys are unambiguous for keys that do not extend each other. */
  lemma KeysAreInjective(keys: iset<string>, k1: string, f1: string, k2: string, f2: string)
    requires Separated(keys) && k1 in keys && k2 in keys && GetKey(k1, f1) == GetKey(k2, f2)
    ensures k1 == k2 && f1 == f2
  {
    if k1 != k2 {
      KeysCollideIff(k1, k2);
    } else {
      SameLengthKeys(k1, f1, k2, f2);
    }
  }

  lemma ExtensionHasSeparator(longer: string, key: string)
    requires Extends(longer, key)
    ensures ':' in longer
  {
    assert longer[|key|] == (key + ":")[|key|];
  }

  /** In particular, keys without the separator never extend each other. */
  lemma KeysWithoutSeparator()
    ensures Separated(iset key: string | ':' !in key)
  {
    forall longer: string, key: string | Extends(longer, key)
      ensures ':' in longer
    {
      ExtensionHasSeparator(longer, key);
    }
  }

  // Refinement

  /** The stored entry of what the reference remembers. */
  function Stored<V>(kept: Kept<V>): Entry<V> {
    Entry(kept.value, match kept.ttl case None => None case Some(d) => Some(kept.setAt + d))
  }

  /** The flat map holds what the reference holds, except for entries that are no longer fresh by `now`. */
  ghost predicate AgreeAt<V>(m: Flat<V>, n: Nested<V>, now: nat, key: string, field: string) {
    var k := GetKey(key, field);
    if k in m then Has(n, key, field) && Stored(n[key][field]) == m[k]
    else Has(n, key, field) ==> !Fresh(n[key][field], now)
  }

  ghost predicate Agree<V>(keys: iset<string>, m: Flat<V>, n: Nested<V>, now: nat) {
    forall key, field :: key in keys ==> AgreeAt(m, n, now, key, field)
  }

  lemma AgreeOnRead<V>(m: Flat<V>, n: Nested<V>, now: nat, key: string, field: string)
    requires AgreeAt(m, n, now, key, field)
    ensures forall t :: t >= now ==> Read(m, GetKey(key, field), t) == RefRead(n, key, field, t)
  {}

  lemma TimePasses<V>(keys: iset<string>, m: Flat<V>, n: Nested<V>, now: nat, later: nat)
    requires Agree(keys, m, n, now) && now <= later
    ensures Agree(keys, m, n, later)
  {
    forall key, field | key in keys
      ensures AgreeAt(m, n, later, key, field)
    {
      assert AgreeAt(m, n, now, key, field);
    }
  }

  /** `m'` lacks nothing of `m` but entries that have expired by `now`. */
  ghost predicate Evicted<V>(m: Flat<V>, m': Flat<V>, now: nat) {
    && (forall k :: k in m' ==> k in m && m'[k] == m[k])
    && (forall k :: k in m && k !in m' ==> Expired(m[k].expiresAt, now))
  }

  lemma EvictionAgrees<V>(keys: iset<string>, m: Flat<V>, m': Flat<V>, n: Nested<V>, now: nat)
    requires Agree(keys, m, n, now) && Evicted(m, m', now)
    ensures Agree(keys, m', n, now)
  {
    forall key, field | key in keys
      ensures AgreeAt(m', n, now, key, field)
    {
      assert AgreeAt(m, n, now, key, field);
    }
  }

  lemma PutAgrees<V>(
      keys: iset<string>, m: Flat<V>, n: Nested<V>, now: nat, key: string, field: string, kept: Kept<V>)
    requires Separated(keys) && Agree(keys, m, n, now) && key in keys
    ensures Agree(keys, m[GetKey(key, field) := Stored(kept)], RefPut(n, key, field, kept), now)
  {
    var m', n' := m[GetKey(key, field) := Stored(kept)], RefPut(n, key, field, kept);
    forall k, f | k in keys
      ensures AgreeAt(m', n', now, k, f)
    {
      assert AgreeAt(m, n, now, k, f);
      if GetKey(k, f) == GetKey(key, field) {
        KeysAreInjective(keys, k, f, key, field);
      }
    }
  }

  lemma RemoveAgrees<V>(keys: iset<string>, m: Flat<V>, n: Nested<V>, now: nat, key: string, field: string)
    requires Separated(keys) && Agree(keys, m, n, now) && key in keys
    ensures Agree(keys, m - {GetKey(key, field)}, RefRemove(n, key, field), now)
  {
    var m', n' := m - {GetKey(key, field)}, RefRemove(n, key, field);
    forall k, f | k in keys
      ensures AgreeAt(m', n', now, k, f)
    {
      assert AgreeAt(m, n, now, k, f);
      if GetKey(k, f) == GetKey(key, field) {
        KeysAreInjective(keys, k, f, key, field);
      }
    }
  }

  ghost predicate Rising(now: nat, times: seq<nat>) {
    && (forall i :: 0 <= i < |times| ==> now <= times[i])
    && (forall i, j :: 0 <= i < j < |times| ==> times[i] <= times[j])
  }

  function LastOf(now: nat, times: seq<nat>): nat {
    if times == [] then now else times[|times| - 1]
  }

  lemma {:induction false} ReadManyAgrees<V>(
      keys: iset<string>, m: Flat<V>, n: Nested<V>, now: nat, key: string, fields: seq<string>, times: seq<nat>)
    requires Agree(keys, m, n, now) && key in keys && |fields| == |times| && Rising(now, times)
    ensures var (m', values) := ReadMany(m, key, fields, times);
            && Agree(keys, m', n, LastOf(now, times))
            && values == seq(|fields|, i requires 0 <= i < |fields| => RefRead(n, key, fields[i], times[i]))
    decreases |fields|
  {
    if fields != [] {
      var last := |fields| - 1;
      ReadManyAgrees(keys, m, n, now, key, fields[..last], times[..last]);
      var m' := ReadMany(m, key, fields[..last], times[..last]).0;
      TimePasses(keys, m', n, LastOf(now, times[..last]), times[last]);
      assert AgreeAt(m', n, times[last], key, fields[last]);
      AgreeOnRead(m', n, times[last], key, fields[last]);
      EvictionAgrees(keys, m', Evict(m', GetKey(key, fields[last]), times[last]), n, times[last]);
    }
  }

  /** The clock readings of an operation. */
  function Times<V>(op: Op<V>): seq<nat> {
    match op
    case GetMultiple(_, _, times) => times
    case Delete(_, _) => []
    case _ => [op.now]
  }

  /** The operation is well formed and its clock readings do not go back. */
  ghost predicate OnTime<V>(now: nat, op: Op<V>) {
    WellFormed(op) && Rising(now, Times(op))
  }

  /** The operation is about one of `keys`, or about none. */
  ghost predicate Uses<V>(keys: iset<string>, op: Op<V>) {
    op.CleanupExpired? || op.key in keys
  }

  lemma StepRefines<V>(keys: iset<string>, m: Flat<V>, n: Nested<V>, now: nat, op: Op<V>)
    requires Separated(keys) && Agree(keys, m, n, now) && OnTime(now, op) && Uses(keys, op)
    ensures Do(m, op).1 == RefDo(n, op).1
    ensures Agree(keys, Do(m, op).0, RefDo(n, op).0, LastOf(now, Times(op)))
  {
    hide Separated;
    var later := LastOf(now, Times(op));
    TimePasses(keys, m, n, now, later);
    if op.Get? || op.Take? {
      assert AgreeAt(m, n, later, op.key, op.field);
      AgreeOnRead(m, n, later, op.key, op.field);
    }
    match op
    case Get(key, field, t) => EvictionAgrees(keys, m, Evict(m, GetKey(key, field), t), n, t);
    case GetMultiple(key, fields, times) => ReadManyAgrees(keys, m, n, now, key, fields, times);
    case Set(key, field, value, ttl, t) =>
      if Expiry(ttl, t).Ok? {
        PutAgrees(keys, m, n, t, key, field, Kept(value, t, ttl));
      }
    case Take(key, field, _) => RemoveAgrees(keys, m, n, later, key, field);
    case Delete(key, field) => RemoveAgrees(keys, m, n, later, key, field);
    case CleanupExpired(t) => EvictionAgrees(keys, m, Cleanup(m, t), n, t);
  }

  /** Every operation is well formed and reads a clock that never goes back. */
  ghost predicate AllOnTime<V>(now: nat, ops: seq<Op<V>>)
    decreases |ops|
  {
    ops != [] ==> OnTime(now, ops[0]) && AllOnTime(LastOf(now, Times(ops[0])), ops[1..])
  }

  ghost predicate AllUse<V>(keys: iset<string>, ops: seq<Op<V>>) {
    forall i :: 0 <= i < |ops| ==> Uses(keys, ops[i])
  }

  predicate AllWellFormed<V>(ops: seq<Op<V>>) {
    forall i :: 0 <= i < |ops| ==> WellFormed(ops[i])
  }

  function Answers<V>(m: Flat<V>, ops: seq<Op<V>>): seq<Answer<V>>
    requires AllWellFormed(ops)
    decreases |ops|
  {
    if ops == [] then [] else [Do(m, ops[0]).1] + Answers(Do(m, ops[0]).0, ops[1..])
  }

  function RefAnswers<V>(n: Nested<V>, ops: seq<Op<V>>): seq<Answer<V>>
    requires AllWellFormed(ops)
    decreases |ops|
  {
    if ops == [] then [] else [RefDo(n, ops[0]).1] + RefAnswers(RefDo(n, ops[0]).0, ops[1..])
  }

  lemma {:induction false} AnswersRefine<V>(
      keys: iset<string>, m: Flat<V>, n: Nested<V>, now: nat, ops: seq<Op<V>>)
    requires AllWellFormed(ops) && AllOnTime(now, ops) && AllUse(keys, ops)
    requires Separated(keys) && Agree(keys, m, n, now)
    ensures Answers(m, ops) == RefAnswers(n, ops)
    decreases |ops|
  {
    hide Separated, Agree;
    if ops != [] {
      assert Uses(keys, ops[0]);
      StepRefines(keys, m, n, now, ops[0]);
      AnswersRefine(keys, Do(m, ops[0]).0, RefDo(n, ops[0]).0, LastOf(now, Times(ops[0])), ops[1..]);
    }
  }

  /** From an empty cache, every answer is what the two-level map gives, with cleanups inserted anywhere. */
  lemma CacheIsTransparent<V>(keys: iset<string>, now: nat, ops: seq<Op<V>>)
    requires Separated(keys)
    requires AllWellFormed(ops) && AllOnTime(now, ops) && AllUse(keys, ops)
    ensures Answers(map[], ops) == RefAnswers(map[], ops)
  {
    var m: Flat<V>, n: Nested<V> := map[], map[];
    assert forall key, field :: AgreeAt(m, n, now, key, field);
    AnswersRefine(keys, m, n, now, ops);
  }

  /** A key that extends another one answers for it: two different fields share one entry. */
  lemma ExtendedKeyAnswers<V>(longer: string, key: string, field: string, value: V, now: nat)
    requires Extends(longer, key)
    ensures var ops := [Set(longer, field, value, None, now), Get(key, Confused(longer, key, field), now)];
            && Answers(map[], ops) == [Done, Got(Some(value))]
            && RefAnswers(map[], ops) == [Done, Got(None)]
  {
    var set', get: Op<V> := Set(longer, field, value, None, now), Get(key, Confused(longer, key, field), now);
    var ops := [set', get];
    ConfusedFieldCollides(longer, key, field);
    var m: Flat<V> := map[GetKey(longer, field) := Entry(value, None)];
    var n: Nested<V> := map[longer := map[field := Kept(value, now, None)]];
    assert longer != key by {
      assert |key + ":"| <= |longer|;
    }
    assert ops[1..] == [get] && [get][1..] == [];
    assert Do(map[], set') == (m, Done) && RefDo(map[], set') == (n, Done);
    assert Do(m, get).1 == Got(Some(value)) && RefDo(n, get).1 == Got(None);
    assert Answers(Do(m, get).0, []) == [] && RefAnswers(RefDo(n, get).0, []) == [];
    assert Answers(m, [get]) == [Do(m, get).1] && RefAnswers(n, [get]) == [RefDo(n, get).1];
  }

  /** Every run over `keys` answers like the two-level map. */
  ghost predicate Transparent<V(!new)>(keys: iset<string>) {
    forall now: nat, ops: seq<Op<V>> :: AllWellFormed(ops) && AllOnTime(now, ops) && AllUse(keys, ops) ==>
      Answers(map[], ops) == RefAnswers(map[], ops)
  }

  /**
   A set of key names can be used without any visible difference from the two-level map exactly if none of
   them extends another one by the separator.
   */
  lemma TransparentIff<V(!new)>(keys: iset<string>, value: V)
    ensures Transparent<V>(keys) <==> Separated(keys)
  {
    if Separated(keys) {
      forall now: nat, ops: seq<Op<V>> | AllWellFormed(ops) && AllOnTime(now, ops) && AllUse(keys, ops)
        ensures Answers(map[], ops) == RefAnswers(map[], ops)
      {
        CacheIsTransparent(keys, now, ops);
      }
    } else {
      var longer, key :| longer in keys && key in keys && Extends(longer, key);
      var ops: seq<Op<V>> := [Set(longer, "", value, None, 0), Get(key, Confused(longer, key, ""), 0)];
      ExtendedKeyAnswers(longer, key, "", value, 0);
      assert AllOnTime(0, ops[1..][1..]);
      assert AllOnTime(0, ops[1..]);
      assert AllOnTime(0, ops) && AllUse(keys, ops) && AllWellFormed(ops);
      assert Answers(map[], ops)[1] != RefAnswers(map[], ops)[1];
    }
  }

  // What a run promises, from its operations alone

  /** What the last operation on a field left there: the value of a successful `Set`, or nothing. */
  function LastSet<V>(ops: seq<Op<V>>, key: string, field: string): Option<Kept<V>> {
    if ops == [] then None
    else
      var (front, op) := (ops[..|ops| - 1], ops[|ops| - 1]);
      if op.Set? && op.key == key && op.field == field && !EndsTooFar(op.ttl, op.now) then
        Some(Kept(op.value, op.now, op.ttl))
      else if (op.Take? || op.Delete?) && op.key == key && op.field == field then None
      else LastSet(front, key, field)
  }

  /** The value set at time u with time to live d is readable at time t exactly if t < u + d. */
  function Readable<V>(ops: seq<Op<V>>, key: string, field: string, t: nat): Option<V> {
    match LastSet(ops, key, field)
    case None => None
    case Some(Kept(value, u, None)) => Some(value)
    case Some(Kept(value, u, Some(d))) => if t < u + d then Some(value) else None
  }

  function Promised<V>(past: seq<Op<V>>, op: Op<V>): Answer<V>
    requires WellFormed(op)
  {
    match op
    case Get(key, field, t) => Got(Readable(past, key, field, t))
    case Take(key, field, t) => Got(Readable(past, key, field, t))
    case GetMultiple(key, fields, times) =>
      GotMany(seq(|fields|, i requires 0 <= i < |fields| => Readable(past, key, fields[i], times[i])))
    case Set(_, _, _, ttl, t) => if EndsTooFar(ttl, t) then TooFar else Done
    case Delete(_, _) => Done
    case CleanupExpired(_) => Done
  }

  function Lookup<V>(n: Nested<V>, key: string, field: string): Option<Kept<V>> {
    if Has(n, key, field) then Some(n[key][field]) else None
  }

  ghost predicate Remembers<V>(n: Nested<V>, past: seq<Op<V>>) {
    forall key, field :: Lookup(n, key, field) == LastSet(past, key, field)
  }

  lemma StepRemembers<V>(n: Nested<V>, past: seq<Op<V>>, op: Op<V>)
    requires Remembers(n, past) && WellFormed(op)
    ensures Remembers(RefDo(n, op).0, past + [op])
  {
    var n', all := RefDo(n, op).0, past + [op];
    assert all[..|all| - 1] == past;
    forall key, field
      ensures Lookup(n', key, field) == LastSet(all, key, field)
    {
      assert Lookup(n, key, field) == LastSet(past, key, field);
    }
  }

  lemma StepPromised<V>(n: Nested<V>, past: seq<Op<V>>, op: Op<V>)
    requires Remembers(n, past) && WellFormed(op)
    ensures RefDo(n, op).1 == Promised(past, op)
  {
    forall key, field, t
      ensures RefRead(n, key, field, t) == Readable(past, key, field, t)
    {
      assert Lookup(n, key, field) == LastSet(past, key, field);
    }
    hide Remembers, Readable, RefRead;
  }

  lemma {:induction false} RefAnswersPromised<V>(n: Nested<V>, past: seq<Op<V>>, ops: seq<Op<V>>, i: nat)
    requires Remembers(n, past) && AllWellFormed(ops) && i < |ops|
    ensures |RefAnswers(n, ops)| == |ops|
    ensures RefAnswers(n, ops)[i] == Promised(past + ops[..i], ops[i])
    decreases |ops|
  {
    hide Remembers, Promised, RefDo;
    var op := ops[0];
    StepPromised(n, past, op);
    StepRemembers(n, past, op);
    var n' := RefDo(n, op).0;
    assert past + ops[..0] == past;
    if |ops| > 1 {
      RefAnswersPromised(n', past + [op], ops[1..], if i > 0 then i - 1 else 0);
      assert i > 0 ==> past + [op] + ops[1..][..i - 1] == past + ops[..i];
    }
  }

  /**
   In every run over separated keys, with cleanups anywhere, each answer is what the operations before it
   promise: a field reads as its last value, set at u with time to live d, exactly at times before u + d.
   */
  lemma AnswersArePromised<V>(keys: iset<string>, now: nat, ops: seq<Op<V>>, i: nat)
    requires Separated(keys)
    requires AllWellFormed(ops) && AllOnTime(now, ops) && AllUse(keys, ops) && i < |ops|
    ensures |Answers(map[], ops)| == |ops| && Answers(map[], ops)[i] == Promised(ops[..i], ops[i])
  {
    CacheIsTransparent(keys, now, ops);
    var n: Nested<V> := map[];
    assert Remembers(n, []);
    RefAnswersPromised(n, [], ops, i);
    assert [] + ops[..i] == ops[..i];
  }

  // What stays in the map

  function FlatAfter<V>(m: Flat<V>, ops: seq<Op<V>>): Flat<V>
    requires AllWellFormed(ops)
    decreases |ops|
  {
    if ops == [] then m else FlatAfter(Do(m, ops[0]).0, ops[1..])
  }

  function TimeAfter<V>(now: nat, ops: seq<Op<V>>): nat
    decreases |ops|
  {
    if ops == [] then now else TimeAfter(LastOf(now, Times(ops[0])), ops[1..])
  }

  lemma {:induction false} StatesAgree<V>(
      keys: iset<string>, m: Flat<V>, n: Nested<V>, now: nat, past: seq<Op<V>>, ops: seq<Op<V>>)
    returns (n': Nested<V>)
    requires AllWellFormed(ops) && AllOnTime(now, ops) && AllUse(keys, ops)
    requires Separated(keys) && Agree(keys, m, n, now) && Remembers(n, past)
    ensures Agree(keys, FlatAfter(m, ops), n', TimeAfter(now, ops)) && Remembers(n', past + ops)
    decreases |ops|
  {
    hide Separated, Agree, Remembers;
    if ops == [] {
      assert past + ops == past;
      return n;
    }
    assert Uses(keys, ops[0]);
    StepRefines(keys, m, n, now, ops[0]);
    StepRemembers(n, past, ops[0]);
    n' := StatesAgree(keys, Do(m, ops[0]).0, RefDo(n, ops[0]).0, LastOf(now, Times(ops[0])),
                      past + [ops[0]], ops[1..]);
    assert past + [ops[0]] + ops[1..] == past + ops;
  }

  /** After a cleanup the map holds exactly the fields that are readable then; after a read, the field iff it is. */
  lemma ExpiredLeaves<V>(keys: iset<string>, now: nat, ops: seq<Op<V>>, t: nat, key: string, field: string)
    requires Separated(keys) && key in keys
    requires AllWellFormed(ops) && AllOnTime(now, ops) && AllUse(keys, ops) && TimeAfter(now, ops) <= t
    ensures GetKey(key, field) in Do(FlatAfter(map[], ops), CleanupExpired(t)).0
            <==> Readable(ops, key, field, t).Some?
    ensures GetKey(key, field) in Do(FlatAfter(map[], ops), Get(key, field, t)).0
            <==> Readable(ops, key, field, t).Some?
  {
    var m: Flat<V>, n: Nested<V> := map[], map[];
    assert Remembers(n, []) && Agree(keys, m, n, now);
    var n' := StatesAgree(keys, m, n, now, [], ops);
    assert [] + ops == ops;
    assert AgreeAt(FlatAfter(m, ops), n', TimeAfter(now, ops), key, field);
    assert Lookup(n', key, field) == LastSet(ops, key, field);
  }

  // Cleaning up

  lemma EvictedReads<V>(m: Flat<V>, m': Flat<V>, now: nat, k: string, t: nat)
    requires Evicted(m, m', now) && now <= t
    ensures Read(m', k, t) == Read(m, k, t)
    ensures Evicted(Evict(m, k, t), Evict(m', k, t), t)
  {}

  lemma {:induction false} EvictedReadsMany<V>(
      m: Flat<V>, m': Flat<V>, now: nat, key: string, fields: seq<string>, times: seq<nat>)
    requires Evicted(m, m', now) && |fields| == |times| && Rising(now, times)
    ensures ReadMany(m', key, fields, times).1 == ReadMany(m, key, fields, times).1
    ensures Evicted(ReadMany(m, key, fields, times).0, ReadMany(m', key, fields, times).0, LastOf(now, times))
    decreases |fields|
  {
    if fields != [] {
      hide Evicted, Evict, Read;
      var last := |fields| - 1;
      var front, before := fields[..last], times[..last];
      EvictedReadsMany(m, m', now, key, front, before);
      EvictedReads(ReadMany(m, key, front, before).0, ReadMany(m', key, front, before).0, LastOf(now, before),
                   GetKey(key, fields[last]), times[last]);
    }
  }

  /** An operation answers the same with and without expired entries, for any keys. */
  lemma StepIgnoresEvicted<V>(m: Flat<V>, m': Flat<V>, now: nat, op: Op<V>)
    requires Evicted(m, m', now) && OnTime(now, op)
    ensures Do(m', op).1 == Do(m, op).1
    ensures Evicted(Do(m, op).0, Do(m', op).0, LastOf(now, Times(op)))
  {
    assert op.Get? || op.Take? ==> now <= Times(op)[0] == op.now;
    match op
    case Get(key, field, t) => EvictedReads(m, m', now, GetKey(key, field), t);
    case Take(key, field, t) => EvictedReads(m, m', now, GetKey(key, field), t);
    case GetMultiple(key, fields, times) => EvictedReadsMany(m, m', now, key, fields, times);
    case _ =>
  }

  lemma {:induction false} AnswersIgnoreEvicted<V>(m: Flat<V>, m': Flat<V>, now: nat, ops: seq<Op<V>>)
    requires AllWellFormed(ops) && AllOnTime(now, ops) && Evicted(m, m', now)
    ensures Answers(m', ops) == Answers(m, ops)
    decreases |ops|
  {
    hide Evicted;
    if ops != [] {
      StepIgnoresEvicted(m, m', now, ops[0]);
      AnswersIgnoreEvicted(Do(m, ops[0]).0, Do(m', ops[0]).0, LastOf(now, Times(ops[0])), ops[1..]);
    }
  }

  /** Cleaning up at any time changes no later answer, whatever the keys and the contents. */
  lemma CleanupIsInvisible<V>(m: Flat<V>, now: nat, ops: seq<Op<V>>)
    requires AllWellFormed(ops) && AllOnTime(now, ops)
    ensures Answers(Cleanup(m, now), ops) == Answers(m, ops)
  {
    AnswersIgnoreEvicted(m, Cleanup(m, now), now, ops);
  }
}
