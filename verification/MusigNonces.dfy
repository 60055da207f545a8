/** When `aggregate_nonces` succeeds, and that the order of the received list does not matter. */
module MusigNonces {
  import opened Wrappers
  import opened MusigPrimitives
  import opened MusigBuilder

  ghost predicate Distinct(keys: seq<Point>) {
    forall i, j :: 0 <= i < j < |keys| ==> keys[i] != keys[j]
  }

  function KeysOf(list: NonceList): (r: seq<Point>)
    ensures |r| == |list|
  {
    seq(|list|, i requires 0 <= i < |list| => list[i].0)
  }

  /** The list holds exactly one entry for each participant and none for anybody else. */
  ghost predicate OnePerParticipant(keys: seq<Point>, list: NonceList) {
    multiset(KeysOf(list)) == multiset(keys)
  }

  function Zip(keys: seq<Point>, nonces: seq<PubNonce>): (r: NonceList)
    requires |keys| == |nonces|
    ensures |r| == |keys|
  {
    seq(|keys|, i requires 0 <= i < |keys| => (keys[i], nonces[i]))
  }

  // Counting keys

  lemma {:induction false} DistinctCounts(keys: seq<Point>)
    requires Distinct(keys)
    ensures forall k :: multiset(keys)[k] <= 1
  {
    if keys != [] {
      var last := |keys| - 1;
      DistinctCounts(keys[..last]);
      assert keys == keys[..last] + [keys[last]];
      assert keys[last] !in keys[..last];
    }
  }

  lemma FoundIffListed(list: NonceList, k: Point)
    ensures FindNonce(list, k).Some? <==> k in multiset(KeysOf(list))
  {
    if FindNonce(list, k).Some? {
      var i :| 0 <= i < |list| && list[i] == (k, FindNonce(list, k).value);
      assert KeysOf(list)[i] == k;
    }
    if k in multiset(KeysOf(list)) {
      var i :| 0 <= i < |list| && KeysOf(list)[i] == k;
      assert list[i] in list;
    }
  }

  /** Pigeonhole: as many entries as participants and every participant found leaves no room for more. */
  lemma AllFoundIsOnePerParticipant(keys: seq<Point>, list: NonceList)
    requires Distinct(keys) && |list| == |keys|
    requires forall k :: k in keys ==> FindNonce(list, k).Some?
    ensures OnePerParticipant(keys, list)
  {
    var have, want := multiset(KeysOf(list)), multiset(keys);
    DistinctCounts(keys);
    forall k
      ensures want[k] <= have[k]
    {
      if k in want {
        FoundIffListed(list, k);
      }
    }
    assert want <= have;
    assert |have - want| == 0;
    assert have == want + (have - want);
  }

  lemma {:induction false} SplitEntry(list: NonceList, i: nat, j: nat)
    requires i < j < |list| && list[i].0 == list[j].0
    ensures multiset(KeysOf(list))[list[i].0] >= 2
  {
    var ks := KeysOf(list);
    assert ks == ks[..j] + [ks[j]] + ks[j + 1..];
    assert ks[..j][i] == ks[j];
    assert ks[i] in ks[..j];
  }

  /** With one entry per key, looking a key up returns the nonce it is listed with. */
  lemma UniqueEntryIsFound(keys: seq<Point>, list: NonceList, e: (Point, PubNonce))
    requires Distinct(keys) && OnePerParticipant(keys, list) && e in list
    ensures FindNonce(list, e.0) == Some(e.1)
  {
    DistinctCounts(keys);
    var found := FindNonce(list, e.0);
    if found.None? {
      assert false;
    }
    var i :| 0 <= i < |list| && list[i] == e;
    var j :| 0 <= j < |list| && list[j] == (e.0, found.value);
    if i < j {
      SplitEntry(list, i, j);
    } else if j < i {
      SplitEntry(list, j, i);
    }
  }

  // Ordering

  lemma {:induction false} InKeyOrderIff(keys: seq<Point>, list: NonceList)
    ensures InKeyOrder(keys, list).Ok? <==> forall k :: k in keys ==> FindNonce(list, k).Some?
    ensures InKeyOrder(keys, list).Ok? ==>
              && |InKeyOrder(keys, list).value| == |keys|
              && forall i :: 0 <= i < |keys| ==> FindNonce(list, keys[i]) == Some(InKeyOrder(keys, list).value[i])
  {
    if keys != [] {
      InKeyOrderIff(keys[1..], list);
      assert keys[0] in keys;
      assert forall k :: k in keys ==> k == keys[0] || k in keys[1..];
      if InKeyOrder(keys[1..], list).Err? {
        var k :| k in keys[1..] && FindNonce(list, k).None?;
        assert k in keys;
      }
      if InKeyOrder(keys, list).Ok? {
        var r := InKeyOrder(keys, list).value;
        forall i | 0 <= i < |keys|
          ensures FindNonce(list, keys[i]) == Some(r[i])
        {
          if i > 0 {
            assert keys[i] == keys[1..][i - 1];
          }
        }
      }
    }
  }

  /** Which participant is reported missing depends only on which keys are listed. */
  lemma {:induction false} SameFailure(keys: seq<Point>, l1: NonceList, l2: NonceList)
    requires forall k :: k in keys ==> (FindNonce(l1, k).Some? <==> FindNonce(l2, k).Some?)
    requires InKeyOrder(keys, l1).Err?
    ensures InKeyOrder(keys, l2) == InKeyOrder(keys, l1)
  {
    if FindNonce(l1, keys[0]).Some? {
      SameFailure(keys[1..], l1, l2);
    }
  }

  function Without(list: NonceList, i: nat): (r: NonceList)
    requires i < |list|
    ensures |r| == |list| - 1
  {
    list[..i] + list[i + 1..]
  }

  lemma WithoutCounts(list: NonceList, i: nat)
    requires i < |list|
    ensures multiset(list) == multiset(Without(list, i)) + multiset{list[i]}
    ensures multiset(KeysOf(list)) == multiset(KeysOf(Without(list, i))) + multiset{list[i].0}
  {
    var front, back := list[..i], list[i + 1..];
    assert list == front + [list[i]] + back;
    assert KeysOf(list) == KeysOf(front) + [list[i].0] + KeysOf(back);
    assert KeysOf(Without(list, i)) == KeysOf(front) + KeysOf(back);
  }

  lemma {:induction false} KeysOfPermutation(l1: NonceList, l2: NonceList)
    requires multiset(l1) == multiset(l2)
    ensures multiset(KeysOf(l1)) == multiset(KeysOf(l2))
    decreases |l1|
  {
    if l1 == [] {
      assert |multiset(l2)| == 0;
    } else {
      assert l1[0] in multiset(l2);
      var j :| 0 <= j < |l2| && l2[j] == l1[0];
      WithoutCounts(l1, 0);
      WithoutCounts(l2, j);
      SameLess(multiset(Without(l1, 0)), multiset(Without(l2, j)), l1[0]);
      KeysOfPermutation(Without(l1, 0), Without(l2, j));
    }
  }

  lemma SameLess<T>(a: multiset<T>, b: multiset<T>, e: T)
    requires a + multiset{e} == b + multiset{e}
    ensures a == b
  {
    assert a == a + multiset{e} - multiset{e};
    assert b == b + multiset{e} - multiset{e};
  }

  lemma PermutedOrder(keys: seq<Point>, l1: NonceList, l2: NonceList)
    requires Distinct(keys) && |l1| == |keys| && multiset(l1) == multiset(l2)
    ensures InKeyOrder(keys, l1) == InKeyOrder(keys, l2)
  {
    KeysOfPermutation(l1, l2);
    forall k | k in keys
      ensures FindNonce(l1, k).Some? <==> FindNonce(l2, k).Some?
    {
      FoundIffListed(l1, k);
      FoundIffListed(l2, k);
    }
    InKeyOrderIff(keys, l1);
    InKeyOrderIff(keys, l2);
    if InKeyOrder(keys, l1).Err? {
      SameFailure(keys, l1, l2);
    } else {
      var r1, r2 := InKeyOrder(keys, l1).value, InKeyOrder(keys, l2).value;
      AllFoundIsOnePerParticipant(keys, l1);
      forall i | 0 <= i < |keys|
        ensures r1[i] == r2[i]
      {
        assert (keys[i], r2[i]) in multiset(l2);
        UniqueEntryIsFound(keys, l1, (keys[i], r2[i]));
      }
      assert r1 == r2;
    }
  }

  // Theorems

  /** The list, with our own entry at its end if our key is not in it. */
  function WithOurs(list: NonceList, our: Point, pub: PubNonce): NonceList {
    if our in KeysOf(list) then list else list + [(our, pub)]
  }

  lemma CompletedIsWithOurs(c: Curve, b: Builder, list: NonceList)
    requires c.q > 0 && b.nonce.Some?
    ensures Completed(c, b, list) == WithOurs(list, OurKey(c, b), b.nonce.value.pub)
  {
    FoundIffListed(list, OurKey(c, b));
  }

  /**
   Success is exactly: one entry per participant, no others, and our own nonce unchanged. Nonce i is then the
   one listed for participant i, and nothing else of the builder changes.
   */
  lemma AggregateNoncesSucceedsIff(c: Curve, b: Builder, list: NonceList)
    requires c.q > 0 && OurKey(c, b) in b.pubKeys && b.nonce.Some? && Distinct(b.pubKeys)
    ensures var full := WithOurs(list, OurKey(c, b), b.nonce.value.pub);
            && (AggregateNonces(c, b, list).Ok? <==>
                  OnePerParticipant(b.pubKeys, full) && (OurKey(c, b), b.nonce.value.pub) in full)
            && (AggregateNonces(c, b, list).Ok? ==>
                  var b' := AggregateNonces(c, b, list).value;
                  && b'.pubNonces.Some? && |b'.pubNonces.value| == |b.pubKeys|
                  && (forall i :: 0 <= i < |b.pubKeys| ==> (b.pubKeys[i], b'.pubNonces.value[i]) in full)
                  && b' == b.(pubNonces := b'.pubNonces, aggnonce := Some(c.AggregateNonce(b'.pubNonces.value))))
  {
    CompletedIsWithOurs(c, b, list);
    var keys, full := b.pubKeys, Completed(c, b, list);
    var ours := (OurKey(c, b), b.nonce.value.pub);
    var our := KeyIndex(keys, ours.0).value;
    InKeyOrderIff(keys, full);
    if AggregateNonces(c, b, list).Ok? {
      AllFoundIsOnePerParticipant(keys, full);
      assert FindNonce(full, keys[our]) == Some(ours.1);
    }
    if OnePerParticipant(keys, full) && ours in full {
      assert |KeysOf(full)| == |multiset(keys)|;
      forall k | k in keys
        ensures FindNonce(full, k).Some?
      {
        assert k in multiset(keys);
        FoundIffListed(full, k);
      }
      UniqueEntryIsFound(keys, full, ours);
    }
  }

  /** The ordered vector: when it is accepted, what is stored then, and which error it fails with. */
  lemma AggregateNoncesOrderedIff(c: Curve, b: Builder, nonces: seq<PubNonce>, our: nat)
    requires c.q > 0 && our < |b.pubKeys| && b.pubKeys[our] == OurKey(c, b) && OurKey(c, b) !in b.pubKeys[..our]
    requires b.nonce.Some?
    ensures var r := AggregateNoncesOrdered(c, b, nonces);
            && (r.Ok? <==> |nonces| == |b.pubKeys| && nonces[our] == b.nonce.value.pub)
            && (r.Ok? ==> r.value == b.(pubNonces := Some(nonces), aggnonce := Some(c.AggregateNonce(nonces))))
            && (r.Err? ==> r.error == if |nonces| != |b.pubKeys| then IncorrectNonceCount else OurNonceWrongIndex)
  {
    assert KeyIndex(b.pubKeys, OurKey(c, b)).value == our;
  }

  /** Which error: a wrong count first, then the first participant without a nonce, then our changed nonce. */
  lemma AggregateNoncesFailsWith(c: Curve, b: Builder, list: NonceList)
    requires c.q > 0 && OurKey(c, b) in b.pubKeys && b.nonce.Some? && AggregateNonces(c, b, list).Err?
    ensures var full := WithOurs(list, OurKey(c, b), b.nonce.value.pub);
            match AggregateNonces(c, b, list).error
            case IncorrectNonceCount => |full| != |b.pubKeys|
            case NonceNotFoundForKey(k) =>
              && |full| == |b.pubKeys| && k in b.pubKeys && k !in KeysOf(full)
              && forall i :: 0 <= i < KeyIndex(b.pubKeys, k).value ==> b.pubKeys[i] in KeysOf(full)
            case OurNonceWrongIndex =>
              |full| == |b.pubKeys| && FindNonce(full, OurKey(c, b)) != Some(b.nonce.value.pub)
            case _ => false
  {
    CompletedIsWithOurs(c, b, list);
    var full := Completed(c, b, list);
    if |full| == |b.pubKeys| {
      if InKeyOrder(b.pubKeys, full).Err? {
        FirstMissing(b.pubKeys, full);
      } else {
        InKeyOrderIff(b.pubKeys, full);
      }
    }
  }

  lemma {:induction false} FirstMissing(keys: seq<Point>, list: NonceList)
    requires InKeyOrder(keys, list).Err?
    ensures InKeyOrder(keys, list).error.NonceNotFoundForKey?
    ensures var k := InKeyOrder(keys, list).error.key;
            && k in keys && k !in KeysOf(list)
            && forall i :: 0 <= i < KeyIndex(keys, k).value ==> keys[i] in KeysOf(list)
  {
    FoundIffListed(list, keys[0]);
    if FindNonce(list, keys[0]).Some? {
      FirstMissing(keys[1..], list);
      var k := InKeyOrder(keys, list).error.key;
      forall i | 0 <= i < KeyIndex(keys, k).value
        ensures keys[i] in KeysOf(list)
      {
        if i > 0 {
          assert keys[i] == keys[1..][i - 1];
        }
      }
    }
  }

  /** The received order is irrelevant, for successes and for every error. */
  lemma AggregateNoncesPermutation(c: Curve, b: Builder, l1: NonceList, l2: NonceList)
    requires c.q > 0 && OurKey(c, b) in b.pubKeys && b.nonce.Some? && Distinct(b.pubKeys)
    requires multiset(l1) == multiset(l2)
    ensures AggregateNonces(c, b, l1) == AggregateNonces(c, b, l2)
  {
    KeysOfPermutation(l1, l2);
    FoundIffListed(l1, OurKey(c, b));
    FoundIffListed(l2, OurKey(c, b));
    var f1, f2 := Completed(c, b, l1), Completed(c, b, l2);
    assert multiset(f1) == multiset(f2);
    assert |multiset(f1)| == |f1| && |multiset(f2)| == |f2|;
    if |f1| == |b.pubKeys| {
      PermutedOrder(b.pubKeys, f1, f2);
    }
  }

  /** A list keyed by participant, in any order, aggregates like the participant-ordered vector. */
  lemma AggregateNoncesMatchesOrdered(c: Curve, b: Builder, nonces: seq<PubNonce>, list: NonceList)
    requires c.q > 0 && OurKey(c, b) in b.pubKeys && b.nonce.Some? && Distinct(b.pubKeys)
    requires |nonces| == |b.pubKeys| && multiset(list) == multiset(Zip(b.pubKeys, nonces))
    ensures AggregateNonces(c, b, list) == AggregateNoncesOrdered(c, b, nonces)
  {
    var keys := b.pubKeys;
    var zipped := Zip(keys, nonces);
    AggregateNoncesPermutation(c, b, list, zipped);
    assert KeysOf(zipped) == keys;
    InKeyOrderIff(keys, zipped);
    forall k | k in keys
      ensures FindNonce(zipped, k).Some?
    {
      FoundIffListed(zipped, k);
    }
    var ordered := InKeyOrder(keys, zipped).value;
    forall i | 0 <= i < |keys|
      ensures ordered[i] == nonces[i]
    {
      assert zipped[i] == (keys[i], nonces[i]);
      UniqueEntryIsFound(keys, zipped, zipped[i]);
    }
    assert ordered == nonces;
  }
}
