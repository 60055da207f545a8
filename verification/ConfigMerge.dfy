/** `deepMerge` on configuration trees. A tree is a value, and merging returns the merged tree. */
module ConfigMerge {
  import opened Wrappers

  /** What is not an object; arrays are compared as a whole. */
  datatype Scalar = Text(s: string) | Number(n: real) | Flag(b: bool) | Array(items: seq<string>)

  datatype Value = Undefined | Leaf(scalar: Scalar) | Node(fields: map<string, Value>)

  predicate Truthy(v: Value) {
    match v
    case Undefined => false
    case Leaf(Text(s)) => s != ""
    case Leaf(Number(n)) => n != 0.0
    case Leaf(Flag(b)) => b
    case Leaf(Array(_)) => true
    case Node(_) => true
  }

  const FALSY: set<Value> := {Undefined, Leaf(Text("")), Leaf(Number(0.0)), Leaf(Flag(false))}

  lemma TruthyIff(v: Value)
    ensures Truthy(v) <==> v !in FALSY
  {}

  function Field(v: Value, key: string): Value {
    if v.Node? && key in v.fields then v.fields[key] else Undefined
  }

  // Merging

  /** The value at one key after merging: defined leaves override, objects merge, the rest stays. */
  function MergeField(target: Value, source: Value): Value
    decreases source, 1
  {
    match source
    case Undefined => target
    case Leaf(_) => source
    case Node(_) => Merge(if Truthy(target) then target else Node(map[]), source)
  }

  function Merge(target: Value, source: Value): Value
    decreases source, 0
  {
    if target.Node? && source.Node? then
      var defined := set k | k in source.fields && !source.fields[k].Undefined?;
      Node(map k | k in target.fields.Keys + defined ::
             if k in source.fields then MergeField(Field(target, k), source.fields[k]) else target.fields[k])
    else target
  }

  lemma FieldOfMerge(target: Value, source: Value, key: string)
    requires target.Node? && source.Node?
    ensures Merge(target, source).Node?
    ensures Field(Merge(target, source), key) == MergeField(Field(target, key), Field(source, key))
  {}

  /** The in-place loop over the source's keys, in whatever order they come. */
  method DeepMerge(target: Value, source: Value) returns (merged: Value)
    ensures merged == Merge(target, source)
    decreases source
  {
    if !target.Node? || !source.Node? {
      return target;
    }
    var fields := target.fields;
    var keys := source.fields.Keys;
    ghost var whole := Merge(target, source).fields;
    while keys != {}
      invariant keys <= source.fields.Keys
      invariant forall k :: k in keys ==> (k in fields <==> k in target.fields)
      invariant forall k :: k in keys && k in fields ==> fields[k] == target.fields[k]
      invariant forall k :: k !in keys ==> (k in fields <==> k in whole)
      invariant forall k :: k !in keys && k in fields ==> fields[k] == whole[k]
      decreases keys
    {
      var key :| key in keys;
      keys := keys - {key};
      var value := source.fields[key];
      FieldOfMerge(target, source, key);
      if value.Node? {
        if key !in fields || !Truthy(fields[key]) {
          fields := fields[key := Node(map[])];
        }
        var sub := DeepMerge(fields[key], value);
        fields := fields[key := sub];
      } else if !value.Undefined? {
        fields := fields[key := value];
      }
    }
    assert fields == whole;
    return Node(fields);
  }

  // Looking up paths

  function At(v: Value, path: seq<string>): Value
    decreases |path|
  {
    if path == [] then v else At(Field(v, path[0]), path[1..])
  }

  function LeafAt(v: Value, path: seq<string>): Option<Scalar> {
    var end := At(v, path);
    if end.Leaf? then Some(end.scalar) else None
  }

  /** What a reader of "the source overrides the target" expects at a path. */
  function Overridden(target: Value, source: Value, path: seq<string>): Option<Scalar> {
    if LeafAt(source, path).Some? then LeafAt(source, path) else LeafAt(target, path)
  }

  /**
   The shapes disagree after `i` steps along the path: the target has a truthy leaf where the source goes
   deeper, the source has a leaf where the target goes deeper, or, at the end of the path, the target has a
   falsy leaf where the source has an object.
   */
  predicate ClashAt(target: Value, source: Value, path: seq<string>, i: nat)
    requires i <= |path|
  {
    var (t, s) := (At(target, path[..i]), At(source, path[..i]));
    if i < |path| then
      || (t.Leaf? && Truthy(t) && s.Node? && LeafAt(source, path).Some?)
      || (s.Leaf? && LeafAt(target, path).Some?)
    else t.Leaf? && !Truthy(t) && s.Node?
  }

  ghost predicate Clash(target: Value, source: Value, path: seq<string>) {
    exists i: nat :: i <= |path| && ClashAt(target, source, path, i)
  }

  lemma ClashDescends(target: Value, source: Value, path: seq<string>)
    requires path != []
    ensures Clash(target, source, path)
            <==> ClashAt(target, source, path, 0)
                 || Clash(Field(target, path[0]), Field(source, path[0]), path[1..])
  {
    var (t, s, rest) := (Field(target, path[0]), Field(source, path[0]), path[1..]);
    forall i: nat | i <= |rest|
      ensures ClashAt(t, s, rest, i) <==> ClashAt(target, source, path, i + 1)
    {
      assert path[..i + 1][1..] == rest[..i];
    }
    if Clash(target, source, path) {
      var i: nat :| i <= |path| && ClashAt(target, source, path, i);
      if i > 0 {
        assert ClashAt(t, s, rest, i - 1);
      }
    }
    if Clash(t, s, rest) {
      var i: nat :| i <= |rest| && ClashAt(t, s, rest, i);
      assert ClashAt(target, source, path, i + 1);
    }
  }

  lemma {:induction false} UndefinedStays(path: seq<string>)
    ensures At(Undefined, path) == Undefined
  {
    if path != [] {
      UndefinedStays(path[1..]);
    }
  }

  lemma {:induction false} LeafEnds(v: Value, path: seq<string>)
    requires !v.Node? && path != []
    ensures At(v, path) == Undefined
  {
    UndefinedStays(path[1..]);
  }

  /** The override law holds at a path exactly when the shapes do not clash along it. */
  lemma {:induction false} MergeFieldLookupIff(target: Value, source: Value, path: seq<string>)
    ensures LeafAt(MergeField(target, source), path) == Overridden(target, source, path)
            <==> !Clash(target, source, path)
    decreases |path|
  {
    if path == [] {
      assert Clash(target, source, path) <==> ClashAt(target, source, path, 0);
    } else {
      ClashDescends(target, source, path);
      var (t, s, rest) := (Field(target, path[0]), Field(source, path[0]), path[1..]);
      assert path[..0] == [];
      MergeFieldLookupIff(t, s, rest);
      if !source.Node? {
        LeafEnds(source, path);
        NoClashWithout(t, rest);
      } else if target.Leaf? && Truthy(target) {
        LeafEnds(target, path);
        NoClashFrom(s, rest);
      } else {
        var base := if Truthy(target) then target else Node(map[]);
        FieldOfMerge(base, source, path[0]);
        assert Field(base, path[0]) == t;
      }
    }
  }

  lemma {:induction false} NoClashWithout(target: Value, path: seq<string>)
    ensures !Clash(target, Undefined, path)
  {
    forall i: nat | i <= |path|
      ensures !ClashAt(target, Undefined, path, i)
    {
      UndefinedStays(path[..i]);
    }
  }

  lemma {:induction false} NoClashFrom(source: Value, path: seq<string>)
    ensures !Clash(Undefined, source, path)
  {
    forall i: nat | i <= |path|
      ensures !ClashAt(Undefined, source, path, i)
    {
      UndefinedStays(path[..i]);
      UndefinedStays(path);
    }
  }

  /** A path lookup in the merged tree is the source's leaf, else the target's, exactly without a clash. */
  lemma MergeLookupIff(target: Value, source: Value, path: seq<string>)
    requires target.Node? && source.Node?
    ensures LeafAt(Merge(target, source), path) == Overridden(target, source, path)
            <==> !Clash(target, source, path)
  {
    MergeFieldLookupIff(target, source, path);
  }

  /** No step along the path, the last one included, finds a leaf that makes the other tree's objects give way. */
  ghost predicate NoTruthyLeaf(v: Value, path: seq<string>) {
    forall i :: 0 <= i <= |path| ==> !(At(v, path[..i]).Leaf? && At(v, path[..i]) !in FALSY)
  }

  ghost predicate NoLeaf(v: Value, path: seq<string>) {
    forall i :: 0 <= i <= |path| ==> !At(v, path[..i]).Leaf?
  }

  lemma NoLeafDescends(v: Value, path: seq<string>)
    requires path != []
    ensures NoLeaf(v, path) <==> !v.Leaf? && NoLeaf(Field(v, path[0]), path[1..])
    ensures NoTruthyLeaf(v, path) <==> !(v.Leaf? && v !in FALSY) && NoTruthyLeaf(Field(v, path[0]), path[1..])
  {
    var inner, rest := Field(v, path[0]), path[1..];
    assert path[..0] == [];
    forall i | 0 <= i <= |rest|
      ensures At(inner, rest[..i]) == At(v, path[..i + 1])
    {
      assert path[..i + 1][1..] == rest[..i];
    }
    forall i | 0 < i <= |path|
      ensures At(v, path[..i]) == At(inner, rest[..i - 1])
    {
      assert path[..i][1..] == rest[..i - 1];
    }
  }

  /** Where objects stand in a merged field. */
  lemma {:induction false} MergeFieldNodeIff(target: Value, source: Value, path: seq<string>)
    ensures At(MergeField(target, source), path).Node?
            <==> (At(source, path).Node? && NoTruthyLeaf(target, path))
                 || (At(target, path).Node? && NoLeaf(source, path))
    decreases |path|
  {
    TruthyIff(target);
    if path == [] {
      assert path[..0] == [];
    } else {
      NoLeafDescends(target, path);
      NoLeafDescends(source, path);
      var (t, s, rest) := (Field(target, path[0]), Field(source, path[0]), path[1..]);
      MergeFieldNodeIff(t, s, rest);
      if source.Leaf? {
        LeafEnds(source, path);
      } else if source.Undefined? {
        LeafEnds(source, path);
        NothingHasNoLeaf(rest);
      } else if target.Leaf? && Truthy(target) {
        LeafEnds(target, path);
      } else {
        var base := if Truthy(target) then target else Node(map[]);
        FieldOfMerge(base, source, path[0]);
        assert Field(base, path[0]) == t;
      }
    }
  }

  lemma {:induction false} NothingHasNoLeaf(path: seq<string>)
    ensures NoLeaf(Undefined, path)
  {
    forall i | 0 <= i <= |path|
      ensures !At(Undefined, path[..i]).Leaf?
    {
      UndefinedStays(path[..i]);
    }
  }

  /**
   The merged tree has an object at a path exactly if the source has one and no truthy leaf of the target stands
   at it or before it, or the target has one and no leaf of the source does.
   */
  lemma MergeNodeIff(target: Value, source: Value, path: seq<string>)
    requires target.Node? && source.Node?
    ensures At(Merge(target, source), path).Node?
            <==> (At(source, path).Node? && NoTruthyLeaf(target, path))
                 || (At(target, path).Node? && NoLeaf(source, path))
  {
    MergeFieldNodeIff(target, source, path);
  }

  /** A plain target keeps a source's deeper leaf out. */
  lemma PlainTargetHidesLeaf()
    ensures var target := Node(map["a" := Leaf(Number(1.0))]);
            var source := Node(map["a" := Node(map["b" := Leaf(Number(2.0))])]);
            && Clash(target, source, ["a", "b"])
            && LeafAt(Merge(target, source), ["a", "b"]) == None
            && Overridden(target, source, ["a", "b"]) == Some(Number(2.0))
  {
    var target := Node(map["a" := Leaf(Number(1.0))]);
    var inner := Node(map["b" := Leaf(Number(2.0))]);
    var source := Node(map["a" := inner]);
    var path := ["a", "b"];
    assert path[1..] == ["b"] && path[1..][1..] == [] && path[..1] == ["a"] && path[..1][1..] == [];
    assert At(source, path) == At(inner, ["b"]) == At(Leaf(Number(2.0)), []);
    assert ClashAt(target, source, path, 1);
    FieldOfMerge(target, source, "a");
    assert At(Merge(target, source), path) == At(Leaf(Number(1.0)), ["b"]);
    LeafEnds(Leaf(Number(1.0)), ["b"]);
  }

  lemma {:induction false} MergeFieldTwice(target: Value, source: Value)
    ensures MergeField(MergeField(target, source), source) == MergeField(target, source)
    decreases source
  {
    if source.Node? {
      var base := if Truthy(target) then target else Node(map[]);
      if base.Node? {
        var once := Merge(base, source);
        forall k | k in source.fields
          ensures MergeField(Field(once, k), source.fields[k]) == Field(once, k)
        {
          FieldOfMerge(base, source, k);
          MergeFieldTwice(Field(base, k), source.fields[k]);
        }
        assert Merge(once, source).fields == once.fields;
      }
    }
  }

  /** Merging the same source a second time changes nothing, whatever the shapes. */
  lemma MergeTwice(target: Value, source: Value)
    ensures Merge(Merge(target, source), source) == Merge(target, source)
  {
    if target.Node? && source.Node? {
      MergeFieldTwice(target, source);
    }
  }
}
