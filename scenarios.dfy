/**
 * Concrete instances: what the constructor stores for a few small arguments
 * and what toOriginalStructure gives back for them.
 */
module Scenarios {
  import opened Wrappers
  import opened Json
  import opened Props
  import opened Objects
  import opened Encoder
  import opened Decoder
  import opened RoundTrip

  const One := Prim(Num(1))

  // ---------------------------------------------------------------------------
  // Helpers for one-entry instances
  // ---------------------------------------------------------------------------

  /** A one-entry instance whose schema parses restores to its one processed object. */
  lemma DecodeSingle(es: Props<seq<Tree>>, keys: seq<string>, res: Decoded)
    requires |es| == 1 && ParseSchema(es[0].0) == Ok(keys)
    requires Resolve(RebuildEntry(keys, es[0].1)) == Ok(res)
    ensures Decode(es) == Ok(Single(res))
  {
    var objs := [RebuildEntry(keys, es[0].1)];
    forall j | 0 <= j < |es|
      ensures Parses(es)[j].Ok? && objs[j] == RebuildEntry(Parses(es)[j].value, es[j].1)
    {
      assert j == 0;
    }
    RebuildAllOk(es, objs);
    ResolveAllAt(objs);
    var rs := ResolveAll(objs);
    assert rs.Ok? && rs.value[0] == res;
    assert rs.value == [res];
  }

  /** Two slots resolved one after the other. */
  lemma ResolveTwo(container: Decoded, v0: Decoded, v1: Decoded, w0: Decoded, w1: Decoded)
    requires container.IsContainer() && v0 < container && v1 < container
    requires ResolveSlot(container, v0) == Ok(w0) && ResolveSlot(container, v1) == Ok(w1)
    ensures ResolveList(container, [v0, v1]) == Ok([w0, w1])
  {
    var one, two := [v0], [v0, v1];
    assert one[..0] == [] && one[..1] == one && two[..1] == one && two[..2] == two;
    ResolveListStep(container, one, 0);
    ResolveListStep(container, two, 1);
    var r1, r2 := ResolveList(container, one), ResolveList(container, two);
    assert r1.Ok? && r1.value == [w0];
    assert r2.Ok? && r2.value == [w0, w1];
  }

  /** The reference pass over an object with two slots, each resolved against the object. */
  lemma ResolvePair(k0: string, v0: Decoded, k1: string, v1: Decoded, w0: Decoded, w1: Decoded)
    requires ResolveSlot(DObj([(k0, v0), (k1, v1)]), v0) == Ok(w0)
    requires ResolveSlot(DObj([(k0, v0), (k1, v1)]), v1) == Ok(w1)
    ensures Resolve(DObj([(k0, v0), (k1, v1)])) == Ok(DObj([(k0, w0), (k1, w1)]))
  {
    var d := DObj([(k0, v0), (k1, v1)]);
    assert d.fields[0] == (k0, v0) && d.fields[1] == (k1, v1);
    assert Values(d.fields) == [v0, v1];
    assert Keys(d.fields) == [k0, k1];
    ResolveTwo(d, v0, v1, w0, w1);
    assert Zip([k0, k1], [w0, w1]) == [(k0, w0), (k1, w1)];
  }

  /** The reference pass over an object with one slot. */
  lemma ResolveSingle(k0: string, v0: Decoded, w0: Decoded)
    requires ResolveSlot(DObj([(k0, v0)]), v0) == Ok(w0)
    ensures Resolve(DObj([(k0, v0)])) == Ok(DObj([(k0, w0)]))
  {
    var d := DObj([(k0, v0)]);
    assert d.fields[0] == (k0, v0);
    assert Values(d.fields) == [v0];
    assert Keys(d.fields) == [k0];
    var one := [v0];
    assert one[..0] == [] && one[..1] == one;
    ResolveListStep(d, one, 0);
    var r := ResolveList(d, one);
    assert r.Ok? && r.value == [w0];
    assert Zip([k0], [w0]) == [(k0, w0)];
  }

  /** An instance of other than one entry, whose schemas parse, restores to the list of its processed objects. */
  lemma DecodeMany(es: Props<seq<Tree>>, keys: seq<seq<string>>, res: seq<Decoded>)
    requires |es| == |keys| == |res| != 1
    requires forall j :: 0 <= j < |es| ==> ParseSchema(es[j].0) == Ok(keys[j])
    requires forall j :: 0 <= j < |es| ==> Resolve(RebuildEntry(keys[j], es[j].1)) == Ok(res[j])
    ensures Decode(es) == Ok(Many(res))
  {
    var objs := seq(|es|, j requires 0 <= j < |es| => RebuildEntry(keys[j], es[j].1));
    RebuildAllOk(es, objs);
    ResolveAllAt(objs);
    assert ResolveAll(objs).value == res;
  }

  // ---------------------------------------------------------------------------
  // Helpers for short slot lists
  // ---------------------------------------------------------------------------

  /** An argument alone: one entry, its schema and the value array computed with an empty registry. */
  lemma EncodeOne(heap: Heap, id: nat)
    requires Closed(heap) && id in heap
    ensures SlotsIn(heap, Entries(heap[id]))
    ensures Encode(heap, [id]) == [(SchemaOf(heap, id), FlattenAll(heap, map[], Entries(heap[id])).trees)]
  {
    SlotsOfNode(heap, id, []);
    var objects := [id];
    assert objects[..0] == [];
    var p := (SchemaOf(heap, id), FlattenAll(heap, map[], Entries(heap[id])).trees);
    assert EncodeEach(heap, map[], objects).pairs == [p];
    AssignSnoc([], p.0, p.1);
    assert [] + [p] == [p];
  }

  /** Two arguments: the second is flattened with the registry the first left behind. */
  lemma EncodeEachTwo(heap: Heap, id0: nat, id1: nat)
    requires Closed(heap) && id0 in heap && id1 in heap
    ensures SlotsIn(heap, Entries(heap[id0])) && SlotsIn(heap, Entries(heap[id1]))
    ensures var f0 := FlattenAll(heap, map[], Entries(heap[id0]));
      var f1 := FlattenAll(heap, f0.seen, Entries(heap[id1]));
      EncodeEach(heap, map[], [id0, id1]).pairs ==
        [(SchemaOf(heap, id0), f0.trees), (SchemaOf(heap, id1), f1.trees)]
  {
    var objects := [id0, id1];
    assert objects[..1] == [id0] && objects[..2] == objects && objects[1] == id1;
    SlotsOfNode(heap, id1, []);
    EncodeEachFirst(heap, id0);
    var e0 := EncodeEach(heap, map[], [id0]);
    var f1 := FlattenAll(heap, e0.seen, Entries(heap[id1]));
    EncodeEachSnoc(heap, map[], objects, 1);
    assert EncodeEach(heap, map[], objects).pairs == e0.pairs + [(SchemaOf(heap, id1), f1.trees)];
  }

  /** The first argument is flattened with an empty registry. */
  lemma EncodeEachFirst(heap: Heap, id0: nat)
    requires Closed(heap) && id0 in heap
    ensures SlotsIn(heap, Entries(heap[id0]))
    ensures var f0 := FlattenAll(heap, map[], Entries(heap[id0]));
      EncodeEach(heap, map[], [id0]) == Run([(SchemaOf(heap, id0), f0.trees)], f0.seen)
  {
    var objects := [id0];
    assert objects[..0] == [] && objects[..1] == objects && objects[0] == id0;
    EncodeEachSnoc(heap, map[], objects, 0);
  }

  /** Two arguments with different schemas give two entries, in argument order. */
  lemma EncodeTwo(heap: Heap, id0: nat, id1: nat)
    requires Closed(heap) && id0 in heap && id1 in heap
    requires SchemaOf(heap, id0) != SchemaOf(heap, id1)
    ensures Encode(heap, [id0, id1]) == EncodeEach(heap, map[], [id0, id1]).pairs
  {
    EncodeEachTwo(heap, id0, id1);
    var f0 := FlattenAll(heap, map[], Entries(heap[id0]));
    var f1 := FlattenAll(heap, f0.seen, Entries(heap[id1]));
    AssignTwo((SchemaOf(heap, id0), f0.trees), (SchemaOf(heap, id1), f1.trees));
  }

  /** Two assignments to different keys give exactly those two properties. */
  lemma AssignTwo<V>(p0: (string, V), p1: (string, V))
    requires p0.0 != p1.0
    ensures Assign([p0, p1]) == [p0, p1]
  {
    assert Keys([p0, p1]) == [p0.0, p1.0];
    AssignOfDistinct([p0, p1]);
  }

  /** A list of one slot. */
  lemma FlattenOne(heap: Heap, seen: Registry, s0: (string, Value))
    requires Closed(heap) && SlotsIn(heap, [s0])
    ensures s0.1.Ref? ==> s0.1.id in heap
    ensures FlattenAll(heap, seen, [s0]) ==
      var f := FlattenSlot(heap, seen, s0); FlatList([f.tree], f.seen)
  {
    var slots := [s0];
    assert slots[0] == s0;
    FlattenAllSnoc(heap, seen, slots, 0);
    assert slots[..0] == [] && slots[..1] == slots;
  }

  /** A list of two slots: the second sees the registry the first left behind. */
  lemma FlattenTwo(heap: Heap, seen: Registry, s0: (string, Value), s1: (string, Value))
    requires Closed(heap) && SlotsIn(heap, [s0, s1])
    ensures s0.1.Ref? ==> s0.1.id in heap
    ensures s1.1.Ref? ==> s1.1.id in heap
    ensures FlattenAll(heap, seen, [s0, s1]) ==
      var f0 := FlattenSlot(heap, seen, s0);
      var f1 := FlattenSlot(heap, f0.seen, s1);
      FlatList([f0.tree, f1.tree], f1.seen)
  {
    var slots := [s0, s1];
    assert slots[0] == s0 && slots[1] == s1;
    assert slots[..1] == [s0] && slots[..2] == slots;
    FlattenOne(heap, seen, s0);
    FlattenAllSnoc(heap, seen, slots, 1);
  }

  // ---------------------------------------------------------------------------
  // A shared sibling: {x: s, y: s} with s = {a: 1}
  // ---------------------------------------------------------------------------

  const Shared: Heap := map[
    0 := ObjectNode([("x", Ref(1)), ("y", Ref(1))]),
    1 := ObjectNode([("a", One)])
  ]

  lemma SharedIsClosed()
    ensures Closed(Shared)
  {
    assert Keys([("x", Ref(1)), ("y", Ref(1))]) == ["x", "y"];
    assert Keys([("a", One)]) == ["a"];
    assert NodeClosed(Shared, 0);
    assert NodeClosed(Shared, 1);
  }

  /** The first time s is reached, under "x", it is registered as "x" and expanded. */
  lemma SharedFirstVisit()
    ensures Closed(Shared)
    ensures Flatten(Shared, map[], 1, "x") == Flat(Obj([("a", Leaf(Num(1)))]), map[1 := "x"])
  {
    SharedIsClosed();
    var seen: Registry := map[1 := "x"];
    assert map[][1 := "x"] == seen;
    FlattenOne(Shared, seen, ("a", One));
    assert Keys([("a", One)]) == ["a"];
    assert Zip(["a"], [Leaf(Num(1))]) == [("a", Leaf(Num(1)))];
  }

  /** The second time, under "y", it becomes the marker of its first label. */
  lemma SharedSecondVisit()
    ensures Closed(Shared)
    ensures Flatten(Shared, map[1 := "x"], 1, "y") == Flat(Text("{x}"), map[1 := "x"])
  {
    SharedIsClosed();
    assert Marker("x") == "{x}";
  }

  /** The constructor stores one entry: the object's expansion under "x" and the marker "{x}" under "y". */
  lemma SharedEncodes()
    ensures Closed(Shared)
    ensures Encode(Shared, [0]) ==
      [(SchemaText(["x", "y"]), [Obj([("a", Leaf(Num(1)))]), Text("{x}")])]
  {
    SharedIsClosed();
    assert Entries(Shared[0]) == [("x", Ref(1)), ("y", Ref(1))];
    EncodeOne(Shared, 0);
    SharedFirstVisit();
    SharedSecondVisit();
    FlattenTwo(Shared, map[], ("x", Ref(1)), ("y", Ref(1)));
    assert Keys(Entries(Shared[0])) == ["x", "y"];
  }

  /** The first pass copies the entry: "x" bound to a copy of s, "y" to the text "{x}". */
  lemma SharedRebuilds()
    ensures RebuildEntry(["x", "y"], [Obj([("a", Leaf(Num(1)))]), Text("{x}")]) ==
      DObj([("x", DObj([("a", DLeaf(Num(1)))])), ("y", DText("{x}"))])
  {
    var t := Obj([("a", Leaf(Num(1)))]);
    assert Rebuild(t).fields == [("a", DLeaf(Num(1)))];
    var d := RebuildEntry(["x", "y"], [t, Text("{x}")]);
    assert d.fields == [("x", Rebuild(t)), ("y", DText("{x}"))];
  }

  /** The reference pass resolves "{x}" to the object that holds it. */
  lemma SharedResolves()
    ensures var inner := DObj([("a", DLeaf(Num(1)))]);
      Resolve(DObj([("x", inner), ("y", DText("{x}"))])) == Ok(DObj([("x", inner), ("y", Owner)]))
  {
    var inner := DObj([("a", DLeaf(Num(1)))]);
    SharedInnerSlot();
    SharedMarkerSlot();
    ResolvePair("x", inner, "y", DText("{x}"), inner, Owner);
  }

  lemma SharedInnerSlot()
    ensures var inner := DObj([("a", DLeaf(Num(1)))]);
      ResolveSlot(DObj([("x", inner), ("y", DText("{x}"))]), inner) == Ok(inner)
  {
    var inner := DObj([("a", DLeaf(Num(1)))]);
    assert Unmarked(inner);
    ResolveUnmarked(inner);
  }

  lemma SharedMarkerSlot()
    ensures var inner := DObj([("a", DLeaf(Num(1)))]);
      ResolveSlot(DObj([("x", inner), ("y", DText("{x}"))]), DText("{x}")) == Ok(Owner)
  {
    var d := DObj([("x", DObj([("a", DLeaf(Num(1)))])), ("y", DText("{x}"))]);
    assert Label("{x}") == "x";
    assert Keys(d.fields) == ["x", "y"];
    assert "x" in OwnKeys(d) && !Shadowed(d);
  }

  /**
   * toOriginalStructure gives the object back with "x" restored and "y" bound
   * to the outer object, since the marker's label "x" is an own key of the
   * object that holds it.
   */
  lemma SharedRestores()
    ensures Closed(Shared)
    ensures Decode(Encode(Shared, [0])) ==
      Ok(Single(DObj([("x", DObj([("a", DLeaf(Num(1)))])), ("y", Owner)])))
  {
    SharedEncodes();
    SharedEntryDecodes();
  }

  lemma SharedEntryDecodes()
    ensures Decode([(SchemaText(["x", "y"]), [Obj([("a", Leaf(Num(1)))]), Text("{x}")])]) ==
      Ok(Single(DObj([("x", DObj([("a", DLeaf(Num(1)))])), ("y", Owner)])))
  {
    SchemaRoundTrip(["x", "y"]);
    SharedRebuilds();
    SharedResolves();
    DecodeSingle([(SchemaText(["x", "y"]), [Obj([("a", Leaf(Num(1)))]), Text("{x}")])],
      ["x", "y"], DObj([("x", DObj([("a", DLeaf(Num(1)))])), ("y", Owner)]));
  }

  // ---------------------------------------------------------------------------
  // A string of the user's that looks like a marker: {x: 1, y: "{x}"}
  // ---------------------------------------------------------------------------

  const Lookalike: Heap := map[0 := ObjectNode([("x", One), ("y", Str("{x}"))])]

  /** The constructor stores the string as it is: it cannot be told from a marker. */
  lemma LookalikeEncodes()
    ensures Closed(Lookalike)
    ensures Encode(Lookalike, [0]) == [(SchemaText(["x", "y"]), [Leaf(Num(1)), Text("{x}")])]
  {
    assert Keys([("x", One), ("y", Str("{x}"))]) == ["x", "y"];
    assert NodeClosed(Lookalike, 0);
    EncodeOne(Lookalike, 0);
    FlattenTwo(Lookalike, map[], ("x", One), ("y", Str("{x}")));
  }

  /** toOriginalStructure replaces the user's string by the object that holds it. */
  lemma LookalikeRestores()
    ensures Closed(Lookalike)
    ensures Decode(Encode(Lookalike, [0])) == Ok(Single(DObj([("x", DLeaf(Num(1))), ("y", Owner)])))
  {
    LookalikeEncodes();
    LookalikeEntryDecodes();
  }

  lemma LookalikeEntryDecodes()
    ensures Decode([(SchemaText(["x", "y"]), [Leaf(Num(1)), Text("{x}")])]) ==
      Ok(Single(DObj([("x", DLeaf(Num(1))), ("y", Owner)])))
  {
    SchemaRoundTrip(["x", "y"]);
    LookalikeRebuilds();
    LookalikeResolves();
    DecodeSingle([(SchemaText(["x", "y"]), [Leaf(Num(1)), Text("{x}")])], ["x", "y"],
      DObj([("x", DLeaf(Num(1))), ("y", Owner)]));
  }

  lemma LookalikeRebuilds()
    ensures RebuildEntry(["x", "y"], [Leaf(Num(1)), Text("{x}")]) ==
      DObj([("x", DLeaf(Num(1))), ("y", DText("{x}"))])
  {
    var d := RebuildEntry(["x", "y"], [Leaf(Num(1)), Text("{x}")]);
    assert d.fields == [("x", DLeaf(Num(1))), ("y", DText("{x}"))];
  }

  lemma LookalikeResolves()
    ensures Resolve(DObj([("x", DLeaf(Num(1))), ("y", DText("{x}"))])) ==
      Ok(DObj([("x", DLeaf(Num(1))), ("y", Owner)]))
  {
    var d := DObj([("x", DLeaf(Num(1))), ("y", DText("{x}"))]);
    assert Label("{x}") == "x";
    assert Keys(d.fields) == ["x", "y"];
    assert "x" in OwnKeys(d) && !Shadowed(d);
    ResolvePair("x", DLeaf(Num(1)), "y", DText("{x}"), DLeaf(Num(1)), Owner);
  }

  // ---------------------------------------------------------------------------
  // An object that holds itself: {me: <itself>}
  // ---------------------------------------------------------------------------

  const Loop: Heap := map[0 := ObjectNode([("me", Ref(0))])]

  /**
   * The argument itself is not registered: its slot "me" expands it once
   * more under "me", and inside that copy the slot becomes "{me}".
   */
  lemma LoopEncodes()
    ensures Closed(Loop)
    ensures Encode(Loop, [0]) == [(SchemaText(["me"]), [Obj([("me", Text("{me}"))])])]
  {
    assert Keys([("me", Ref(0))]) == ["me"];
    assert NodeClosed(Loop, 0);
    var seen: Registry := map[0 := "me"];
    assert map[][0 := "me"] == seen;
    assert Marker("me") == "{me}";
    FlattenOne(Loop, seen, ("me", Ref(0)));
    assert Zip(["me"], [Text("{me}")]) == [("me", Text("{me}"))];
    EncodeOne(Loop, 0);
    FlattenOne(Loop, map[], ("me", Ref(0)));
  }

  /**
   * toOriginalStructure gives back an object whose "me" is a copy whose own
   * "me" is that copy: the cycle closes one level down.
   */
  lemma LoopRestores()
    ensures Closed(Loop)
    ensures Decode(Encode(Loop, [0])) == Ok(Single(DObj([("me", DObj([("me", Owner)]))])))
  {
    LoopEncodes();
    LoopEntryDecodes();
  }

  lemma LoopEntryDecodes()
    ensures Decode([(SchemaText(["me"]), [Obj([("me", Text("{me}"))])])]) ==
      Ok(Single(DObj([("me", DObj([("me", Owner)]))])))
  {
    SchemaRoundTrip(["me"]);
    LoopRebuilds();
    LoopResolves();
    DecodeSingle([(SchemaText(["me"]), [Obj([("me", Text("{me}"))])])], ["me"],
      DObj([("me", DObj([("me", Owner)]))]));
  }

  lemma LoopRebuilds()
    ensures RebuildEntry(["me"], [Obj([("me", Text("{me}"))])]) ==
      DObj([("me", DObj([("me", DText("{me}"))]))])
  {
    var t := Obj([("me", Text("{me}"))]);
    assert Rebuild(t).fields == [("me", DText("{me}"))];
    var d := RebuildEntry(["me"], [t]);
    assert d.fields == [("me", Rebuild(t))];
  }

  lemma LoopResolves()
    ensures Resolve(DObj([("me", DObj([("me", DText("{me}"))]))])) ==
      Ok(DObj([("me", DObj([("me", Owner)]))]))
  {
    var inner := DObj([("me", DText("{me}"))]);
    assert Label("{me}") == "me";
    assert Keys(inner.fields) == ["me"];
    assert "me" in OwnKeys(inner) && !Shadowed(inner);
    ResolveSingle("me", DText("{me}"), Owner);
    ResolveSingle("me", inner, DObj([("me", Owner)]));
  }

  // ---------------------------------------------------------------------------
  // Names found on the prototype chain, and a shadowed hasOwnProperty
  // ---------------------------------------------------------------------------

  /** "{toString}" in a plain object names Object.prototype.toString. */
  lemma InheritedNameResolves()
    ensures Resolve(DObj([("t", DText("{toString}"))])) == Ok(DObj([("t", Builtin(ObjectPrototype))]))
  {
    var d := DObj([("t", DText("{toString}"))]);
    assert Label("{toString}") == "toString";
    assert Keys(d.fields) == ["t"];
    assert "toString" !in OwnKeys(d) && !Shadowed(d);
    ResolveSingle("t", DText("{toString}"), Builtin(ObjectPrototype));
  }

  /** "{push}" in an array names Array.prototype.push; in an object it names nothing and stays text. */
  lemma ArrayNameResolves()
    ensures Resolve(DArr([DText("{push}")])) == Ok(DArr([Builtin(ArrayPrototype)]))
    ensures Resolve(DObj([("p", DText("{push}"))])) == Ok(DObj([("p", DText("{push}"))]))
  {
    var a := DArr([DText("{push}")]);
    assert Label("{push}") == "push";
    assert "push" !in OwnKeys(a) by {
      assert OwnKeys(a) == {NatToString(0), "length"};
      assert NatToString(0) == "0";
    }
    var one := [DText("{push}")];
    assert one[..0] == [] && one[..1] == one;
    ResolveListStep(a, one, 0);
    var r := ResolveList(a, one);
    assert r.Ok? && r.value == [Builtin(ArrayPrototype)];
    var o := DObj([("p", DText("{push}"))]);
    assert Keys(o.fields) == ["p"];
    assert "push" !in OwnKeys(o) && !Shadowed(o);
    ResolveSingle("p", DText("{push}"), DText("{push}"));
  }

  /** An object with its own "hasOwnProperty" makes the lookup of any marker throw. */
  lemma ShadowedLookupThrows()
    ensures Resolve(DObj([("hasOwnProperty", DLeaf(Num(1))), ("y", DText("{y}"))])) == Err(NotAFunction)
  {
    var d := DObj([("hasOwnProperty", DLeaf(Num(1))), ("y", DText("{y}"))]);
    assert Keys(d.fields) == ["hasOwnProperty", "y"];
    assert Shadowed(d);
    assert d.fields[1].1 == DText("{y}");
    assert SlotThrows(d, d.fields[1].1);
    ResolveFails(d);
  }

  // ---------------------------------------------------------------------------
  // One object reached from two arguments: ({a: s}, {b: s}) with s = {}
  // ---------------------------------------------------------------------------

  const Across: Heap := map[
    0 := ObjectNode([("a", Ref(2))]),
    1 := ObjectNode([("b", Ref(2))]),
    2 := ObjectNode([])
  ]

  lemma AcrossIsClosed()
    ensures Closed(Across)
  {
    assert Keys([("a", Ref(2))]) == ["a"] && Keys([("b", Ref(2))]) == ["b"];
    assert NodeClosed(Across, 0) && NodeClosed(Across, 1) && NodeClosed(Across, 2);
  }

  /** The first argument expands s under its key "a" and registers it as "a". */
  lemma AcrossFirst()
    ensures Closed(Across)
    ensures FlattenAll(Across, map[], [("a", Ref(2))]) == FlatList([Obj([])], map[2 := "a"])
  {
    AcrossIsClosed();
    var noTrees: seq<Tree> := [];
    assert Zip([], noTrees) == [];
    assert map[][2 := "a"] == map[2 := "a"];
    FlattenOne(Across, map[], ("a", Ref(2)));
  }

  /** The second argument finds s registered and stores the marker "{a}". */
  lemma AcrossSecond()
    ensures Closed(Across)
    ensures FlattenAll(Across, map[2 := "a"], [("b", Ref(2))]) == FlatList([Text("{a}")], map[2 := "a"])
  {
    AcrossIsClosed();
    assert Marker("a") == "{a}";
    FlattenOne(Across, map[2 := "a"], ("b", Ref(2)));
  }

  /** The registry is shared by all arguments: the second one stores the marker of the first one's label. */
  lemma AcrossEncodes()
    ensures Closed(Across)
    ensures Encode(Across, [0, 1]) ==
      [(SchemaText(["a"]), [Obj([])]), (SchemaText(["b"]), [Text("{a}")])]
  {
    AcrossIsClosed();
    assert Keys(Entries(Across[0])) == ["a"] && Keys(Entries(Across[1])) == ["b"];
    SchemaRoundTrip(["a"]);
    SchemaRoundTrip(["b"]);
    EncodeEachTwo(Across, 0, 1);
    EncodeTwo(Across, 0, 1);
    AcrossFirst();
    AcrossSecond();
  }

  /**
   * toOriginalStructure restores the first argument, but the second keeps the
   * text "{a}": it has no key "a" and no prototype has that name.
   */
  lemma AcrossRestores()
    ensures Closed(Across)
    ensures Decode(Encode(Across, [0, 1])) ==
      Ok(Many([DObj([("a", DObj([]))]), DObj([("b", DText("{a}"))])]))
  {
    AcrossEncodes();
    SchemaRoundTrip(["a"]);
    SchemaRoundTrip(["b"]);
    AcrossEntriesDecode(SchemaText(["a"]), SchemaText(["b"]));
  }

  lemma AcrossEntriesDecode(schema0: string, schema1: string)
    requires ParseSchema(schema0) == Ok(["a"]) && ParseSchema(schema1) == Ok(["b"])
    ensures Decode([(schema0, [Obj([])]), (schema1, [Text("{a}")])]) ==
      Ok(Many([DObj([("a", DObj([]))]), DObj([("b", DText("{a}"))])]))
  {
    AcrossRebuilds();
    AcrossFirstResolves();
    AcrossSecondResolves();
    var es := [(schema0, [Obj([])]), (schema1, [Text("{a}")])];
    var keys := [["a"], ["b"]];
    var res := [DObj([("a", DObj([]))]), DObj([("b", DText("{a}"))])];
    forall j | 0 <= j < |es|
      ensures ParseSchema(es[j].0) == Ok(keys[j])
      ensures Resolve(RebuildEntry(keys[j], es[j].1)) == Ok(res[j])
    {
      if j == 0 {
        assert es[j] == (schema0, [Obj([])]);
      } else {
        assert es[j] == (schema1, [Text("{a}")]);
      }
    }
    DecodeMany(es, keys, res);
  }

  lemma AcrossRebuilds()
    ensures RebuildEntry(["a"], [Obj([])]) == DObj([("a", DObj([]))])
    ensures RebuildEntry(["b"], [Text("{a}")]) == DObj([("b", DText("{a}"))])
  {
    assert Rebuild(Obj([])).fields == [];
    assert RebuildEntry(["a"], [Obj([])]).fields == [("a", DObj([]))];
    assert RebuildEntry(["b"], [Text("{a}")]).fields == [("b", DText("{a}"))];
  }

  /** The first object holds no marker: the reference pass leaves it alone. */
  lemma AcrossFirstResolves()
    ensures Resolve(DObj([("a", DObj([]))])) == Ok(DObj([("a", DObj([]))]))
  {
    var d := DObj([("a", DObj([]))]);
    assert d.fields[0].1 == DObj([]) && Unmarked(DObj([]));
    ResolveUnmarked(d);
  }

  /** In the second object, "a" is neither an own key nor a prototype name: "{a}" stays text. */
  lemma AcrossSecondResolves()
    ensures Resolve(DObj([("b", DText("{a}"))])) == Ok(DObj([("b", DText("{a}"))]))
  {
    var d := DObj([("b", DText("{a}"))]);
    assert Label("{a}") == "a";
    assert Keys(d.fields) == ["b"];
    assert "a" !in OwnKeys(d) && !Shadowed(d);
    ResolveSingle("b", DText("{a}"), DText("{a}"));
  }

  // ---------------------------------------------------------------------------
  // A nested argument: {a: [1, "s"]}
  // ---------------------------------------------------------------------------

  const Nested: Heap := map[
    0 := ObjectNode([("a", Ref(1))]),
    1 := ArrayNode([One, Str("s")])
  ]

  /** The array ranks below the object that holds it. */
  const NestedRank: Rank := map[0 := 1, 1 := 0]

  lemma NestedIsClosed()
    ensures Closed(Nested) && Ranked(Nested, NestedRank)
  {
    assert Keys([("a", Ref(1))]) == ["a"];
    assert NodeClosed(Nested, 0);
    assert Entries(Nested[1])[0].1 == One && Entries(Nested[1])[1].1 == Str("s");
    assert NodeClosed(Nested, 1);
    assert Values(Entries(Nested[0])) == [Ref(1)];
    assert RankedNode(Nested, NestedRank, 0);
    assert Values(Entries(Nested[1])) == [One, Str("s")];
    assert RankedNode(Nested, NestedRank, 1);
  }

  /** The array is reached once and holds no marker-shaped string. */
  lemma NestedIsTree()
    ensures Closed(Nested) && Ranked(Nested, NestedRank) && AllIn(Nested, [0])
    ensures TreeArgs(Nested, NestedRank, [0])
  {
    NestedIsClosed();
    var vs1 := [One, Str("s")];
    assert Values(Entries(Nested[1])) == vs1;
    assert vs1[..1] == [One] && [One][..0] == [];
    assert TreeShapedAll(Nested, NestedRank, 0, [One]);
    assert !IsMarker("s");
    assert TreeShapedAll(Nested, NestedRank, 0, vs1);
    assert TreeShaped(Nested, NestedRank, 1);
    var vs0 := [Ref(1)];
    assert Values(Entries(Nested[0])) == vs0;
    assert vs0[..0] == [];
    assert TreeShapedAll(Nested, NestedRank, 1, vs0);
    assert TreeShaped(Nested, NestedRank, 0);
  }

  /** The deep value of the argument: "a" bound to the array [1, "s"]. */
  lemma NestedUnfolds()
    ensures Closed(Nested) && Ranked(Nested, NestedRank)
    ensures Unfolded(Nested, NestedRank, 0) == DObj([("a", DArr([DLeaf(Num(1)), DText("s")]))])
  {
    NestedIsClosed();
    assert Values(Entries(Nested[1])) == [One, Str("s")];
    var inner := Unfold(Nested, NestedRank, 1);
    assert inner.items == [DLeaf(Num(1)), DText("s")];
    assert Values(Entries(Nested[0])) == [Ref(1)];
    var d := Unfolded(Nested, NestedRank, 0);
    assert d.fields == [("a", inner)];
  }

  /** toOriginalStructure gives the nested argument back deep-equal. */
  lemma NestedRestores()
    ensures Closed(Nested) && AllIn(Nested, [0])
    ensures Decode(Encode(Nested, [0])) == Ok(Single(DObj([("a", DArr([DLeaf(Num(1)), DText("s")]))])))
  {
    NestedIsTree();
    NestedRoundTrip(Nested, NestedRank, [0]);
    NestedUnfolds();
  }

  // ---------------------------------------------------------------------------
  // An array argument: [7]
  // ---------------------------------------------------------------------------

  const ArrayArg: Heap := map[0 := ArrayNode([Prim(Num(7))])]

  /**
   * Every entry is restored into a fresh plain object, so an array argument
   * comes back as an object keyed by its indices: [7] gives {"0": 7}.
   */
  lemma ArrayArgumentRestores()
    ensures Closed(ArrayArg) && AllIn(ArrayArg, [0])
    ensures Decode(Encode(ArrayArg, [0])) == Ok(Single(DObj([("0", DLeaf(Num(7)))])))
  {
    var n := ArrayArg[0];
    assert NatToString(0) == "0";
    assert Entries(n) == [("0", Prim(Num(7)))];
    assert NodeClosed(ArrayArg, 0);
    assert FlatNode(n);
    assert Restore(n).fields == [("0", DLeaf(Num(7)))];
    FlatRoundTrip(ArrayArg, [0]);
  }
}
