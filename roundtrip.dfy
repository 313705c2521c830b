/**
 * What toOriginalStructure gives back for an instance the constructor built:
 * the schemas it stores always parse, arguments without nested objects come
 * back as they were, and shared or self-referring objects come back as the
 * reference pass rewrites them.
 */
module RoundTrip {
  import opened Wrappers
  import opened Json
  import opened Props
  import opened Objects
  import opened Encoder
  import opened Decoder

  // ---------------------------------------------------------------------------
  // Schemas of a constructed instance
  // ---------------------------------------------------------------------------

  /** Every schema the constructor stores parses back to the keys of an argument with that schema. */
  lemma EncodedSchemasParse(heap: Heap, objects: seq<nat>)
    requires Closed(heap) && AllIn(heap, objects)
    ensures forall i :: 0 <= i < |Encode(heap, objects)| ==>
      exists j :: 0 <= j < |objects| &&
        ParseSchema(Encode(heap, objects)[i].0) == Ok(Keys(Entries(heap[objects[j]])))
  {
    var es := Encode(heap, objects);
    var ss := Schemas(heap, objects);
    EncodeKeys(heap, objects);
    forall i | 0 <= i < |es|
      ensures exists j :: 0 <= j < |objects| && ParseSchema(es[i].0) == Ok(Keys(Entries(heap[objects[j]])))
    {
      assert es[i].0 in Keys(es);
      var j :| 0 <= j < |ss| && ss[j] == es[i].0;
      SchemaOfParses(heap, objects[j]);
    }
  }

  /**
   * Hence restoring a constructed instance never fails at JSON.parse: it
   * throws exactly when some restored object holds a marker-shaped string
   * and has an own "hasOwnProperty" property.
   */
  lemma DecodeOfEncodeFails(heap: Heap, objects: seq<nat>)
    requires Closed(heap) && AllIn(heap, objects)
    ensures var es := Encode(heap, objects);
      Decode(es).Err? <==>
        exists i :: 0 <= i < |es| && ParseSchema(es[i].0).Ok? &&
          Throws(RebuildEntry(ParseSchema(es[i].0).value, es[i].1))
  {
    var es := Encode(heap, objects);
    EncodedSchemasParse(heap, objects);
    DecodeFails(es);
  }

  // ---------------------------------------------------------------------------
  // Arguments without nested objects
  // ---------------------------------------------------------------------------

  /** A property value that is stored as it is and that the reference pass leaves alone. */
  predicate Inert(v: Value) {
    match v
    case Prim(_) => true
    case Str(s) => !IsMarker(s)
    case Ref(_) => false
  }

  /** An argument whose values are primitives and strings that are not marker-shaped. */
  predicate FlatNode(n: HeapNode) {
    forall i :: 0 <= i < |Entries(n)| ==> Inert(Entries(n)[i].1)
  }

  function Copy(v: Value): (d: Decoded)
    requires Inert(v)
    ensures Unmarked(d) && !d.IsContainer()
  {
    match v
    case Prim(a) => DLeaf(a)
    case Str(s) => DText(s)
  }

  /**
   * The object a flat argument should come back as: its own keys in order,
   * each with its value. An array argument comes back as an object keyed by
   * its indices.
   */
  function Restore(n: HeapNode): (d: Decoded)
    requires FlatNode(n)
    ensures d.DObj? && Keys(d.fields) == Keys(Entries(n)) && Unmarked(d)
  {
    var es := Entries(n);
    var fs := seq(|es|, i requires 0 <= i < |es| => (es[i].0, Copy(es[i].1)));
    assert Keys(fs) == Keys(es);
    DObj(fs)
  }

  /** A flat argument's entry rebuilds to the restored argument, which the reference pass leaves alone. */
  lemma FlatEntry(heap: Heap, seen: Registry, id: nat)
    requires Closed(heap) && id in heap && FlatNode(heap[id])
    ensures RebuildEntry(Keys(Entries(heap[id])), EncodeObject(heap, seen, id).values) == Restore(heap[id])
    ensures Resolve(Restore(heap[id])) == Ok(Restore(heap[id]))
  {
    var es := Entries(heap[id]);
    var trees := EncodeObject(heap, seen, id).values;
    FlatValues(heap, seen, id);
    var d := RebuildEntry(Keys(es), trees);
    var e := Restore(heap[id]);
    forall i | 0 <= i < |es| ensures d.fields[i] == e.fields[i] {
      assert d.fields[i].1 == Rebuild(trees[i]);
    }
    assert d.fields == e.fields;
    ResolveUnmarked(e);
  }

  /** The value array of a flat argument holds its values unchanged. */
  lemma FlatValues(heap: Heap, seen: Registry, id: nat)
    requires Closed(heap) && id in heap && FlatNode(heap[id])
    ensures var es := Entries(heap[id]);
      var trees := EncodeObject(heap, seen, id).values;
      forall i :: 0 <= i < |es| ==> Rebuild(trees[i]) == Copy(es[i].1)
  {
    var es := Entries(heap[id]);
    SlotsOfNode(heap, id, []);
    FlattenAllPassesThrough(heap, seen, es);
    assert EncodeObject(heap, seen, id).values == FlattenAll(heap, seen, es).trees;
  }

  /** The reference pass over objects it leaves alone one by one leaves them all alone. */
  lemma ResolveAllUnchanged(objs: seq<Decoded>)
    requires forall i :: 0 <= i < |objs| ==> Resolve(objs[i]) == Ok(objs[i])
    ensures ResolveAll(objs) == Ok(objs)
  {
    ResolveAllAt(objs);
    assert ResolveAll(objs).value == objs;
  }

  /** The restored arguments, in argument order. */
  function RestoreAll(heap: Heap, objects: seq<nat>): (ds: seq<Decoded>)
    requires AllIn(heap, objects)
    requires forall i :: 0 <= i < |objects| ==> FlatNode(heap[objects[i]])
    ensures |ds| == |objects|
    ensures forall i :: 0 <= i < |objects| ==> ds[i] == Restore(heap[objects[i]])
  {
    seq(|objects|, i requires 0 <= i < |objects| => Restore(heap[objects[i]]))
  }

  /**
   * Flat arguments with pairwise different key lists come back as Restore
   * gives them: one object per argument, in argument order, the object itself
   * when there is one argument. An object argument comes back exactly; an
   * array argument as an object keyed by its indices.
   */
  lemma FlatRoundTrip(heap: Heap, objects: seq<nat>)
    requires Closed(heap) && AllIn(heap, objects)
    requires forall i :: 0 <= i < |objects| ==> FlatNode(heap[objects[i]])
    requires forall i, j :: 0 <= i < j < |objects| ==>
      Keys(Entries(heap[objects[i]])) != Keys(Entries(heap[objects[j]]))
    ensures Decode(Encode(heap, objects)) ==
      Ok(if |objects| == 1 then Single(Restore(heap[objects[0]])) else Many(RestoreAll(heap, objects)))
  {
    var es := Encode(heap, objects);
    var ds := RestoreAll(heap, objects);
    EncodeOfDistinctKeyLists(heap, objects);
    forall j | 0 <= j < |es|
      ensures Parses(es)[j].Ok? && ds[j] == RebuildEntry(Parses(es)[j].value, es[j].1)
      ensures Resolve(ds[j]) == Ok(ds[j])
    {
      FlatPairAt(heap, objects, j);
    }
    RebuildAllOk(es, ds);
    ResolveAllUnchanged(ds);
  }

  /** The pair of flat argument j parses back to its keys and rebuilds to the restored argument. */
  lemma FlatPairAt(heap: Heap, objects: seq<nat>, j: nat)
    requires Closed(heap) && AllIn(heap, objects) && j < |objects|
    requires FlatNode(heap[objects[j]])
    ensures var p := EncodeEach(heap, map[], objects).pairs[j];
      ParseSchema(p.0) == Ok(Keys(Entries(heap[objects[j]]))) &&
      RebuildEntry(Keys(Entries(heap[objects[j]])), p.1) == Restore(heap[objects[j]]) &&
      Resolve(Restore(heap[objects[j]])) == Ok(Restore(heap[objects[j]]))
  {
    EncodeEachAt(heap, map[], objects, j);
    SchemaOfParses(heap, objects[j]);
    FlatEntry(heap, EncodeEach(heap, map[], objects[..j]).seen, objects[j]);
  }

  // ---------------------------------------------------------------------------
  // Tree-shaped arguments
  // ---------------------------------------------------------------------------

  /** A ranking of heap identities. */
  type Rank = map<nat, nat>

  /** A value that, when it is a reference, names a heap object ranked below bound. */
  predicate RefBelow(heap: Heap, rank: Rank, bound: nat, v: Value) {
    v.Ref? ==> v.id in heap && v.id in rank && rank[v.id] < bound
  }

  predicate Below(heap: Heap, rank: Rank, bound: nat, vs: seq<Value>) {
    forall i :: 0 <= i < |vs| ==> RefBelow(heap, rank, bound, vs[i])
  }

  /** The objects that id refers to are ranked below it. */
  predicate RankedNode(heap: Heap, rank: Rank, id: nat)
    requires id in heap && id in rank
  {
    Below(heap, rank, rank[id], Values(Entries(heap[id])))
  }

  /** Every object refers only to objects of lower rank: the heap has no cycle. */
  predicate Ranked(heap: Heap, rank: Rank) {
    heap.Keys <= rank.Keys &&
    forall id {:trigger RankedNode(heap, rank, id)} :: id in heap ==> RankedNode(heap, rank, id)
  }

  /**
   * The deep value of a heap object in an acyclic heap: the structure a
   * faithful copy of the object has, arrays as arrays and objects with their
   * keys in order.
   */
  function Unfold(heap: Heap, rank: Rank, id: nat): (d: Decoded)
    requires Ranked(heap, rank) && id in heap
    ensures heap[id].ArrayNode? ==> d.DArr? && |d.items| == |heap[id].items|
    ensures heap[id].ObjectNode? ==> d.DObj? && Keys(d.fields) == Keys(heap[id].fields)
    decreases rank[id], 2
  {
    assert RankedNode(heap, rank, id);
    var ds := UnfoldAll(heap, rank, rank[id], Values(Entries(heap[id])));
    match heap[id]
    case ArrayNode(_) => DArr(ds)
    case ObjectNode(fields) => DObj(Zip(Keys(fields), ds))
  }

  function UnfoldValue(heap: Heap, rank: Rank, bound: nat, v: Value): Decoded
    requires Ranked(heap, rank) && RefBelow(heap, rank, bound, v)
    decreases bound, 0
  {
    match v
    case Prim(a) => DLeaf(a)
    case Str(s) => DText(s)
    case Ref(id) => Unfold(heap, rank, id)
  }

  function UnfoldAll(heap: Heap, rank: Rank, bound: nat, vs: seq<Value>): (ds: seq<Decoded>)
    requires Ranked(heap, rank) && Below(heap, rank, bound, vs)
    ensures |ds| == |vs|
    ensures forall i :: 0 <= i < |vs| ==> ds[i] == UnfoldValue(heap, rank, bound, vs[i])
    decreases bound, 1
  {
    seq(|vs|, i requires 0 <= i < |vs| => UnfoldValue(heap, rank, bound, vs[i]))
  }

  /** The identities reachable from id, id included. */
  function Reach(heap: Heap, rank: Rank, id: nat): (r: set<nat>)
    requires Ranked(heap, rank) && id in heap
    ensures id in r
    ensures forall x :: x in r ==> x in heap && x in rank && rank[x] <= rank[id]
    decreases rank[id], 2
  {
    assert RankedNode(heap, rank, id);
    {id} + ReachAll(heap, rank, rank[id], Values(Entries(heap[id])))
  }

  function ReachOf(heap: Heap, rank: Rank, bound: nat, v: Value): (r: set<nat>)
    requires Ranked(heap, rank) && RefBelow(heap, rank, bound, v)
    ensures forall x :: x in r ==> x in heap && x in rank && rank[x] < bound
    decreases bound, 0
  {
    if v.Ref? then Reach(heap, rank, v.id) else {}
  }

  /** The identities reachable from the values. */
  function ReachAll(heap: Heap, rank: Rank, bound: nat, vs: seq<Value>): (r: set<nat>)
    requires Ranked(heap, rank) && Below(heap, rank, bound, vs)
    ensures forall x :: x in r ==> x in heap && x in rank && rank[x] < bound
    decreases bound, 1, |vs|
  {
    if vs == [] then {}
    else
      var n := |vs| - 1;
      assert Below(heap, rank, bound, vs[..n]);
      ReachAll(heap, rank, bound, vs[..n]) + ReachOf(heap, rank, bound, vs[n])
  }

  /**
   * An object below which no string is marker-shaped and no identity is
   * reached twice: each of its slots reaches objects that no earlier slot
   * reaches, and each object it refers to is tree-shaped too.
   */
  predicate TreeShaped(heap: Heap, rank: Rank, id: nat)
    requires Ranked(heap, rank) && id in heap
    decreases rank[id], 2
  {
    assert RankedNode(heap, rank, id);
    TreeShapedAll(heap, rank, rank[id], Values(Entries(heap[id])))
  }

  predicate TreeShapedAll(heap: Heap, rank: Rank, bound: nat, vs: seq<Value>)
    requires Ranked(heap, rank) && Below(heap, rank, bound, vs)
    decreases bound, 1, |vs|
  {
    if vs == [] then true
    else
      var n := |vs| - 1;
      assert Below(heap, rank, bound, vs[..n]);
      TreeShapedAll(heap, rank, bound, vs[..n]) &&
      match vs[n]
      case Prim(_) => true
      case Str(s) => !IsMarker(s)
      case Ref(c) =>
        TreeShaped(heap, rank, c) &&
        Reach(heap, rank, c) !! ReachAll(heap, rank, bound, vs[..n])
  }

  /** Unpacks TreeShapedAll for the last value: the prefix and the last value each meet it. */
  lemma TreeShapedAllSnoc(heap: Heap, rank: Rank, bound: nat, vs: seq<Value>)
    requires Ranked(heap, rank) && Below(heap, rank, bound, vs) && vs != []
    ensures Below(heap, rank, bound, vs[..|vs| - 1]) && RefBelow(heap, rank, bound, vs[|vs| - 1])
    ensures ReachAll(heap, rank, bound, vs) ==
      ReachAll(heap, rank, bound, vs[..|vs| - 1]) + ReachOf(heap, rank, bound, vs[|vs| - 1])
    ensures TreeShapedAll(heap, rank, bound, vs) ==>
      TreeShapedAll(heap, rank, bound, vs[..|vs| - 1]) &&
      (vs[|vs| - 1].Str? ==> !IsMarker(vs[|vs| - 1].s)) &&
      (vs[|vs| - 1].Ref? ==> TreeShaped(heap, rank, vs[|vs| - 1].id)) &&
      ReachOf(heap, rank, bound, vs[|vs| - 1]) !! ReachAll(heap, rank, bound, vs[..|vs| - 1])
  {
    assert Below(heap, rank, bound, vs[..|vs| - 1]);
  }

  /** The copies #reconstructObject makes of a sequence of flattened values. */
  function Copies(ts: seq<Tree>): (ds: seq<Decoded>)
    ensures |ds| == |ts|
    ensures forall i :: 0 <= i < |ts| ==> ds[i] == Rebuild(ts[i])
  {
    seq(|ts|, i requires 0 <= i < |ts| => Rebuild(ts[i]))
  }

  lemma CopiesSnoc(ts: seq<Tree>, t: Tree)
    ensures Copies(ts + [t]) == Copies(ts) + [Rebuild(t)]
  {
  }

  lemma UnfoldAllSnoc(heap: Heap, rank: Rank, bound: nat, vs: seq<Value>)
    requires Ranked(heap, rank) && Below(heap, rank, bound, vs) && vs != []
    ensures Below(heap, rank, bound, vs[..|vs| - 1])
    ensures UnfoldAll(heap, rank, bound, vs) ==
      UnfoldAll(heap, rank, bound, vs[..|vs| - 1]) + [UnfoldValue(heap, rank, bound, vs[|vs| - 1])]
  {
    var n := |vs| - 1;
    assert Below(heap, rank, bound, vs[..n]);
    var a := UnfoldAll(heap, rank, bound, vs);
    var b := UnfoldAll(heap, rank, bound, vs[..n]) + [UnfoldValue(heap, rank, bound, vs[n])];
    forall i | 0 <= i < |a| ensures a[i] == b[i] {
      if i < n {
        assert vs[..n][i] == vs[i];
      }
    }
  }

  /** The copy of an object of flattened values. */
  lemma RebuildObj(ks: seq<string>, ts: seq<Tree>)
    requires |ks| == |ts|
    ensures Rebuild(Obj(Zip(ks, ts))) == DObj(Zip(ks, Copies(ts)))
  {
    assert Rebuild(Obj(Zip(ks, ts))).fields == Zip(ks, Copies(ts));
  }

  /**
   * A tree-shaped object none of whose reachable identities is registered
   * flattens to a tree whose copy is its deep value; exactly its reachable
   * identities are registered.
   */
  lemma {:induction false} FlattenTree(heap: Heap, rank: Rank, seen: Registry, id: nat, name: string)
    requires Closed(heap) && Ranked(heap, rank) && id in heap && TreeShaped(heap, rank, id)
    requires Reach(heap, rank, id) !! seen.Keys
    ensures var r := Flatten(heap, seen, id, name);
      Rebuild(r.tree) == Unfold(heap, rank, id) && r.seen.Keys == seen.Keys + Reach(heap, rank, id)
    decreases rank[id], 2
  {
    assert RankedNode(heap, rank, id);
    var vs := Values(Entries(heap[id]));
    var below := ReachAll(heap, rank, rank[id], vs);
    assert Reach(heap, rank, id) == {id} + below;
    assert below !! seen[id := name].Keys;
    match heap[id]
    case ArrayNode(_) => FlattenArrayTree(heap, rank, seen, id, name);
    case ObjectNode(_) => FlattenObjectTree(heap, rank, seen, id, name);
  }

  lemma {:induction false} FlattenArrayTree(heap: Heap, rank: Rank, seen: Registry, id: nat, name: string)
    requires Closed(heap) && Ranked(heap, rank) && id in heap && heap[id].ArrayNode?
    requires id !in seen && TreeShaped(heap, rank, id) && RankedNode(heap, rank, id)
    requires ReachAll(heap, rank, rank[id], Values(Entries(heap[id]))) !! seen[id := name].Keys
    ensures var r := Flatten(heap, seen, id, name);
      Rebuild(r.tree) == Unfold(heap, rank, id) &&
      r.seen.Keys == seen[id := name].Keys + ReachAll(heap, rank, rank[id], Values(Entries(heap[id])))
    decreases rank[id], 1
  {
    var inner := seen[id := name];
    var items := heap[id].items;
    var vs := Values(Entries(heap[id]));
    SlotsOfNode(heap, id, name);
    var slots := Labelled(items, name);
    assert Values(slots) == vs;
    FlattenAllTree(heap, rank, rank[id], inner, slots);
    var rs := FlattenAll(heap, inner, slots);
    assert Flatten(heap, seen, id, name) == Flat(Arr(rs.trees), rs.seen);
    assert Rebuild(Arr(rs.trees)) == DArr(Copies(rs.trees));
  }

  lemma {:induction false} FlattenObjectTree(heap: Heap, rank: Rank, seen: Registry, id: nat, name: string)
    requires Closed(heap) && Ranked(heap, rank) && id in heap && heap[id].ObjectNode?
    requires id !in seen && TreeShaped(heap, rank, id) && RankedNode(heap, rank, id)
    requires ReachAll(heap, rank, rank[id], Values(Entries(heap[id]))) !! seen[id := name].Keys
    ensures var r := Flatten(heap, seen, id, name);
      Rebuild(r.tree) == Unfold(heap, rank, id) &&
      r.seen.Keys == seen[id := name].Keys + ReachAll(heap, rank, rank[id], Values(Entries(heap[id])))
    decreases rank[id], 1
  {
    var inner := seen[id := name];
    var fields := heap[id].fields;
    SlotsOfNode(heap, id, name);
    FlattenAllTree(heap, rank, rank[id], inner, fields);
    var rs := FlattenAll(heap, inner, fields);
    assert Flatten(heap, seen, id, name) == Flat(Obj(Zip(Keys(fields), rs.trees)), rs.seen);
    RebuildObj(Keys(fields), rs.trees);
  }

  /** One slot: a primitive or string is copied as it is, a reference is flattened as above. */
  lemma {:induction false} FlattenSlotTree(heap: Heap, rank: Rank, bound: nat, seen: Registry, slot: (string, Value))
    requires Closed(heap) && Ranked(heap, rank) && RefBelow(heap, rank, bound, slot.1)
    requires slot.1.Ref? ==> TreeShaped(heap, rank, slot.1.id)
    requires ReachOf(heap, rank, bound, slot.1) !! seen.Keys
    ensures var r := FlattenSlot(heap, seen, slot);
      Rebuild(r.tree) == UnfoldValue(heap, rank, bound, slot.1) &&
      r.seen.Keys == seen.Keys + ReachOf(heap, rank, bound, slot.1)
    decreases bound, 0, 0, 0
  {
    if slot.1.Ref? {
      FlattenTree(heap, rank, seen, slot.1.id, slot.0);
    }
  }

  /** One more slot: the flattening, the deep values and the reachable objects each grow by that slot's share. */
  lemma FlattenAllTreeSnoc(heap: Heap, rank: Rank, bound: nat, seen: Registry, slots: Props<Value>)
    requires Closed(heap) && Ranked(heap, rank) && SlotsIn(heap, slots) && slots != []
    requires Below(heap, rank, bound, Values(slots))
    ensures SlotsIn(heap, slots[..|slots| - 1]) && Below(heap, rank, bound, Values(slots[..|slots| - 1]))
    ensures RefBelow(heap, rank, bound, slots[|slots| - 1].1) && Values(slots)[|slots| - 1] == slots[|slots| - 1].1
    ensures slots[|slots| - 1].1.Ref? ==> slots[|slots| - 1].1.id in heap
    ensures var n := |slots| - 1;
      var before := FlattenAll(heap, seen, slots[..n]);
      var last := FlattenSlot(heap, before.seen, slots[n]);
      FlattenAll(heap, seen, slots) == FlatList(before.trees + [last.tree], last.seen) &&
      UnfoldAll(heap, rank, bound, Values(slots)) ==
        UnfoldAll(heap, rank, bound, Values(slots[..n])) + [UnfoldValue(heap, rank, bound, slots[n].1)] &&
      ReachAll(heap, rank, bound, Values(slots)) ==
        ReachAll(heap, rank, bound, Values(slots[..n])) + ReachOf(heap, rank, bound, slots[n].1)
  {
    var n := |slots| - 1;
    var vs := Values(slots);
    assert Values(slots[..n]) == vs[..n];
    TreeShapedAllSnoc(heap, rank, bound, vs);
    UnfoldAllSnoc(heap, rank, bound, vs);
    SlotsInInit(heap, slots, n);
    var before := FlattenAll(heap, seen, slots[..n]);
    var last := FlattenSlot(heap, before.seen, slots[n]);
    FlattenAllSnoc(heap, seen, slots, n);
    assert slots[..n + 1] == slots;
  }

  /** The same for the slots of one object, flattened left to right. */
  lemma {:induction false} FlattenAllTree(heap: Heap, rank: Rank, bound: nat, seen: Registry, slots: Props<Value>)
    requires Closed(heap) && Ranked(heap, rank) && SlotsIn(heap, slots)
    requires Below(heap, rank, bound, Values(slots)) && TreeShapedAll(heap, rank, bound, Values(slots))
    requires ReachAll(heap, rank, bound, Values(slots)) !! seen.Keys
    ensures var r := FlattenAll(heap, seen, slots);
      Copies(r.trees) == UnfoldAll(heap, rank, bound, Values(slots)) &&
      r.seen.Keys == seen.Keys + ReachAll(heap, rank, bound, Values(slots))
    decreases bound, 0, |slots|, 1
  {
    if slots != [] {
      var n := |slots| - 1;
      TreeShapedAllSnoc(heap, rank, bound, Values(slots));
      FlattenAllTreeSnoc(heap, rank, bound, seen, slots);
      assert Values(slots[..n]) == Values(slots)[..n];
      FlattenAllTree(heap, rank, bound, seen, slots[..n]);
      LastSlotTree(heap, rank, bound, seen, slots);
      var before := FlattenAll(heap, seen, slots[..n]);
      CombineStep(FlattenAll(heap, seen, slots), before, FlattenSlot(heap, before.seen, slots[n]), seen.Keys,
        ReachAll(heap, rank, bound, Values(slots[..n])), ReachOf(heap, rank, bound, slots[n].1),
        UnfoldAll(heap, rank, bound, Values(slots[..n])), UnfoldValue(heap, rank, bound, slots[n].1));
    }
  }

  /** The last slot reaches nothing the slots before it registered, so it flattens to its deep value. */
  lemma {:induction false} LastSlotTree(heap: Heap, rank: Rank, bound: nat, seen: Registry, slots: Props<Value>)
    requires Closed(heap) && Ranked(heap, rank) && SlotsIn(heap, slots) && slots != []
    requires Below(heap, rank, bound, Values(slots)) && TreeShapedAll(heap, rank, bound, Values(slots))
    requires ReachAll(heap, rank, bound, Values(slots)) !! seen.Keys
    requires SlotsIn(heap, slots[..|slots| - 1]) && Below(heap, rank, bound, Values(slots[..|slots| - 1]))
    requires FlattenAll(heap, seen, slots[..|slots| - 1]).seen.Keys ==
      seen.Keys + ReachAll(heap, rank, bound, Values(slots[..|slots| - 1]))
    ensures RefBelow(heap, rank, bound, slots[|slots| - 1].1)
    ensures slots[|slots| - 1].1.Ref? ==> slots[|slots| - 1].1.id in heap
    ensures var before := FlattenAll(heap, seen, slots[..|slots| - 1]);
      var last := FlattenSlot(heap, before.seen, slots[|slots| - 1]);
      Rebuild(last.tree) == UnfoldValue(heap, rank, bound, slots[|slots| - 1].1) &&
      last.seen.Keys == before.seen.Keys + ReachOf(heap, rank, bound, slots[|slots| - 1].1)
    decreases bound, 0, |slots|, 0
  {
    var n := |slots| - 1;
    TreeShapedAllSnoc(heap, rank, bound, Values(slots));
    assert Values(slots[..n]) == Values(slots)[..n];
    assert Values(slots)[n] == slots[n].1;
    var before := FlattenAll(heap, seen, slots[..n]);
    FlattenSlotTree(heap, rank, bound, before.seen, slots[n]);
  }

  /** Appending one flattened slot to the slots before it. */
  lemma CombineStep(r: FlatList, before: FlatList, last: Flat, seen: set<nat>, earlier: set<nat>, own: set<nat>,
                    ds: seq<Decoded>, d: Decoded)
    requires r == FlatList(before.trees + [last.tree], last.seen)
    requires Copies(before.trees) == ds && Rebuild(last.tree) == d
    requires before.seen.Keys == seen + earlier && last.seen.Keys == before.seen.Keys + own
    ensures Copies(r.trees) == ds + [d] && r.seen.Keys == seen + (earlier + own)
  {
    CopiesSnoc(before.trees, last.tree);
  }

  /** No restored value of a tree-shaped object holds a marker-shaped string. */
  lemma {:induction false} UnfoldUnmarked(heap: Heap, rank: Rank, id: nat)
    requires Ranked(heap, rank) && id in heap && TreeShaped(heap, rank, id)
    ensures Unmarked(Unfold(heap, rank, id))
    decreases rank[id], 1
  {
    assert RankedNode(heap, rank, id);
    var vs := Values(Entries(heap[id]));
    var ds := UnfoldAll(heap, rank, rank[id], vs);
    UnfoldAllUnmarked(heap, rank, rank[id], vs);
    match heap[id]
    case ArrayNode(_) =>
    case ObjectNode(fields) =>
      var fs := Zip(Keys(fields), ds);
      assert forall i :: 0 <= i < |fs| ==> fs[i].1 == ds[i];
  }

  lemma {:induction false} UnfoldAllUnmarked(heap: Heap, rank: Rank, bound: nat, vs: seq<Value>)
    requires Ranked(heap, rank) && Below(heap, rank, bound, vs) && TreeShapedAll(heap, rank, bound, vs)
    ensures forall i :: 0 <= i < |vs| ==> Unmarked(UnfoldAll(heap, rank, bound, vs)[i])
    decreases bound, 0, |vs|
  {
    if vs != [] {
      var n := |vs| - 1;
      TreeShapedAllSnoc(heap, rank, bound, vs);
      UnfoldAllSnoc(heap, rank, bound, vs);
      UnfoldAllUnmarked(heap, rank, bound, vs[..n]);
      if vs[n].Ref? {
        UnfoldUnmarked(heap, rank, vs[n].id);
      }
    }
  }

  // ---------------------------------------------------------------------------
  // Tree-shaped arguments come back deep-equal
  // ---------------------------------------------------------------------------

  /** What the slots of an argument reach; the argument itself is never registered. */
  function ArgReach(heap: Heap, rank: Rank, id: nat): set<nat>
    requires Ranked(heap, rank) && id in heap
  {
    assert RankedNode(heap, rank, id);
    ReachAll(heap, rank, rank[id], Values(Entries(heap[id])))
  }

  /**
   * What a tree-shaped argument should come back as: its own keys in order,
   * each bound to the deep value of its slot. An object argument comes back
   * as its deep value; an array argument as an object keyed by its indices.
   */
  function Unfolded(heap: Heap, rank: Rank, id: nat): (d: Decoded)
    requires Ranked(heap, rank) && id in heap
    ensures d.DObj? && Keys(d.fields) == Keys(Entries(heap[id]))
    ensures heap[id].ObjectNode? ==> d == Unfold(heap, rank, id)
  {
    assert RankedNode(heap, rank, id);
    var es := Entries(heap[id]);
    DObj(Zip(Keys(es), UnfoldAll(heap, rank, rank[id], Values(es))))
  }

  function UnfoldedAll(heap: Heap, rank: Rank, objects: seq<nat>): (ds: seq<Decoded>)
    requires Ranked(heap, rank) && AllIn(heap, objects)
    ensures |ds| == |objects|
    ensures forall i :: 0 <= i < |objects| ==> ds[i] == Unfolded(heap, rank, objects[i])
  {
    seq(|objects|, i requires 0 <= i < |objects| => Unfolded(heap, rank, objects[i]))
  }

  lemma UnfoldedUnmarked(heap: Heap, rank: Rank, id: nat)
    requires Ranked(heap, rank) && id in heap && TreeShaped(heap, rank, id)
    ensures Unmarked(Unfolded(heap, rank, id))
  {
    assert RankedNode(heap, rank, id);
    var es := Entries(heap[id]);
    var ds := UnfoldAll(heap, rank, rank[id], Values(es));
    UnfoldAllUnmarked(heap, rank, rank[id], Values(es));
    var fs := Zip(Keys(es), ds);
    assert forall i :: 0 <= i < |fs| ==> fs[i].1 == ds[i];
  }

  /**
   * A tree-shaped argument whose reachable objects are not yet registered:
   * its entry rebuilds to its deep value, and exactly what it reaches is
   * registered.
   */
  lemma ArgTree(heap: Heap, rank: Rank, seen: Registry, id: nat)
    requires Closed(heap) && Ranked(heap, rank) && id in heap && TreeShaped(heap, rank, id)
    requires ArgReach(heap, rank, id) !! seen.Keys
    ensures var s := EncodeObject(heap, seen, id);
      s.seen.Keys == seen.Keys + ArgReach(heap, rank, id) &&
      RebuildEntry(Keys(Entries(heap[id])), s.values) == Unfolded(heap, rank, id)
  {
    assert RankedNode(heap, rank, id);
    var es := Entries(heap[id]);
    SlotsOfNode(heap, id, []);
    FlattenAllTree(heap, rank, rank[id], seen, es);
    var f := FlattenAll(heap, seen, es);
    assert EncodeObject(heap, seen, id).values == f.trees;
    assert RebuildEntry(Keys(es), f.trees).fields == Zip(Keys(es), Copies(f.trees));
  }

  /** What the arguments reach together. */
  function ArgsReach(heap: Heap, rank: Rank, objects: seq<nat>): set<nat>
    requires Ranked(heap, rank) && AllIn(heap, objects)
  {
    if objects == [] then {}
    else
      var n := |objects| - 1;
      ArgsReach(heap, rank, objects[..n]) + ArgReach(heap, rank, objects[n])
  }

  lemma {:induction false} ArgsReachMember(heap: Heap, rank: Rank, objects: seq<nat>, x: nat)
    requires Ranked(heap, rank) && AllIn(heap, objects) && x in ArgsReach(heap, rank, objects)
    ensures exists k :: 0 <= k < |objects| && x in ArgReach(heap, rank, objects[k])
    decreases |objects|
  {
    var n := |objects| - 1;
    if x !in ArgReach(heap, rank, objects[n]) {
      ArgsReachMember(heap, rank, objects[..n], x);
      var k :| 0 <= k < n && x in ArgReach(heap, rank, objects[..n][k]);
      assert objects[..n][k] == objects[k];
    }
  }

  /** Tree-shaped arguments whose slots reach pairwise disjoint sets of objects. */
  predicate TreeArgs(heap: Heap, rank: Rank, objects: seq<nat>)
    requires Ranked(heap, rank) && AllIn(heap, objects)
  {
    (forall i :: 0 <= i < |objects| ==> TreeShaped(heap, rank, objects[i])) &&
    (forall i, j :: 0 <= i < j < |objects| ==>
      ArgReach(heap, rank, objects[i]) !! ArgReach(heap, rank, objects[j]))
  }

  lemma TreeArgsPrefix(heap: Heap, rank: Rank, objects: seq<nat>, j: nat)
    requires Ranked(heap, rank) && AllIn(heap, objects) && TreeArgs(heap, rank, objects) && j <= |objects|
    ensures AllIn(heap, objects[..j]) && TreeArgs(heap, rank, objects[..j])
  {
    assert forall i :: 0 <= i < j ==> objects[..j][i] == objects[i];
  }

  /** What the earlier arguments reach is disjoint from what argument j reaches. */
  lemma ArgsBeforeDisjoint(heap: Heap, rank: Rank, objects: seq<nat>, j: nat)
    requires Ranked(heap, rank) && AllIn(heap, objects) && TreeArgs(heap, rank, objects) && j < |objects|
    ensures AllIn(heap, objects[..j])
    ensures ArgsReach(heap, rank, objects[..j]) !! ArgReach(heap, rank, objects[j])
  {
    assert AllIn(heap, objects[..j]);
    forall x | x in ArgsReach(heap, rank, objects[..j]) ensures x !in ArgReach(heap, rank, objects[j]) {
      ArgsReachMember(heap, rank, objects[..j], x);
      var k :| 0 <= k < j && x in ArgReach(heap, rank, objects[..j][k]);
      assert objects[..j][k] == objects[k];
    }
  }

  /** The constructor registers exactly what its tree-shaped arguments reach. */
  lemma {:induction false} EncodeEachTreeSeen(heap: Heap, rank: Rank, objects: seq<nat>)
    requires Closed(heap) && Ranked(heap, rank) && AllIn(heap, objects) && TreeArgs(heap, rank, objects)
    ensures EncodeEach(heap, map[], objects).seen.Keys == ArgsReach(heap, rank, objects)
    decreases |objects|
  {
    if objects != [] {
      var n := |objects| - 1;
      TreeArgsPrefix(heap, rank, objects, n);
      EncodeEachTreeSeen(heap, rank, objects[..n]);
      ArgsBeforeDisjoint(heap, rank, objects, n);
      var before := EncodeEach(heap, map[], objects[..n]);
      ArgTree(heap, rank, before.seen, objects[n]);
    }
  }

  /** Pair j of tree-shaped arguments parses back to argument j's keys and rebuilds to its deep value. */
  lemma TreePairAt(heap: Heap, rank: Rank, objects: seq<nat>, j: nat)
    requires Closed(heap) && Ranked(heap, rank) && AllIn(heap, objects) && TreeArgs(heap, rank, objects)
    requires j < |objects|
    ensures var p := EncodeEach(heap, map[], objects).pairs[j];
      ParseSchema(p.0) == Ok(Keys(Entries(heap[objects[j]]))) &&
      RebuildEntry(Keys(Entries(heap[objects[j]])), p.1) == Unfolded(heap, rank, objects[j])
  {
    EncodeEachAt(heap, map[], objects, j);
    SchemaOfParses(heap, objects[j]);
    TreeArgsPrefix(heap, rank, objects, j);
    EncodeEachTreeSeen(heap, rank, objects[..j]);
    ArgsBeforeDisjoint(heap, rank, objects, j);
    ArgTree(heap, rank, EncodeEach(heap, map[], objects[..j]).seen, objects[j]);
  }

  /**
   * Arguments that nest arrays and objects to any depth come back as
   * Unfolded gives them when no object is reached twice (within an argument
   * or across arguments, the heap being acyclic), no string is marker-shaped
   * and the key lists are pairwise different: one object per argument, in
   * argument order, the object itself when there is one argument. An object
   * argument comes back deep-equal; an array argument as an object keyed by
   * its indices.
   */
  lemma NestedRoundTrip(heap: Heap, rank: Rank, objects: seq<nat>)
    requires Closed(heap) && Ranked(heap, rank) && AllIn(heap, objects) && TreeArgs(heap, rank, objects)
    requires forall i, j :: 0 <= i < j < |objects| ==>
      Keys(Entries(heap[objects[i]])) != Keys(Entries(heap[objects[j]]))
    ensures Decode(Encode(heap, objects)) ==
      Ok(if |objects| == 1 then Single(Unfolded(heap, rank, objects[0]))
         else Many(UnfoldedAll(heap, rank, objects)))
  {
    var es := Encode(heap, objects);
    var ds := UnfoldedAll(heap, rank, objects);
    EncodeOfDistinctKeyLists(heap, objects);
    forall j | 0 <= j < |es|
      ensures Parses(es)[j].Ok? && ds[j] == RebuildEntry(Parses(es)[j].value, es[j].1)
      ensures Resolve(ds[j]) == Ok(ds[j])
    {
      TreePairAt(heap, rank, objects, j);
      UnfoldedUnmarked(heap, rank, objects[j]);
      ResolveUnmarked(ds[j]);
    }
    RebuildAllOk(es, ds);
    ResolveAllUnchanged(ds);
  }
}
