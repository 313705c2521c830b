/**
 * What the constructor computes: the recursive flattening with its identity
 * registry (#handleRecursiveValue), one (schema, value array) pair per
 * argument, and the entries these pairs leave on the instance.
 */
module Encoder {
  import opened Wrappers
  import opened Json
  import opened Props
  import opened Objects

  /** The identity registry: for each object already visited, the label it was first reached under. */
  type Registry = map<nat, string>

  /** The string that stands for an already-visited object: its recorded label in braces. */
  function Marker(name: string): string {
    ['{'] + name + ['}']
  }

  /** The registry only grows: no identity is removed or relabelled. */
  predicate Extends(before: Registry, after: Registry) {
    forall id :: id in before ==> id in after && after[id] == before[id]
  }

  /** The identities of the heap not yet registered: what the flattening consumes. */
  function Unvisited(heap: Heap, seen: Registry): nat {
    |heap.Keys - seen.Keys|
  }

  lemma {:induction false} SubsetCard(a: set<nat>, b: set<nat>)
    requires a <= b
    ensures |a| <= |b|
    decreases |a|
  {
    if a != {} {
      var x :| x in a;
      SubsetCard(a - {x}, b - {x});
    }
  }

  lemma UnvisitedShrinks(heap: Heap, seen: Registry, after: Registry)
    requires Extends(seen, after)
    ensures Unvisited(heap, after) <= Unvisited(heap, seen)
  {
    SubsetCard(heap.Keys - after.Keys, heap.Keys - seen.Keys);
  }

  lemma UnvisitedRegister(heap: Heap, seen: Registry, id: nat, name: string)
    requires id in heap && id !in seen
    ensures Unvisited(heap, seen[id := name]) < Unvisited(heap, seen)
  {
    assert heap.Keys - seen[id := name].Keys == (heap.Keys - seen.Keys) - {id};
  }

  /** An array's elements, each carrying the array's own label. */
  function Labelled(items: seq<Value>, name: string): Props<Value> {
    seq(|items|, i requires 0 <= i < |items| => (name, items[i]))
  }

  /** The slots an object of a closed heap hands to the flattening refer into the heap. */
  lemma SlotsOfNode(heap: Heap, id: nat, name: string)
    requires Closed(heap) && id in heap
    ensures heap[id].ArrayNode? ==> SlotsIn(heap, Labelled(heap[id].items, name))
    ensures heap[id].ObjectNode? ==> SlotsIn(heap, heap[id].fields)
    ensures SlotsIn(heap, Entries(heap[id]))
  {
    assert NodeClosed(heap, id);
    if heap[id].ArrayNode? {
      var slots := Labelled(heap[id].items, name);
      forall i | 0 <= i < |slots| && slots[i].1.Ref? ensures slots[i].1.id in heap {
        assert Entries(heap[id])[i].1 == slots[i].1;
      }
    }
  }

  lemma SlotsInInit(heap: Heap, slots: Props<Value>, n: nat)
    requires SlotsIn(heap, slots) && n < |slots|
    ensures SlotsIn(heap, slots[..n]) && SlotsIn(heap, slots[..n + 1])
    ensures slots[n].1.Ref? ==> slots[n].1.id in heap
  {
    assert forall i :: 0 <= i < n ==> slots[..n][i] == slots[i];
    assert forall i :: 0 <= i <= n ==> slots[..n + 1][i] == slots[i];
  }

  datatype Flat = Flat(tree: Tree, seen: Registry)

  datatype FlatList = FlatList(trees: seq<Tree>, seen: Registry)

  /**
   * #handleRecursiveValue: flattens the heap object id, reached under label.
   * An object already in the registry becomes the marker of its recorded
   * label; otherwise it is registered under label before its slots are
   * flattened, so no object is expanded twice.
   */
  function Flatten(heap: Heap, seen: Registry, id: nat, name: string): (r: Flat)
    requires Closed(heap) && id in heap
    ensures Extends(seen, r.seen) && id in r.seen
    ensures id in seen ==> r == Flat(Text(Marker(seen[id])), seen)
    ensures id !in seen ==> r.seen[id] == name
    decreases Unvisited(heap, seen), 0
  {
    if id in seen then Flat(Text(Marker(seen[id])), seen)
    else
      var inner := seen[id := name];
      UnvisitedRegister(heap, seen, id, name);
      SlotsOfNode(heap, id, name);
      match heap[id]
      case ArrayNode(items) =>
        var rs := FlattenAll(heap, inner, Labelled(items, name));
        Flat(Arr(rs.trees), rs.seen)
      case ObjectNode(fields) =>
        var rs := FlattenAll(heap, inner, fields);
        Flat(Obj(Zip(Keys(fields), rs.trees)), rs.seen)
  }

  /**
   * A newly reached array flattens to an array of the same length, a newly
   * reached object to an object with the same keys in the same order.
   */
  lemma FlattenShape(heap: Heap, seen: Registry, id: nat, name: string)
    requires Closed(heap) && id in heap && id !in seen
    ensures var r := Flatten(heap, seen, id, name);
      (heap[id].ArrayNode? ==> r.tree.Arr? && |r.tree.items| == |heap[id].items|) &&
      (heap[id].ObjectNode? ==> r.tree.Obj? && Keys(r.tree.fields) == Keys(heap[id].fields))
  {
  }

  /** One slot: primitives and strings pass through, an object is flattened under the slot's label. */
  function FlattenSlot(heap: Heap, seen: Registry, slot: (string, Value)): (r: Flat)
    requires Closed(heap) && (slot.1.Ref? ==> slot.1.id in heap)
    ensures Extends(seen, r.seen)
    decreases Unvisited(heap, seen), 1
  {
    match slot.1
    case Prim(a) => Flat(Leaf(a), seen)
    case Str(s) => Flat(Text(s), seen)
    case Ref(id) => Flatten(heap, seen, id, slot.0)
  }

  /** The slots of one object or array, left to right, each seeing the registry the earlier ones left. */
  function FlattenAll(heap: Heap, seen: Registry, slots: Props<Value>): (r: FlatList)
    requires Closed(heap) && SlotsIn(heap, slots)
    ensures Extends(seen, r.seen) && |r.trees| == |slots|
    decreases Unvisited(heap, seen), |slots| + 2
  {
    if slots == [] then FlatList([], seen)
    else
      var n := |slots| - 1;
      SlotsInInit(heap, slots, n);
      var before := FlattenAll(heap, seen, slots[..n]);
      UnvisitedShrinks(heap, seen, before.seen);
      var last := FlattenSlot(heap, before.seen, slots[n]);
      FlatList(before.trees + [last.tree], last.seen)
  }

  /** Flattening one more slot extends the trees and registry of the slots before it. */
  lemma FlattenAllSnoc(heap: Heap, seen: Registry, slots: Props<Value>, i: nat)
    requires Closed(heap) && SlotsIn(heap, slots) && i < |slots|
    ensures SlotsIn(heap, slots[..i]) && SlotsIn(heap, slots[..i + 1])
    ensures var prev := FlattenAll(heap, seen, slots[..i]);
      var s := FlattenSlot(heap, prev.seen, slots[i]);
      FlattenAll(heap, seen, slots[..i + 1]) == FlatList(prev.trees + [s.tree], s.seen)
  {
    SlotsInInit(heap, slots, i);
    assert slots[..i + 1][..i] == slots[..i];
  }

  /**
   * Slot i is flattened with the registry that the slots before it left
   * behind, and under its own label: for an object the slot's key, for an
   * array the label of the array.
   */
  lemma {:induction false} FlattenAllAt(heap: Heap, seen: Registry, slots: Props<Value>, i: nat)
    requires Closed(heap) && SlotsIn(heap, slots) && i < |slots|
    ensures SlotsIn(heap, slots[..i])
    ensures FlattenAll(heap, seen, slots).trees[i] ==
      FlattenSlot(heap, FlattenAll(heap, seen, slots[..i]).seen, slots[i]).tree
    decreases |slots|
  {
    var n := |slots| - 1;
    SlotsInInit(heap, slots, n);
    SlotsInInit(heap, slots, i);
    if i < n {
      FlattenAllAt(heap, seen, slots[..n], i);
      PrefixOfPrefix(slots, n, i);
      assert slots[..n][i] == slots[i];
    }
  }

  /** Primitives (null included) and strings appear unchanged at the index of their key. */
  lemma FlattenAllPassesThrough(heap: Heap, seen: Registry, slots: Props<Value>)
    requires Closed(heap) && SlotsIn(heap, slots)
    ensures forall i :: 0 <= i < |slots| && slots[i].1.Prim? ==>
      FlattenAll(heap, seen, slots).trees[i] == Leaf(slots[i].1.a)
    ensures forall i :: 0 <= i < |slots| && slots[i].1.Str? ==>
      FlattenAll(heap, seen, slots).trees[i] == Text(slots[i].1.s)
  {
    forall i | 0 <= i < |slots| && !slots[i].1.Ref?
      ensures FlattenAll(heap, seen, slots).trees[i] ==
        FlattenSlot(heap, FlattenAll(heap, seen, slots[..i]).seen, slots[i]).tree
    {
      FlattenAllAt(heap, seen, slots, i);
    }
  }

  /**
   * A newly reached array is registered and then flattened item by item:
   * item i is flattened under the array's own label, with the registry that
   * the items before it left behind.
   */
  lemma FlattenArrayAt(heap: Heap, seen: Registry, id: nat, name: string, i: nat)
    requires Closed(heap) && id in heap && id !in seen && heap[id].ArrayNode? && i < |heap[id].items|
    ensures SlotsIn(heap, Labelled(heap[id].items[..i], name))
    ensures heap[id].items[i].Ref? ==> heap[id].items[i].id in heap
    ensures var r := Flatten(heap, seen, id, name);
      r.tree.Arr? && |r.tree.items| == |heap[id].items| &&
      r.tree.items[i] == FlattenSlot(heap,
        FlattenAll(heap, seen[id := name], Labelled(heap[id].items[..i], name)).seen,
        (name, heap[id].items[i])).tree
  {
    var items := heap[id].items;
    var slots := Labelled(items, name);
    SlotsOfNode(heap, id, name);
    FlattenAllAt(heap, seen[id := name], slots, i);
    assert slots[..i] == Labelled(items[..i], name);
    assert slots[i] == (name, items[i]);
  }

  /**
   * A newly reached object is registered and then flattened field by field:
   * field i keeps its key and is flattened under that key, with the registry
   * that the fields before it left behind.
   */
  lemma FlattenObjectAt(heap: Heap, seen: Registry, id: nat, name: string, i: nat)
    requires Closed(heap) && id in heap && id !in seen && heap[id].ObjectNode? && i < |heap[id].fields|
    ensures SlotsIn(heap, heap[id].fields[..i])
    ensures heap[id].fields[i].1.Ref? ==> heap[id].fields[i].1.id in heap
    ensures var r := Flatten(heap, seen, id, name);
      r.tree.Obj? && |r.tree.fields| == |heap[id].fields| &&
      r.tree.fields[i] == (heap[id].fields[i].0, FlattenSlot(heap,
        FlattenAll(heap, seen[id := name], heap[id].fields[..i]).seen,
        heap[id].fields[i]).tree)
  {
    SlotsOfNode(heap, id, name);
    FlattenAllAt(heap, seen[id := name], heap[id].fields, i);
  }

  // ---------------------------------------------------------------------------
  // Each identity is expanded once
  // ---------------------------------------------------------------------------

  /** The number of arrays and objects in a tree: the expansions that produced it. */
  function Expansions(t: Tree): nat {
    match t
    case Arr(items) => 1 + ExpansionsOf(items)
    case Obj(fields) => 1 + ExpansionsOfFields(t, fields)
    case _ => 0
  }

  function ExpansionsOf(ts: seq<Tree>): nat {
    if ts == [] then 0 else Expansions(ts[0]) + ExpansionsOf(ts[1..])
  }

  function ExpansionsOfFields(ghost parent: Tree, fs: Props<Tree>): nat
    requires forall i :: 0 <= i < |fs| ==> fs[i].1 < parent
    decreases parent, |fs|
  {
    if fs == [] then 0 else Expansions(fs[0].1) + ExpansionsOfFields(parent, fs[1..])
  }

  lemma {:induction false} ExpansionsOfZip(ks: seq<string>, ts: seq<Tree>)
    requires |ks| == |ts|
    ensures ExpansionsOfFields(Obj(Zip(ks, ts)), Zip(ks, ts)) == ExpansionsOf(ts)
  {
    var parent := Obj(Zip(ks, ts));
    var k := |ts|;
    while k > 0
      invariant 0 <= k <= |ts|
      invariant ExpansionsOfFields(parent, Zip(ks, ts)[k..]) == ExpansionsOf(ts[k..])
    {
      k := k - 1;
      assert Zip(ks, ts)[k..][1..] == Zip(ks, ts)[k + 1..];
      assert ts[k..][1..] == ts[k + 1..];
    }
  }

  lemma RegistryGrowth(before: Registry, after: Registry)
    requires Extends(before, after)
    ensures |before| <= |after|
  {
    SubsetCard(before.Keys, after.Keys);
  }

  /**
   * Every array and object of the output is the expansion of an identity that
   * this call newly registered, and each newly registered identity is expanded
   * exactly once: the output can hold no more objects than the heap.
   */
  lemma {:induction false} FlattenExpandsEachOnce(heap: Heap, seen: Registry, id: nat, name: string)
    requires Closed(heap) && id in heap
    ensures var r := Flatten(heap, seen, id, name);
      |seen| <= |r.seen| && Expansions(r.tree) == |r.seen| - |seen|
    decreases Unvisited(heap, seen), 1
  {
    if id !in seen {
      match heap[id]
      case ArrayNode(_) => FlattenArrayExpandsEachOnce(heap, seen, id, name);
      case ObjectNode(_) => FlattenObjectExpandsEachOnce(heap, seen, id, name);
    }
  }

  lemma {:induction false} FlattenArrayExpandsEachOnce(heap: Heap, seen: Registry, id: nat, name: string)
    requires Closed(heap) && id in heap && id !in seen && heap[id].ArrayNode?
    ensures var r := Flatten(heap, seen, id, name);
      |seen| <= |r.seen| && Expansions(r.tree) == |r.seen| - |seen|
    decreases Unvisited(heap, seen), 0
  {
    var inner := seen[id := name];
    UnvisitedRegister(heap, seen, id, name);
    SlotsOfNode(heap, id, name);
    var slots := Labelled(heap[id].items, name);
    var rs := FlattenAll(heap, inner, slots);
    FlattenAllExpandsEachOnce(heap, inner, slots);
    assert Flatten(heap, seen, id, name) == Flat(Arr(rs.trees), rs.seen);
  }

  lemma {:induction false} FlattenObjectExpandsEachOnce(heap: Heap, seen: Registry, id: nat, name: string)
    requires Closed(heap) && id in heap && id !in seen && heap[id].ObjectNode?
    ensures var r := Flatten(heap, seen, id, name);
      |seen| <= |r.seen| && Expansions(r.tree) == |r.seen| - |seen|
    decreases Unvisited(heap, seen), 0
  {
    var inner := seen[id := name];
    UnvisitedRegister(heap, seen, id, name);
    SlotsOfNode(heap, id, name);
    var fields := heap[id].fields;
    var rs := FlattenAll(heap, inner, fields);
    FlattenAllExpandsEachOnce(heap, inner, fields);
    var t := Obj(Zip(Keys(fields), rs.trees));
    assert Flatten(heap, seen, id, name) == Flat(t, rs.seen);
    ExpansionsOfZip(Keys(fields), rs.trees);
    assert Expansions(t) == 1 + ExpansionsOfFields(t, t.fields);
  }

  lemma {:induction false} FlattenSlotExpandsEachOnce(heap: Heap, seen: Registry, slot: (string, Value))
    requires Closed(heap) && (slot.1.Ref? ==> slot.1.id in heap)
    ensures var r := FlattenSlot(heap, seen, slot);
      |seen| <= |r.seen| && Expansions(r.tree) == |r.seen| - |seen|
    decreases Unvisited(heap, seen), 2
  {
    if slot.1.Ref? {
      FlattenExpandsEachOnce(heap, seen, slot.1.id, slot.0);
    }
  }

  lemma {:induction false} ExpansionsOfSnoc(ts: seq<Tree>, t: Tree)
    ensures ExpansionsOf(ts + [t]) == ExpansionsOf(ts) + Expansions(t)
    decreases |ts|
  {
    if ts == [] {
      assert [t][1..] == [];
    } else {
      assert (ts + [t])[1..] == ts[1..] + [t];
      ExpansionsOfSnoc(ts[1..], t);
    }
  }

  lemma {:induction false} FlattenAllExpandsEachOnce(heap: Heap, seen: Registry, slots: Props<Value>)
    requires Closed(heap) && SlotsIn(heap, slots)
    ensures var r := FlattenAll(heap, seen, slots);
      |seen| <= |r.seen| && ExpansionsOf(r.trees) == |r.seen| - |seen|
    decreases Unvisited(heap, seen), |slots| + 3
  {
    if slots != [] {
      var n := |slots| - 1;
      SlotsInInit(heap, slots, n);
      var before := FlattenAll(heap, seen, slots[..n]);
      UnvisitedShrinks(heap, seen, before.seen);
      FlattenAllExpandsEachOnce(heap, seen, slots[..n]);
      FlattenSlotExpandsEachOnce(heap, before.seen, slots[n]);
      var last := FlattenSlot(heap, before.seen, slots[n]);
      ExpansionsOfSnoc(before.trees, last.tree);
    }
  }

  /** Hence the flattened tree holds at most as many objects as the heap has identities left. */
  lemma FlattenIsBounded(heap: Heap, seen: Registry, id: nat, name: string)
    requires Closed(heap) && id in heap && seen.Keys <= heap.Keys
    ensures Expansions(Flatten(heap, seen, id, name).tree) <= |heap| - |seen|
  {
    var r := Flatten(heap, seen, id, name);
    FlattenExpandsEachOnce(heap, seen, id, name);
    FlattenRegistersHeapOnly(heap, seen, id, name);
    SubsetCard(r.seen.Keys, heap.Keys);
  }

  lemma {:induction false} FlattenRegistersHeapOnly(heap: Heap, seen: Registry, id: nat, name: string)
    requires Closed(heap) && id in heap && seen.Keys <= heap.Keys
    ensures Flatten(heap, seen, id, name).seen.Keys <= heap.Keys
    decreases Unvisited(heap, seen), 0
  {
    if id !in seen {
      var inner := seen[id := name];
      UnvisitedRegister(heap, seen, id, name);
      SlotsOfNode(heap, id, name);
      match heap[id]
      case ArrayNode(items) =>
        FlattenAllRegistersHeapOnly(heap, inner, Labelled(items, name));
      case ObjectNode(fields) =>
        FlattenAllRegistersHeapOnly(heap, inner, fields);
    }
  }

  lemma {:induction false} FlattenSlotRegistersHeapOnly(heap: Heap, seen: Registry, slot: (string, Value))
    requires Closed(heap) && (slot.1.Ref? ==> slot.1.id in heap) && seen.Keys <= heap.Keys
    ensures FlattenSlot(heap, seen, slot).seen.Keys <= heap.Keys
    decreases Unvisited(heap, seen), 1
  {
    if slot.1.Ref? {
      FlattenRegistersHeapOnly(heap, seen, slot.1.id, slot.0);
    }
  }

  lemma {:induction false} FlattenAllRegistersHeapOnly(heap: Heap, seen: Registry, slots: Props<Value>)
    requires Closed(heap) && SlotsIn(heap, slots) && seen.Keys <= heap.Keys
    ensures FlattenAll(heap, seen, slots).seen.Keys <= heap.Keys
    decreases Unvisited(heap, seen), |slots| + 2
  {
    if slots != [] {
      var n := |slots| - 1;
      SlotsInInit(heap, slots, n);
      FlattenAllRegistersHeapOnly(heap, seen, slots[..n]);
      var before := FlattenAll(heap, seen, slots[..n]);
      UnvisitedShrinks(heap, seen, before.seen);
      FlattenSlotRegistersHeapOnly(heap, before.seen, slots[n]);
    }
  }

  // ---------------------------------------------------------------------------
  // One construction
  // ---------------------------------------------------------------------------

  /** The pair one argument contributes, and the registry after it. */
  datatype Step = Step(schema: string, values: seq<Tree>, seen: Registry)

  /**
   * One argument: the schema text of its own keys, and its value array, in
   * which slot i holds the flattened value of key i.
   */
  function EncodeObject(heap: Heap, seen: Registry, id: nat): (r: Step)
    requires Closed(heap) && id in heap
    ensures Extends(seen, r.seen)
    ensures r.schema == SchemaOf(heap, id)
    ensures |r.values| == |Entries(heap[id])|
  {
    var es := Entries(heap[id]);
    SlotsOfNode(heap, id, []);
    var f := FlattenAll(heap, seen, es);
    Step(SchemaText(Keys(es)), f.trees, f.seen)
  }

  /** The schema an argument is stored under parses back to that argument's own keys. */
  lemma SchemaOfParses(heap: Heap, id: nat)
    requires Closed(heap) && id in heap
    ensures ParseSchema(SchemaOf(heap, id)) == Ok(Keys(Entries(heap[id])))
  {
    EntriesKeysDistinct(heap, id);
    SchemaRoundTrip(Keys(Entries(heap[id])));
  }

  predicate AllIn(heap: Heap, objects: seq<nat>) {
    forall i :: 0 <= i < |objects| ==> objects[i] in heap
  }

  datatype Run = Run(pairs: Props<seq<Tree>>, seen: Registry)

  /** The pairs of all arguments, in argument order; one registry threads through all of them. */
  function EncodeEach(heap: Heap, seen: Registry, objects: seq<nat>): (r: Run)
    requires Closed(heap) && AllIn(heap, objects)
    ensures |r.pairs| == |objects| && Extends(seen, r.seen)
    decreases |objects|
  {
    if objects == [] then Run([], seen)
    else
      var n := |objects| - 1;
      var before := EncodeEach(heap, seen, objects[..n]);
      var step := EncodeObject(heap, before.seen, objects[n]);
      Run(before.pairs + [(step.schema, step.values)], step.seen)
  }

  /** The schema text of argument i. */
  function SchemaOf(heap: Heap, id: nat): string
    requires Closed(heap) && id in heap
  {
    SchemaText(Keys(Entries(heap[id])))
  }

  /** The schema texts of all arguments, in argument order. */
  function Schemas(heap: Heap, objects: seq<nat>): (ss: seq<string>)
    requires Closed(heap) && AllIn(heap, objects)
    ensures |ss| == |objects|
    ensures forall i :: 0 <= i < |objects| ==> ss[i] == SchemaOf(heap, objects[i])
  {
    seq(|objects|, i requires 0 <= i < |objects| => SchemaOf(heap, objects[i]))
  }

  /**
   * Pair i is argument i's schema with the value array computed under the
   * registry the earlier arguments left behind.
   */
  lemma {:induction false} EncodeEachAt(heap: Heap, seen: Registry, objects: seq<nat>, i: nat)
    requires Closed(heap) && AllIn(heap, objects) && i < |objects|
    ensures AllIn(heap, objects[..i])
    ensures EncodeEach(heap, seen, objects).pairs[i] ==
      (SchemaOf(heap, objects[i]),
       EncodeObject(heap, EncodeEach(heap, seen, objects[..i]).seen, objects[i]).values)
    decreases |objects|
  {
    var n := |objects| - 1;
    var before := EncodeEach(heap, seen, objects[..n]);
    var step := EncodeObject(heap, before.seen, objects[n]);
    assert step.schema == SchemaOf(heap, objects[n]);
    var pairs := before.pairs + [(step.schema, step.values)];
    assert EncodeEach(heap, seen, objects).pairs == pairs;
    if i < n {
      EncodeEachAt(heap, seen, objects[..n], i);
      assert pairs[i] == before.pairs[i];
      PrefixOfPrefix(objects, n, i);
    } else {
      assert objects[..n] == objects[..i];
    }
  }

  /** One more argument appends its schema and value array, flattened under the registry so far. */
  lemma EncodeEachSnoc(heap: Heap, seen: Registry, objects: seq<nat>, i: nat)
    requires Closed(heap) && AllIn(heap, objects) && i < |objects|
    ensures AllIn(heap, objects[..i]) && AllIn(heap, objects[..i + 1])
    ensures SlotsIn(heap, Entries(heap[objects[i]]))
    ensures var before := EncodeEach(heap, seen, objects[..i]);
      var f := FlattenAll(heap, before.seen, Entries(heap[objects[i]]));
      EncodeEach(heap, seen, objects[..i + 1]) ==
        Run(before.pairs + [(SchemaOf(heap, objects[i]), f.trees)], f.seen)
  {
    SlotsOfNode(heap, objects[i], []);
    assert objects[..i + 1][..i] == objects[..i];
  }

  /** What one turn of the constructor's loop does to the registry and to the entries. */
  /** The registry and the entries that the first i arguments leave behind. */
  ghost predicate StoredUpTo(heap: Heap, objects: seq<nat>, i: nat, seen: Registry, es: Props<seq<Tree>>)
    requires Closed(heap) && AllIn(heap, objects) && i <= |objects|
  {
    assert AllIn(heap, objects[..i]);
    var run := EncodeEach(heap, map[], objects[..i]);
    seen == run.seen && es == Assign(run.pairs)
  }

  /** Before any argument: an empty registry and no entries. */
  lemma StoredNone(heap: Heap, objects: seq<nat>)
    requires Closed(heap) && AllIn(heap, objects)
    ensures StoredUpTo(heap, objects, 0, map[], [])
  {
    assert objects[..0] == [];
  }

  /**
   * Argument i is stored with the registry the earlier ones left: its schema
   * is put with its value array, and the registry becomes the one its
   * flattening leaves.
   */
  lemma StoredStep(heap: Heap, objects: seq<nat>, i: nat, seen: Registry, es: Props<seq<Tree>>)
    requires Closed(heap) && AllIn(heap, objects) && i < |objects|
    requires StoredUpTo(heap, objects, i, seen, es)
    ensures Distinct(Keys(es))
    ensures var step := EncodeObject(heap, seen, objects[i]);
      StoredUpTo(heap, objects, i + 1, step.seen, Put(es, step.schema, step.values))
  {
    EncodeEachSnoc(heap, map[], objects, i);
    var before := EncodeEach(heap, map[], objects[..i]);
    var step := EncodeObject(heap, before.seen, objects[i]);
    AssignSnoc(before.pairs, step.schema, step.values);
  }

  /** After every argument: the registry of the whole run and the instance's entries. */
  lemma StoredAll(heap: Heap, objects: seq<nat>, seen: Registry, es: Props<seq<Tree>>)
    requires Closed(heap) && AllIn(heap, objects)
    requires StoredUpTo(heap, objects, |objects|, seen, es)
    ensures es == Encode(heap, objects) && seen == EncodeEach(heap, map[], objects).seen
  {
    assert objects[..|objects|] == objects;
  }

  lemma EncodeEachSchemas(heap: Heap, seen: Registry, objects: seq<nat>)
    requires Closed(heap) && AllIn(heap, objects)
    ensures Keys(EncodeEach(heap, seen, objects).pairs) == Schemas(heap, objects)
  {
    var ps := EncodeEach(heap, seen, objects).pairs;
    forall i | 0 <= i < |objects| ensures ps[i].0 == SchemaOf(heap, objects[i]) {
      EncodeEachAt(heap, seen, objects, i);
    }
  }

  /** A schema text determines the key list it was written from. */
  lemma SchemaTextInjective(a: seq<string>, b: seq<string>)
    requires Distinct(a) && Distinct(b) && SchemaText(a) == SchemaText(b)
    ensures a == b
  {
    SchemaRoundTrip(a);
    SchemaRoundTrip(b);
  }

  /** The entries of the constructed instance: `this[schema] = values` for each argument in turn. */
  function Encode(heap: Heap, objects: seq<nat>): (es: Props<seq<Tree>>)
    requires Closed(heap) && AllIn(heap, objects)
    ensures |es| <= |objects|
    ensures objects == [] ==> es == []
  {
    Assign(EncodeEach(heap, map[], objects).pairs)
  }

  /**
   * Entries appear in argument order: one per distinct schema, at the place of
   * the first argument with that schema; every schema of the instance comes
   * from an argument.
   */
  lemma EncodeKeys(heap: Heap, objects: seq<nat>)
    requires Closed(heap) && AllIn(heap, objects)
    ensures Keys(Encode(heap, objects)) == FirstOccurrences(Schemas(heap, objects), {})
    ensures forall k :: k in Keys(Encode(heap, objects)) <==> k in Schemas(heap, objects)
  {
    EncodeEachSchemas(heap, map[], objects);
    AssignKeys(EncodeEach(heap, map[], objects).pairs);
  }

  /**
   * Each entry holds the value array of the last argument with its key list:
   * an argument whose keys repeat an earlier argument's replaces its values.
   */
  lemma EncodeLastWins(heap: Heap, objects: seq<nat>, i: nat)
    requires Closed(heap) && AllIn(heap, objects) && i < |Encode(heap, objects)|
    ensures exists j :: (0 <= j < |objects| &&
      Encode(heap, objects)[i] == EncodeEach(heap, map[], objects).pairs[j] &&
      forall j' :: j < j' < |objects| ==>
        Keys(Entries(heap[objects[j']])) != Keys(Entries(heap[objects[j]])))
  {
    var ps := EncodeEach(heap, map[], objects).pairs;
    EncodeEachSchemas(heap, map[], objects);
    AssignLastWins(ps, i);
    var j :| LastOfKey(ps, j) && ps[j] == Assign(ps)[i];
    forall j' | j < j' < |objects|
      ensures Keys(Entries(heap[objects[j']])) != Keys(Entries(heap[objects[j]]))
    {
      assert ps[j'].0 != ps[j].0;
    }
  }

  /** Arguments with pairwise different key lists keep one entry each, in argument order. */
  lemma EncodeOfDistinctKeyLists(heap: Heap, objects: seq<nat>)
    requires Closed(heap) && AllIn(heap, objects)
    requires forall i, j :: 0 <= i < j < |objects| ==>
      Keys(Entries(heap[objects[i]])) != Keys(Entries(heap[objects[j]]))
    ensures Encode(heap, objects) == EncodeEach(heap, map[], objects).pairs
  {
    var ps := EncodeEach(heap, map[], objects).pairs;
    EncodeEachSchemas(heap, map[], objects);
    forall i, j | 0 <= i < j < |ps| ensures ps[i].0 != ps[j].0 {
      EntriesKeysDistinct(heap, objects[i]);
      EntriesKeysDistinct(heap, objects[j]);
      if ps[i].0 == ps[j].0 {
        SchemaTextInjective(Keys(Entries(heap[objects[i]])), Keys(Entries(heap[objects[j]])));
      }
    }
    AssignOfDistinct(ps);
  }
}
