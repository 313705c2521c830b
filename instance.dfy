/**
 * The class ObjectKeyVaule: an instance built from argument objects keeps one
 * entry per schema, restores the objects on request and iterates over its
 * value arrays.
 */
module Instance {
  import opened Wrappers
  import opened Json
  import opened Props
  import opened Objects
  import opened Encoder
  import opened Decoder

  class ObjectKeyVaule {
    /** #seenObjects: the identity registry while the constructor runs, null once it is done. */
    var seenObjects: Option<Registry>
    /** The own enumerable properties of the instance: schema text to value array, in insertion order. */
    var entries: Props<seq<Tree>>

    /**
     * For each argument in turn: the schema of its keys, its value array,
     * and `this[schema] = values`; one registry spans all arguments. Once
     * constructed, the registry is released and no schema is stored twice.
     */
    constructor (heap: Heap, objects: seq<nat>)
      requires Closed(heap) && AllIn(heap, objects)
      ensures entries == Encode(heap, objects)
      ensures seenObjects == None
      ensures Distinct(Keys(entries))
    {
      entries := [];
      seenObjects := None;
      new;
      if |objects| == 0 {
        return;
      }
      seenObjects := Some(map[]);
      StoreAll(heap, objects);
      seenObjects := None;
    }

    /** The constructor's forEach over the arguments, with one registry for all of them. */
    method StoreAll(heap: Heap, objects: seq<nat>)
      requires Closed(heap) && AllIn(heap, objects)
      requires seenObjects == Some(map[]) && entries == []
      modifies this
      ensures entries == Encode(heap, objects)
      ensures seenObjects == Some(EncodeEach(heap, map[], objects).seen)
    {
      StoredNone(heap, objects);
      var i := 0;
      while i < |objects|
        invariant 0 <= i <= |objects| && seenObjects.Some?
        invariant StoredUpTo(heap, objects, i, seenObjects.value, entries)
      {
        StoredStep(heap, objects, i, seenObjects.value, entries);
        StoreEntry(heap, objects[i]);
        i := i + 1;
      }
      StoredAll(heap, objects, seenObjects.value, entries);
    }

    /**
     * The body of the constructor's forEach: the schema of the argument's
     * keys, its value array, and `this[schema] = values`.
     */
    method StoreEntry(heap: Heap, id: nat)
      requires Closed(heap) && id in heap && seenObjects.Some? && Distinct(Keys(entries))
      modifies this
      ensures var step := EncodeObject(heap, old(seenObjects).value, id);
        entries == Put(old(entries), step.schema, step.values) && seenObjects == Some(step.seen)
    {
      var es := Entries(heap[id]);
      var schema := SchemaText(Keys(es));
      SlotsOfNode(heap, id, []);
      var values := MapSlots(heap, es);
      entries := Put(entries, schema, values);
    }

    /**
     * #handleRecursiveValue: a registered object becomes the marker of its
     * recorded label; any other object is registered under the current label
     * and its slots are flattened in order.
     */
    method HandleRecursiveValue(heap: Heap, id: nat, name: string) returns (t: Tree)
      requires Closed(heap) && id in heap && seenObjects.Some?
      modifies this`seenObjects
      ensures var f := Flatten(heap, old(seenObjects).value, id, name);
        t == f.tree && seenObjects == Some(f.seen)
      decreases Unvisited(heap, seenObjects.value), 0
    {
      var seen := seenObjects.value;
      if id in seen {
        return Text(Marker(seen[id]));
      }
      seenObjects := Some(seen[id := name]);
      UnvisitedRegister(heap, seen, id, name);
      SlotsOfNode(heap, id, name);
      match heap[id] {
        case ArrayNode(items) =>
          var trees := MapSlots(heap, Labelled(items, name));
          t := Arr(trees);
        case ObjectNode(fields) =>
          var trees := MapSlots(heap, fields);
          t := Obj(Zip(Keys(fields), trees));
      }
    }

    /** The slots in order: primitives and strings are copied, objects go through HandleRecursiveValue. */
    method MapSlots(heap: Heap, slots: Props<Value>) returns (trees: seq<Tree>)
      requires Closed(heap) && SlotsIn(heap, slots) && seenObjects.Some?
      modifies this`seenObjects
      ensures var f := FlattenAll(heap, old(seenObjects).value, slots);
        trees == f.trees && seenObjects == Some(f.seen)
      decreases Unvisited(heap, seenObjects.value), |slots| + 2
    {
      ghost var start := seenObjects.value;
      trees := [];
      var i := 0;
      while i < |slots|
        invariant 0 <= i <= |slots|
        invariant SlotsIn(heap, slots[..i])
        invariant var f := FlattenAll(heap, start, slots[..i]);
          trees == f.trees && seenObjects == Some(f.seen)
      {
        ghost var prev := FlattenAll(heap, start, slots[..i]);
        ghost var step := FlattenSlot(heap, prev.seen, slots[i]);
        FlattenAllSnoc(heap, start, slots, i);
        SlotsInInit(heap, slots, i);
        var t;
        match slots[i].1 {
          case Prim(a) =>
            t := Leaf(a);
          case Str(s) =>
            t := Text(s);
          case Ref(id) =>
            UnvisitedShrinks(heap, start, prev.seen);
            t := HandleRecursiveValue(heap, id, slots[i].0);
        }
        assert t == step.tree && seenObjects == Some(step.seen);
        trees := trees + [t];
        i := i + 1;
      }
      assert slots[..i] == slots;
    }

    /**
     * toOriginalStructure: one restored object per entry, pushed in entry
     * order, then the reference pass over each; the single object when there
     * is one entry, the list otherwise.
     */
    method ToOriginalStructure() returns (r: Result<Restored>)
      ensures r == Decode(entries)
    {
      var restored := RebuildEntries(entries);
      if restored.Err? {
        return Err(restored.error);
      }
      var resolved := ProcessAll(restored.value);
      if resolved.Err? {
        return Err(resolved.error);
      }
      var objs := resolved.value;
      return Ok(if |objs| == 1 then Single(objs[0]) else Many(objs));
    }

    /** [Symbol.iterator]: the value arrays of the entries, in insertion order. */
    method Iterate() returns (values: seq<seq<Tree>>)
      ensures values == Values(entries)
    {
      values := [];
      for i := 0 to |entries|
        invariant values == Values(entries[..i])
      {
        values := values + [entries[i].1];
      }
      assert entries[..|entries|] == entries;
    }
  }

  /**
   * The first loop of toOriginalStructure: for each entry, JSON.parse of its
   * schema, its keys bound to the entry's values, the object pushed.
   */
  method RebuildEntries(es: Props<seq<Tree>>) returns (r: Result<seq<Decoded>>)
    ensures r == RebuildAll(es)
  {
    var result: seq<Decoded> := [];
    ghost var parses := Parses(es);
    var i := 0;
    while i < |es|
      invariant 0 <= i <= |es| && |result| == i
      invariant RebuiltPrefix(parses, es, result)
    {
      var parsed := ParseSchema(es[i].0);
      assert parsed == parses[i];
      if parsed.Err? {
        RebuildAllFirstError(es, i);
        return Err(parsed.error);
      }
      RebuiltPrefixSnoc(parses, es, result, parsed.value);
      result := result + [RebuildEntry(parsed.value, es[i].1)];
      i := i + 1;
    }
    RebuildAllOk(es, result);
    return Ok(result);
  }

  /** `result.forEach(processReferences)`: the reference pass over each restored object, in order. */
  method ProcessAll(objs: seq<Decoded>) returns (r: Result<seq<Decoded>>)
    ensures r == ResolveAll(objs)
  {
    var result := objs;
    var j := 0;
    while j < |result|
      invariant 0 <= j <= |result| == |objs|
      invariant forall k :: 0 <= k < j ==> Resolve(objs[k]) == Ok(result[k])
      invariant result[j..] == objs[j..]
    {
      assert result[j..][0] == objs[j..][0];
      var resolved := ProcessReferences(result[j]);
      if resolved.Err? {
        AllOkFirstError(seq(|objs|, k requires 0 <= k < |objs| => Resolve(objs[k])), j);
        return Err(resolved.error);
      }
      result := result[j := resolved.value];
      j := j + 1;
      assert result[j..] == objs[j..] by {
        assert forall k :: j <= k < |objs| ==> result[k] == objs[k];
      }
    }
    ResolveAllAt(objs);
    assert ResolveAll(objs).Ok?;
    assert ResolveAll(objs).value == result by {
      assert forall k :: 0 <= k < |objs| ==> ResolveAll(objs).value[k] == result[k];
    }
    return Ok(result);
  }

  /** processReferences: the slots of a container resolved against it, keys kept. */
  method ProcessReferences(d: Decoded) returns (r: Result<Decoded>)
    ensures r == Resolve(d)
    decreases d, 1
  {
    match d {
      case DArr(items) =>
        var out := ProcessSlots(d, items);
        if out.Err? {
          return Err(out.error);
        }
        r := Ok(DArr(out.value));
      case DObj(fields) =>
        var out := ProcessSlots(d, Values(fields));
        if out.Err? {
          return Err(out.error);
        }
        r := Ok(DObj(Zip(Keys(fields), out.value)));
      case _ =>
        r := Ok(d);
    }
  }

  /**
   * The loop of processReferences over a snapshot of the container's
   * entries: each slot is resolved against the container and written back
   * in place; a slot written back is not visited again.
   */
  method ProcessSlots(container: Decoded, vs: seq<Decoded>) returns (r: Result<seq<Decoded>>)
    requires container.IsContainer()
    requires forall i :: 0 <= i < |vs| ==> vs[i] < container
    ensures r == ResolveList(container, vs)
    decreases container, 0, |vs|
  {
    var out := vs;
    var i := 0;
    while i < |vs|
      invariant 0 <= i <= |vs| && |out| == |vs|
      invariant ResolveList(container, vs[..i]) == Ok(out[..i])
      invariant out[i..] == vs[i..]
    {
      assert out[i..][0] == vs[i];
      var v := ProcessSlot(container, vs[i]);
      ResolveListStep(container, vs, i);
      if v.Err? {
        ResolveListErrPrefix(container, vs, i + 1);
        return Err(v.error);
      }
      out := out[i := v.value];
      assert out[..i + 1] == out[..i] + [v.value];
      i := i + 1;
    }
    assert vs[..i] == vs && out[..i] == out;
    r := Ok(out);
  }

  /** One slot: a marker-shaped string is looked up along the chain, a nested container is processed. */
  method ProcessSlot(container: Decoded, v: Decoded) returns (r: Result<Decoded>)
    requires container.IsContainer()
    ensures r == ResolveSlot(container, v)
    decreases v, 2
  {
    match v {
      case DText(s) =>
        if IsMarker(s) {
          var h := FindHolder(container, s[1..|s| - 1]);
          if h.Err? {
            return Err(h.error);
          }
          match h.value {
            case None => r := Ok(v);
            case Some(Self) => r := Ok(Owner);
            case Some(Inherited(p)) => r := Ok(Builtin(p));
          }
        } else {
          r := Ok(v);
        }
      case DArr(_) =>
        r := ProcessReferences(v);
      case DObj(_) =>
        r := ProcessReferences(v);
      case _ =>
        r := Ok(v);
    }
  }

  /**
   * The lookup loop: starting at the container, climb the chain until a
   * level owns the name. Asking the container itself whether it owns the
   * name throws when its own hasOwnProperty is not a function.
   */
  method FindHolder(d: Decoded, name: string) returns (r: Result<Option<Holder>>)
    requires d.IsContainer()
    ensures r == HolderOf(d, name)
  {
    var chain := Chain(d);
    if !Shadowed(d) {
      HolderIsFirstOwner(d, name);
    }
    var k := 0;
    while k < |chain|
      invariant 0 <= k <= |chain|
      invariant k > 0 ==> !Shadowed(d)
      invariant forall j :: 0 <= j < k ==> !Owns(d, chain[j], name)
    {
      if k == 0 && Shadowed(d) {
        return Err(NotAFunction);
      }
      if Owns(d, chain[k], name) {
        return Ok(Some(chain[k]));
      }
      k := k + 1;
    }
    return Ok(None);
  }
}
