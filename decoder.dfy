/**
 * toOriginalStructure: every entry's schema is parsed back into its key list
 * and zipped with the entry's value array into a fresh object (nested arrays
 * and objects are deep copies, #reconstructObject); then a reference pass
 * replaces each marker-shaped string by the object on its container's
 * lookup chain that owns the label.
 */
module Decoder {
  import opened Wrappers
  import opened Json
  import opened Props
  import opened Objects

  /** The built-in prototypes a lookup chain can reach. */
  datatype Proto = ObjectPrototype | ArrayPrototype

  /**
   * A value of the restored structure. Besides copies of flattened values
   * it can hold the two kinds of object the reference pass writes into a
   * slot: Owner, the array or object that holds the slot itself, and a
   * built-in prototype.
   */
  datatype Decoded =
    | DLeaf(a: Atom)
    | DText(s: string)
    | DArr(items: seq<Decoded>)
    | DObj(fields: Props<Decoded>)
    | Owner
    | Builtin(proto: Proto)
  {
    predicate IsContainer() {
      DArr? || DObj?
    }
  }

  // ---------------------------------------------------------------------------
  // Deep copy (#reconstructObject)
  // ---------------------------------------------------------------------------

  /** A copy of a flattened value: arrays stay arrays, objects keep their keys in order. */
  function Rebuild(t: Tree): (d: Decoded)
    ensures t.Leaf? <==> d.DLeaf?
    ensures t.Text? <==> d.DText?
    ensures t.Arr? <==> d.DArr?
    ensures t.Obj? <==> d.DObj?
    ensures t.Arr? ==> |d.items| == |t.items|
    ensures t.Obj? ==> Keys(d.fields) == Keys(t.fields)
  {
    match t
    case Leaf(a) => DLeaf(a)
    case Text(s) => DText(s)
    case Arr(items) => DArr(seq(|items|, i requires 0 <= i < |items| => Rebuild(items[i])))
    case Obj(fields) =>
      var fs := seq(|fields|, i requires 0 <= i < |fields| => (fields[i].0, Rebuild(fields[i].1)));
      assert Keys(fs) == Keys(fields);
      DObj(fs)
  }

  /** A restored value that holds no object written by the reference pass. */
  predicate Plain(d: Decoded) {
    match d
    case DArr(items) => forall i :: 0 <= i < |items| ==> Plain(items[i])
    case DObj(fields) => forall i :: 0 <= i < |fields| ==> Plain(fields[i].1)
    case Owner => false
    case Builtin(_) => false
    case _ => true
  }

  /** The flattened value a plain restored value is a copy of. */
  function Erase(d: Decoded): Tree
    requires Plain(d)
  {
    match d
    case DLeaf(a) => Leaf(a)
    case DText(s) => Text(s)
    case DArr(items) => Arr(seq(|items|, i requires 0 <= i < |items| => Erase(items[i])))
    case DObj(fields) => Obj(seq(|fields|, i requires 0 <= i < |fields| => (fields[i].0, Erase(fields[i].1))))
  }

  /** The copy is exact: erasing it gives back the value it was made from. */
  lemma {:induction false} EraseRebuild(t: Tree)
    ensures Plain(Rebuild(t)) && Erase(Rebuild(t)) == t
  {
    match t
    case Leaf(_) =>
    case Text(_) =>
    case Arr(items) =>
      forall i | 0 <= i < |items| ensures Plain(Rebuild(items[i])) && Erase(Rebuild(items[i])) == items[i] {
        EraseRebuild(items[i]);
      }
    case Obj(fields) =>
      forall i | 0 <= i < |fields| ensures Plain(Rebuild(fields[i].1)) && Erase(Rebuild(fields[i].1)) == fields[i].1 {
        EraseRebuild(fields[i].1);
      }
  }

  lemma RebuildInjective(s: Tree, t: Tree)
    requires Rebuild(s) == Rebuild(t)
    ensures s == t
  {
    EraseRebuild(s);
    EraseRebuild(t);
  }

  // ---------------------------------------------------------------------------
  // The lookup chain
  // ---------------------------------------------------------------------------

  /** The own property names of Object.prototype (ECMAScript 2023). */
  const ObjectPrototypeNames: set<string> := {
    "constructor", "__defineGetter__", "__defineSetter__", "hasOwnProperty",
    "__lookupGetter__", "__lookupSetter__", "isPrototypeOf", "propertyIsEnumerable",
    "toString", "valueOf", "__proto__", "toLocaleString"
  }

  /** The own string-keyed property names of Array.prototype (ECMAScript 2023). */
  const ArrayPrototypeNames: set<string> := {
    "length", "constructor", "at", "concat", "copyWithin", "fill", "find", "findIndex",
    "findLast", "findLastIndex", "lastIndexOf", "pop", "push", "reverse", "shift",
    "unshift", "slice", "sort", "splice", "includes", "indexOf", "join", "keys",
    "entries", "values", "forEach", "filter", "flat", "flatMap", "map", "every", "some",
    "reduce", "reduceRight", "toLocaleString", "toString", "toReversed", "toSorted",
    "toSpliced", "with"
  }

  /** The own property names of a restored array or object. */
  function OwnKeys(d: Decoded): set<string>
    requires d.IsContainer()
  {
    match d
    case DArr(items) => (set i | 0 <= i < |items| :: NatToString(i)) + {"length"}
    case DObj(fields) => set k | k in Keys(fields)
  }

  /** A level of the lookup chain: the container itself or a prototype. */
  datatype Holder = Self | Inherited(proto: Proto)

  /** The lookup chain of a container, from the container to the last prototype. */
  function Chain(d: Decoded): (c: seq<Holder>)
    requires d.IsContainer()
    ensures |c| >= 2 && c[0] == Self && c[|c| - 1] == Inherited(ObjectPrototype)
  {
    if d.DArr? then [Self, Inherited(ArrayPrototype), Inherited(ObjectPrototype)]
    else [Self, Inherited(ObjectPrototype)]
  }

  /** Whether the given level of d's chain has an own property name. */
  predicate Owns(d: Decoded, h: Holder, name: string)
    requires d.IsContainer()
  {
    match h
    case Self => name in OwnKeys(d)
    case Inherited(ArrayPrototype) => name in ArrayPrototypeNames
    case Inherited(ObjectPrototype) => name in ObjectPrototypeNames
  }

  /**
   * An object with an own "hasOwnProperty" property: calling
   * target.hasOwnProperty on it throws, since no restored value is a function.
   */
  predicate Shadowed(d: Decoded) {
    d.DObj? && "hasOwnProperty" in Keys(d.fields)
  }

  const NotAFunction := "TypeError: target.hasOwnProperty is not a function"

  /**
   * The object the lookup of name stops at, starting from the container: the
   * container when it owns the name, else the first prototype that does,
   * else none.
   */
  function HolderOf(d: Decoded, name: string): Result<Option<Holder>>
    requires d.IsContainer()
  {
    if Shadowed(d) then Err(NotAFunction)
    else if name in OwnKeys(d) then Ok(Some(Self))
    else if d.DArr? && name in ArrayPrototypeNames then Ok(Some(Inherited(ArrayPrototype)))
    else if name in ObjectPrototypeNames then Ok(Some(Inherited(ObjectPrototype)))
    else Ok(None)
  }

  /** The lookup stops at the first level of the chain that owns the name, and only there. */
  lemma HolderIsFirstOwner(d: Decoded, name: string)
    requires d.IsContainer() && !Shadowed(d)
    ensures forall k :: 0 <= k < |Chain(d)| ==>
      (HolderOf(d, name) == Ok(Some(Chain(d)[k])) <==>
        Owns(d, Chain(d)[k], name) && forall j :: 0 <= j < k ==> !Owns(d, Chain(d)[j], name))
    ensures HolderOf(d, name) == Ok(None) <==>
      forall k :: 0 <= k < |Chain(d)| ==> !Owns(d, Chain(d)[k], name)
  {
    var c := Chain(d);
    assert Owns(d, c[0], name) <==> name in OwnKeys(d);
    if d.DArr? {
      assert c == [Self, Inherited(ArrayPrototype), Inherited(ObjectPrototype)];
      assert Owns(d, c[1], name) <==> name in ArrayPrototypeNames;
      assert Owns(d, c[2], name) <==> name in ObjectPrototypeNames;
    } else {
      assert c == [Self, Inherited(ObjectPrototype)];
      assert Owns(d, c[1], name) <==> name in ObjectPrototypeNames;
    }
  }

  // ---------------------------------------------------------------------------
  // The reference pass (processReferences)
  // ---------------------------------------------------------------------------

  /** A string that starts with '{' and ends with '}'. */
  predicate IsMarker(s: string) {
    |s| >= 2 && s[0] == '{' && s[|s| - 1] == '}'
  }

  /** The label a marker-shaped string names: the string without its braces. */
  function Label(s: string): (name: string)
    requires IsMarker(s)
    ensures |name| == |s| - 2
  {
    s[1..|s| - 1]
  }

  /** One slot of a container: a marker-shaped string is looked up, a nested container is processed. */
  function ResolveSlot(container: Decoded, v: Decoded): (r: Result<Decoded>)
    requires container.IsContainer()
    decreases v, 2
  {
    match v
    case DText(s) =>
      if IsMarker(s) then
        var h :- HolderOf(container, Label(s));
        match h
        case None => Ok(v)
        case Some(Self) => Ok(Owner)
        case Some(Inherited(p)) => Ok(Builtin(p))
      else Ok(v)
    case DArr(_) => Resolve(v)
    case DObj(_) => Resolve(v)
    case _ => Ok(v)
  }

  /** The slots of a container, left to right; the first slot that throws ends the pass. */
  function ResolveList(container: Decoded, vs: seq<Decoded>): (r: Result<seq<Decoded>>)
    requires container.IsContainer()
    requires forall i :: 0 <= i < |vs| ==> vs[i] < container
    ensures r.Ok? ==> |r.value| == |vs|
    decreases container, 0, |vs|
  {
    if vs == [] then Ok([])
    else
      var init :- ResolveList(container, vs[..|vs| - 1]);
      var last :- ResolveSlot(container, vs[|vs| - 1]);
      Ok(init + [last])
  }

  /**
   * processReferences: the slots of a container, keys kept, each slot
   * resolved against this container. Prototypes have no enumerable
   * properties, so the pass leaves them and plain values unchanged.
   */
  function Resolve(d: Decoded): (r: Result<Decoded>)
    ensures r.Ok? && d.IsContainer() ==> SameFrame(d, r.value)
    ensures !d.IsContainer() ==> r == Ok(d)
    decreases d, 1
  {
    match d
    case DArr(items) =>
      var rs :- ResolveList(d, items);
      Ok(DArr(rs))
    case DObj(fields) =>
      var rs :- ResolveList(d, Values(fields));
      Ok(DObj(Zip(Keys(fields), rs)))
    case _ => Ok(d)
  }

  /** Two containers on which every lookup ends alike: same kind, same own keys. */
  predicate SameFrame(c: Decoded, e: Decoded) {
    c.IsContainer() && e.IsContainer() && c.DArr? == e.DArr? &&
    OwnKeys(c) == OwnKeys(e) && Shadowed(c) == Shadowed(e)
  }

  lemma SameFrameHolder(c: Decoded, e: Decoded, name: string)
    requires SameFrame(c, e)
    ensures HolderOf(c, name) == HolderOf(e, name)
  {
  }

  /** Each slot of a resolved container is its slot of the input, resolved against that container. */
  lemma {:induction false} ResolveListAt(container: Decoded, vs: seq<Decoded>)
    requires container.IsContainer()
    requires forall i :: 0 <= i < |vs| ==> vs[i] < container
    requires ResolveList(container, vs).Ok?
    ensures forall i :: 0 <= i < |vs| ==>
      ResolveSlot(container, vs[i]) == Ok(ResolveList(container, vs).value[i])
    decreases |vs|
  {
    if vs != [] {
      var n := |vs| - 1;
      ResolveListAt(container, vs[..n]);
    }
  }

  /** Resolving one more slot extends the resolved prefix, or fails with that slot's error. */
  lemma ResolveListStep(container: Decoded, vs: seq<Decoded>, i: nat)
    requires container.IsContainer()
    requires forall j :: 0 <= j < |vs| ==> vs[j] < container
    requires i < |vs| && ResolveList(container, vs[..i]).Ok?
    ensures ResolveSlot(container, vs[i]).Err? ==>
      ResolveList(container, vs[..i + 1]) == Err(ResolveSlot(container, vs[i]).error)
    ensures ResolveSlot(container, vs[i]).Ok? ==>
      ResolveList(container, vs[..i + 1]) ==
        Ok(ResolveList(container, vs[..i]).value + [ResolveSlot(container, vs[i]).value])
  {
    PrefixOfPrefix(vs, i + 1, i);
    assert vs[..i + 1][i] == vs[i];
  }

  /** The first slot that throws ends the pass: a failing prefix fails the whole list alike. */
  lemma {:induction false} ResolveListErrPrefix(container: Decoded, vs: seq<Decoded>, k: nat)
    requires container.IsContainer()
    requires forall i :: 0 <= i < |vs| ==> vs[i] < container
    requires k <= |vs| && ResolveList(container, vs[..k]).Err?
    ensures ResolveList(container, vs) == ResolveList(container, vs[..k])
    decreases |vs|
  {
    if k == |vs| {
      assert vs[..k] == vs;
    } else {
      var n := |vs| - 1;
      PrefixOfPrefix(vs, n, k);
      ResolveListErrPrefix(container, vs[..n], k);
    }
  }

  /** A value with no marker-shaped string anywhere in it. */
  predicate Unmarked(d: Decoded) {
    match d
    case DText(s) => !IsMarker(s)
    case DArr(items) => forall i :: 0 <= i < |items| ==> Unmarked(items[i])
    case DObj(fields) => forall i :: 0 <= i < |fields| ==> Unmarked(fields[i].1)
    case _ => true
  }

  /** Without marker-shaped strings the reference pass changes nothing. */
  lemma {:induction false} ResolveUnmarked(d: Decoded)
    requires Unmarked(d)
    ensures Resolve(d) == Ok(d)
    decreases d, 1
  {
    match d
    case DArr(items) =>
      ResolveListUnmarked(d, items);
    case DObj(fields) =>
      ResolveListUnmarked(d, Values(fields));
      ZipKeysValues(fields);
    case _ =>
  }

  lemma {:induction false} ResolveListUnmarked(container: Decoded, vs: seq<Decoded>)
    requires container.IsContainer()
    requires forall i :: 0 <= i < |vs| ==> vs[i] < container && Unmarked(vs[i])
    ensures ResolveList(container, vs) == Ok(vs)
    decreases container, 0, |vs|
  {
    if vs != [] {
      var n := |vs| - 1;
      ResolveListUnmarked(container, vs[..n]);
      if vs[n].IsContainer() {
        ResolveUnmarked(vs[n]);
      }
      assert vs[..n] + [vs[n]] == vs;
    }
  }

  /**
   * Some container holds a marker-shaped string while having an own
   * "hasOwnProperty" property: the lookup for that string throws.
   */
  predicate Throws(d: Decoded)
    decreases d, 1
  {
    match d
    case DArr(items) => exists i :: 0 <= i < |items| && SlotThrows(d, items[i])
    case DObj(fields) => exists i :: 0 <= i < |fields| && SlotThrows(d, fields[i].1)
    case _ => false
  }

  predicate SlotThrows(container: Decoded, v: Decoded)
    requires container.IsContainer()
    decreases v, 2
  {
    match v
    case DText(s) => IsMarker(s) && Shadowed(container)
    case DArr(_) => Throws(v)
    case DObj(_) => Throws(v)
    case _ => false
  }

  /** The reference pass throws exactly when some lookup meets a shadowed hasOwnProperty, and only that TypeError. */
  lemma {:induction false} ResolveFails(d: Decoded)
    ensures Resolve(d).Err? <==> Throws(d)
    ensures Resolve(d).Err? ==> Resolve(d).error == NotAFunction
    decreases d, 1
  {
    match d
    case DArr(items) =>
      ResolveListFails(d, items);
    case DObj(fields) =>
      ResolveListFails(d, Values(fields));
    case _ =>
  }

  lemma {:induction false} ResolveListFails(container: Decoded, vs: seq<Decoded>)
    requires container.IsContainer()
    requires forall i :: 0 <= i < |vs| ==> vs[i] < container
    ensures ResolveList(container, vs).Err? <==>
      exists i :: 0 <= i < |vs| && SlotThrows(container, vs[i])
    ensures ResolveList(container, vs).Err? ==> ResolveList(container, vs).error == NotAFunction
    decreases container, 0, |vs|
  {
    if vs != [] {
      var n := |vs| - 1;
      ResolveListFails(container, vs[..n]);
      var v := vs[n];
      if v.IsContainer() {
        ResolveFails(v);
      }
      assert (exists i :: 0 <= i < |vs| && SlotThrows(container, vs[i])) <==>
        (exists i :: 0 <= i < n && SlotThrows(container, vs[..n][i])) || SlotThrows(container, v)
      by {
        if SlotThrows(container, v) {
        } else if i :| 0 <= i < |vs| && SlotThrows(container, vs[i]) {
          assert i < n && vs[..n][i] == vs[i];
        }
      }
    }
  }

  /**
   * A restored value none of whose slots holds its own container. Only such
   * a value can be processed again: a second processReferences descends into
   * every slot that holds an object, and a slot holding its own container
   * leads back to that container without end.
   */
  predicate NoOwner(d: Decoded) {
    match d
    case DArr(items) => forall i :: 0 <= i < |items| ==> NoOwner(items[i])
    case DObj(fields) => forall i :: 0 <= i < |fields| ==> NoOwner(fields[i].1)
    case Owner => false
    case _ => true
  }

  /**
   * A second reference pass over a resolved value without self links changes
   * nothing more: it meets only the built-in prototypes, which have no
   * enumerable own properties.
   */
  lemma {:induction false} ResolveIdempotent(d: Decoded)
    requires Resolve(d).Ok? && NoOwner(Resolve(d).value)
    ensures Resolve(Resolve(d).value) == Resolve(d)
    decreases d, 1
  {
    var e := Resolve(d).value;
    match d
    case DArr(items) =>
      ResolveListIdempotent(d, e, items);
    case DObj(fields) =>
      assert forall i :: 0 <= i < |fields| ==> e.fields[i].1 == ResolveList(d, Values(fields)).value[i];
      ResolveListIdempotent(d, e, Values(fields));
      ZipKeysValues(e.fields);
    case _ =>
  }

  lemma {:induction false} ResolveListIdempotent(container: Decoded, after: Decoded, vs: seq<Decoded>)
    requires SameFrame(container, after)
    requires forall i :: 0 <= i < |vs| ==> vs[i] < container
    requires ResolveList(container, vs).Ok?
    requires forall i :: 0 <= i < |vs| ==> ResolveList(container, vs).value[i] < after
    requires forall i :: 0 <= i < |vs| ==> NoOwner(ResolveList(container, vs).value[i])
    ensures ResolveList(after, ResolveList(container, vs).value) == ResolveList(container, vs)
    decreases container, 0, |vs|
  {
    if vs != [] {
      var n := |vs| - 1;
      var ws := ResolveList(container, vs).value;
      var init := ResolveList(container, vs[..n]).value;
      var w := ResolveSlot(container, vs[n]).value;
      assert ws == init + [w];
      assert ws[..n] == init && ws[n] == w;
      ResolveListIdempotent(container, after, vs[..n]);
      ResolveSlotIdempotent(container, after, vs[n]);
      ResolveListSnocUnchanged(after, init, w);
    }
  }

  lemma {:induction false} ResolveSlotIdempotent(container: Decoded, after: Decoded, v: Decoded)
    requires SameFrame(container, after) && v < container
    requires ResolveSlot(container, v).Ok? && ResolveSlot(container, v).value < after
    requires NoOwner(ResolveSlot(container, v).value)
    ensures ResolveSlot(after, ResolveSlot(container, v).value) == ResolveSlot(container, v)
    decreases v, 2
  {
    match v
    case DText(s) =>
      if IsMarker(s) {
        SameFrameHolder(container, after, Label(s));
      }
    case DArr(_) =>
      ResolveIdempotent(v);
    case DObj(_) =>
      ResolveIdempotent(v);
    case _ =>
  }

  lemma ResolveListSnocUnchanged(container: Decoded, ws: seq<Decoded>, w: Decoded)
    requires container.IsContainer()
    requires forall i :: 0 <= i < |ws| ==> ws[i] < container
    requires w < container
    requires ResolveList(container, ws) == Ok(ws) && ResolveSlot(container, w) == Ok(w)
    ensures forall i :: 0 <= i < |ws + [w]| ==> (ws + [w])[i] < container
    ensures ResolveList(container, ws + [w]) == Ok(ws + [w])
  {
    assert (ws + [w])[..|ws|] == ws;
  }

  // ---------------------------------------------------------------------------
  // Restoring the entries (toOriginalStructure)
  // ---------------------------------------------------------------------------

  /**
   * The object restored from one entry: key i bound to a copy of values[i],
   * or to undefined when the value array is shorter than the key list.
   */
  function RebuildEntry(keys: seq<string>, values: seq<Tree>): (d: Decoded)
    ensures d.DObj? && Keys(d.fields) == keys
    ensures forall i :: |values| <= i < |keys| ==> d.fields[i].1 == DLeaf(Undefined)
  {
    DObj(Zip(keys, seq(|keys|, i requires 0 <= i < |keys| =>
      if i < |values| then Rebuild(values[i]) else DLeaf(Undefined))))
  }

  /** Key i of a restored entry holds an exact copy of value i. */
  lemma RebuildEntryValues(keys: seq<string>, values: seq<Tree>)
    ensures var d := RebuildEntry(keys, values);
      forall i :: 0 <= i < |keys| && i < |values| ==>
        Plain(d.fields[i].1) && Erase(d.fields[i].1) == values[i]
  {
    var d := RebuildEntry(keys, values);
    forall i | 0 <= i < |keys| && i < |values|
      ensures Plain(d.fields[i].1) && Erase(d.fields[i].1) == values[i]
    {
      assert d.fields[i].1 == Rebuild(values[i]);
      EraseRebuild(values[i]);
    }
  }

  /** JSON.parse of every schema text, in entry order. */
  function Parses(entries: Props<seq<Tree>>): (ps: seq<Result<seq<string>>>)
    ensures |ps| == |entries|
    ensures forall i :: 0 <= i < |entries| ==> ps[i] == ParseSchema(entries[i].0)
  {
    seq(|entries|, i requires 0 <= i < |entries| => ParseSchema(entries[i].0))
  }

  /**
   * The first pass: one fresh object per entry, in entry order; the first
   * unreadable schema throws. (Building an object never throws, so parsing
   * all schemas before building the objects gives the same outcome.)
   */
  function RebuildAll(entries: Props<seq<Tree>>): (r: Result<seq<Decoded>>)
    ensures r.Ok? ==> |r.value| == |entries|
  {
    var keyLists :- AllOk(Parses(entries));
    Ok(seq(|entries|, i requires 0 <= i < |entries| => RebuildEntry(keyLists[i], entries[i].1)))
  }

  /** The second pass: processReferences on each restored object, in order. */
  function ResolveAll(objs: seq<Decoded>): (r: Result<seq<Decoded>>)
    ensures r.Ok? ==> |r.value| == |objs|
  {
    AllOk(seq(|objs|, i requires 0 <= i < |objs| => Resolve(objs[i])))
  }

  /** What toOriginalStructure returns: the one restored object, or the list of them. */
  datatype Restored = Single(obj: Decoded) | Many(objs: seq<Decoded>) {
    function List(): seq<Decoded> {
      if Single? then [obj] else objs
    }
  }

  function Decode(entries: Props<seq<Tree>>): Result<Restored> {
    var objs :- RebuildAll(entries);
    var rs :- ResolveAll(objs);
    Ok(if |rs| == 1 then Single(rs[0]) else Many(rs))
  }

  /** Object i of the first pass is entry i's schema keys zipped with entry i's values. */
  lemma RebuildAllAt(entries: Props<seq<Tree>>)
    ensures RebuildAll(entries).Ok? <==> forall i :: 0 <= i < |entries| ==> ParseSchema(entries[i].0).Ok?
    ensures RebuildAll(entries).Ok? ==> forall i :: 0 <= i < |entries| ==>
      RebuildAll(entries).value[i] == RebuildEntry(ParseSchema(entries[i].0).value, entries[i].1)
  {
    AllOkAt(Parses(entries));
  }
  /** The first schema that does not parse ends the restoring with its error. */
  lemma RebuildAllFirstError(entries: Props<seq<Tree>>, i: nat)
    requires i < |entries| && Parses(entries)[i].Err?
    requires forall j :: 0 <= j < i ==> Parses(entries)[j].Ok?
    ensures RebuildAll(entries) == Err(Parses(entries)[i].error)
  {
    AllOkFirstError(Parses(entries), i);
  }

  /** When every schema parses, the restored objects are the entries rebuilt one by one. */
  lemma RebuildAllOk(entries: Props<seq<Tree>>, objs: seq<Decoded>)
    requires |objs| == |entries|
    requires forall j :: 0 <= j < |entries| ==>
      Parses(entries)[j].Ok? && objs[j] == RebuildEntry(Parses(entries)[j].value, entries[j].1)
    ensures RebuildAll(entries) == Ok(objs)
  {
    RebuildAllAt(entries);
    assert RebuildAll(entries).value == objs;
  }

  /** objs are the first |objs| entries rebuilt, each from its parsed schema in ps, which parses. */
  ghost predicate RebuiltPrefix(ps: seq<Result<seq<string>>>, entries: Props<seq<Tree>>, objs: seq<Decoded>) {
    |objs| <= |entries| && |objs| <= |ps| &&
    forall j :: 0 <= j < |objs| ==> ps[j].Ok? && objs[j] == RebuildEntry(ps[j].value, entries[j].1)
  }

  /** Rebuilding the next entry, whose schema parses, extends the prefix. */
  lemma RebuiltPrefixSnoc(ps: seq<Result<seq<string>>>, entries: Props<seq<Tree>>, objs: seq<Decoded>, keys: seq<string>)
    requires RebuiltPrefix(ps, entries, objs) && |objs| < |entries| && |objs| < |ps|
    requires ps[|objs|] == Ok(keys)
    ensures RebuiltPrefix(ps, entries, objs + [RebuildEntry(keys, entries[|objs|].1)])
  {
    var next := objs + [RebuildEntry(keys, entries[|objs|].1)];
    forall j | 0 <= j < |next|
      ensures ps[j].Ok? && next[j] == RebuildEntry(ps[j].value, entries[j].1)
    {
      if j < |objs| {
        assert next[j] == objs[j];
      }
    }
  }



  lemma ResolveAllAt(objs: seq<Decoded>)
    ensures ResolveAll(objs).Ok? <==> forall i :: 0 <= i < |objs| ==> Resolve(objs[i]).Ok?
    ensures ResolveAll(objs).Ok? ==> forall i :: 0 <= i < |objs| ==>
      Resolve(objs[i]) == Ok(ResolveAll(objs).value[i])
  {
    var rs := seq(|objs|, i requires 0 <= i < |objs| => Resolve(objs[i]));
    AllOkAt(rs);
    assert forall i :: 0 <= i < |objs| ==> rs[i] == Resolve(objs[i]);
  }

  /**
   * One restored object per entry, in entry order, with the entry's schema
   * keys bound to its values and references resolved; a single entry gives
   * the object itself, any other count the list.
   */
  lemma DecodeShape(entries: Props<seq<Tree>>)
    requires Decode(entries).Ok?
    ensures var r := Decode(entries).value;
      (r.Single? <==> |entries| == 1) && |r.List()| == |entries| &&
      forall i :: 0 <= i < |entries| ==>
        ParseSchema(entries[i].0).Ok? &&
        Resolve(RebuildEntry(ParseSchema(entries[i].0).value, entries[i].1)) == Ok(r.List()[i])
  {
    RebuildAllAt(entries);
    ResolveAllAt(RebuildAll(entries).value);
    var rs := ResolveAll(RebuildAll(entries).value).value;
    if |rs| == 1 {
      assert [rs[0]] == rs;
    }
  }

  /**
   * toOriginalStructure throws exactly when some schema does not parse, or
   * when every schema parses and the reference pass over some restored object throws.
   */
  lemma DecodeFails(entries: Props<seq<Tree>>)
    ensures Decode(entries).Err? <==>
      (exists i :: 0 <= i < |entries| && ParseSchema(entries[i].0).Err?) ||
      (exists i :: 0 <= i < |entries| && ParseSchema(entries[i].0).Ok? &&
        Throws(RebuildEntry(ParseSchema(entries[i].0).value, entries[i].1)))
  {
    RebuildAllAt(entries);
    if RebuildAll(entries).Ok? {
      var objs := RebuildAll(entries).value;
      ResolveAllAt(objs);
      forall i | 0 <= i < |entries| ensures Resolve(objs[i]).Err? <==> Throws(objs[i]) {
        ResolveFails(objs[i]);
      }
    }
  }

  /** An instance without entries restores to the empty list. */
  lemma DecodeEmpty()
    ensures Decode([]) == Ok(Many([]))
  {
  }
}

