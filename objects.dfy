/**
 * The objects the encoder reads and the trees it writes. Input objects live in
 * a heap (an arena from identities to nodes), so that two properties can hold
 * the same object and an object can hold itself; the identity registry is
 * keyed by these identities.
 */
module Objects {
  import opened Json
  import opened Props

  /** A JavaScript value that is not an object: undefined, null, a boolean or a number. */
  datatype Atom = Undefined | Null | Bool(b: bool) | Num(n: int)

  /** A property value of an input object: a primitive, a string, or a reference to a heap object. */
  datatype Value = Prim(a: Atom) | Str(s: string) | Ref(id: nat)

  /** An input array or plain object. */
  datatype HeapNode = ArrayNode(items: seq<Value>) | ObjectNode(fields: Props<Value>)

  type Heap = map<nat, HeapNode>

  /** A flattened value, as it is stored in an entry's value array: no identities, markers are plain strings. */
  datatype Tree = Leaf(a: Atom) | Text(s: string) | Arr(items: seq<Tree>) | Obj(fields: Props<Tree>)

  /** Object.entries of a heap node: an array's entries are keyed by their decimal index. */
  function Entries(n: HeapNode): Props<Value> {
    match n
    case ObjectNode(fields) => fields
    case ArrayNode(items) => seq(|items|, i requires 0 <= i < |items| => (NatToString(i), items[i]))
  }

  /** Every reference among the slots names an object of the heap. */
  predicate SlotsIn(heap: Heap, slots: Props<Value>) {
    forall i :: 0 <= i < |slots| && slots[i].1.Ref? ==> slots[i].1.id in heap
  }

  /** An object that has each key once and refers only to objects of the heap. */
  predicate NodeClosed(heap: Heap, id: nat)
    requires id in heap
  {
    (heap[id].ObjectNode? ==> Distinct(Keys(heap[id].fields))) && SlotsIn(heap, Entries(heap[id]))
  }

  /** A heap all of whose objects are closed. */
  predicate Closed(heap: Heap) {
    forall id {:trigger NodeClosed(heap, id)} :: id in heap ==> NodeClosed(heap, id)
  }

  lemma NatToStringInjective(m: nat, n: nat)
    requires NatToString(m) == NatToString(n)
    ensures m == n
  {
    DigitsValueOfNatToString(m);
    DigitsValueOfNatToString(n);
  }

  /** Object.keys of an object of a closed heap never repeats a key. */
  lemma EntriesKeysDistinct(heap: Heap, id: nat)
    requires Closed(heap) && id in heap
    ensures Distinct(Keys(Entries(heap[id])))
  {
    var ks := Keys(Entries(heap[id]));
    assert NodeClosed(heap, id);
    if heap[id].ArrayNode? {
      forall i, j | 0 <= i < j < |ks| ensures ks[i] != ks[j] {
        if ks[i] == ks[j] {
          NatToStringInjective(i, j);
        }
      }
    }
  }
}
