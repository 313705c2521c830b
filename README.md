# ObjectKeyVaule, modelled in Dafny

`ObjectKeyVaule` (class_constructs.js) turns argument objects into an
instance with one own property per distinct key list of the arguments
(two arguments with the same key list share one property, and the later
one's values win). The property's key is a
*schema*: the JSON text of an object that maps each own key of the argument
to its position. The property's value is the argument's *value array*,
where slot i holds the value of key i.

Nested objects and arrays are flattened while the value array is built. An
identity registry (`#seenObjects`) records each nested object under the key
it was first reached by. Every later occurrence becomes the *marker*
string `"{label}"`. The registry is shared by all arguments of one
constructor call and is dropped at the end of the call.

`toOriginalStructure` works in two passes:

- It parses each schema, binds the keys to the value array and deep-copies
  nested values.
- It then runs `processReferences`. Every string that starts with `{` and
  ends with `}` is looked up by its label, starting at the object that holds
  it. When that object, or a prototype, owns the label, the string is
  replaced by the owning object.

The iterator yields the value arrays in insertion order.

## Files

- `wrappers.dfy`: `Result` (a value or a thrown error) and `Option`.
- `props.dfy`: own properties in enumeration order.
  - `Put` models `obj[key] = value`: an existing key keeps its place, a new key goes at the end.
  - `Assign` builds an object by a run of such assignments.
- `json.dfy`: the JSON the class writes and reads.
  - Decimal numbers and string escapes.
  - The schema writer `SchemaText`, which is JSON.stringify of the reduced key object.
  - The parser `ParseSchema`, which is `Object.keys(JSON.parse(text))` for objects with natural-number values.
- `objects.dfy`: the input heap.
  - An arena of arrays and objects addressed by identity.
  - Values are primitives, strings or references.
  - `Entries` models `Object.entries`.
- `encoder.dfy`: the constructor's result as functions.
  - `Flatten` models `#handleRecursiveValue`.
  - `FlattenAll` flattens the slots of one object or array.
  - `EncodeObject` produces one argument's schema and value array.
  - `EncodeEach` covers all arguments; `Encode` gives the entries of the instance.
- `decoder.dfy`: `toOriginalStructure` as functions.
  - `Rebuild` models `#reconstructObject`.
  - `RebuildEntry` and `RebuildAll` model the first loop.
  - `HolderOf` models the prototype-chain lookup.
  - `ResolveSlot`, `ResolveList` and `Resolve` model `processReferences`.
  - `Decode` gives the overall result.
- `instance.dfy`: the class `ObjectKeyVaule` with its mutable fields `seenObjects` and `entries`.
  - The constructor and the loops of the source as methods.
  - Each method is proved equal to the function that specifies it.
- `roundtrip.dfy`: what restoring a constructed instance gives back.
  - `FlatRoundTrip` covers arguments that hold only primitives and strings.
  - `NestedRoundTrip` covers arguments that nest arrays and objects to any depth, compared with their deep value `Unfold` (for an array argument, an object keyed by its indices).
- `scenarios.dfy`: small concrete arguments, worked through both directions.

Restored values are the datatype `Decoded`. When `processReferences` writes
the object that holds a slot into that slot, the model records the
back-reference as `Owner`. When the lookup ends at `Object.prototype` or
`Array.prototype`, it records `Builtin(proto)`.

## Where the code and its documentation differ

The model follows the code. In each case below, a proved lemma shows what
the code does.

- A value that is shared inside one argument, as in `{x: s, y: s}`, is
  stored as `"{x}"` under `y`. The marker is resolved at
  class_constructs.js:62-66 to the object that *owns* the key `x`, which is
  the outer object. It is not resolved to the copy of `s`. So `y` comes back
  as the outer object (`Scenarios.SharedRestores`).
- A string of the user's that looks like a marker, such as `"{x}"` in an
  object with a key `x`, is rewritten the same way
  (`Scenarios.LookalikeRestores`). A marker-shaped string whose label no
  level of the chain owns, such as `"{zzz}"` in `{y: "{zzz}"}`, stays text.
- Every entry is restored into a fresh plain object
  (class_constructs.js:46). So an array argument comes back as a plain
  object keyed by its indices: `[7]` gives `{"0": 7}`
  (`Scenarios.ArrayArgumentRestores`). Arrays nested inside an argument
  stay arrays.
- So the round trip is not exact in general. It fails for array arguments
  (see above), for objects reached twice, for arguments with the same key
  list (the later one overwrites the earlier), and for marker-shaped strings
  whose label the container or a prototype owns. It is proved exact for
  object arguments that are acyclic, in which no object is reached twice
  and no string is marker-shaped, with pairwise different key lists
  (`RoundTrip.NestedRoundTrip`, and `RoundTrip.FlatRoundTrip` for arguments
  without nesting). For array arguments these lemmas give the object keyed
  by indices.
- The argument itself is never registered, because only nested values go
  through `#handleRecursiveValue`. A self-reference `{me: <itself>}`
  therefore expands once more (`Scenarios.LoopRestores`).
- The registry is shared across arguments. An object reached from two
  arguments is stored as a marker in the second, with the first argument's
  label. That marker stays text when the second argument's container does
  not own that label and it is no prototype name
  (`Scenarios.AcrossRestores`). When the container does own it, as in
  `({a: s}, {a: s, c: 1})`, or the label is a prototype name such as
  `constructor`, it is replaced like any other marker.
- With no arguments the constructor returns a plain `{}`, not an instance.
  A plain `{}` has no `[Symbol.iterator]` and no `toOriginalStructure`, so
  iterating it or calling that method throws a TypeError. The model gives
  an instance without entries instead, which iterates to nothing and
  restores to the empty list.

## Model

| member | source | states |
|---|---|---|
| Instance.ObjectKeyVaule.constructor | class_constructs.js:18-35 | The stored entries are exactly `Encode(heap, objects)`. The registry is released afterwards (`seenObjects == None`) and no schema is stored twice. |
| Instance.ObjectKeyVaule.StoreAll | class_constructs.js:20-33 | The forEach over the arguments, with one registry from an empty start, leaves exactly the entries `Encode(heap, objects)` and the registry that flattening all the arguments in order leaves. |
| Instance.ObjectKeyVaule.StoreEntry | class_constructs.js:22-32 | One argument. The entries become `Put(entries, schema, values)`, so an existing schema keeps its place and takes the new values. The registry becomes the one flattening this argument leaves. |
| Instance.ObjectKeyVaule.HandleRecursiveValue | class_constructs.js:102-124 | The tree returned and the registry left behind are exactly those of `Flatten`. |
| Instance.ObjectKeyVaule.MapSlots | class_constructs.js:26-31 | The `map` over an argument's entries (also the loops at lines 110-114 and 118-122): the trees and the registry equal `FlattenAll` over the slots. |
| Instance.ObjectKeyVaule.ToOriginalStructure | class_constructs.js:41-76 | The result is `Decode(entries)`: the error of the first failing step, or the single object, or the list. |
| Instance.ObjectKeyVaule.Iterate | class_constructs.js:131-135 | Yields exactly the value arrays of the entries, in insertion order. |
| Instance.RebuildEntries | class_constructs.js:44-56 | The first loop of toOriginalStructure equals `RebuildAll`. It fails with the error of the first schema that does not parse. |
| Instance.ProcessAll | class_constructs.js:74 | `result.forEach(processReferences)` equals `ResolveAll` and stops at the first object whose pass throws. |
| Instance.ProcessReferences | class_constructs.js:57-72 | The in-place rewrite of one container equals `Resolve`. |
| Instance.ProcessSlots | class_constructs.js:58-71 | The loop over the snapshot of entries, writing each slot back, equals `ResolveList`. A failing slot ends the pass with its error. |
| Instance.ProcessSlot | class_constructs.js:59-70 | One slot equals `ResolveSlot`. A marker becomes its holder. A nested container is processed. Anything else is kept. |
| Instance.FindHolder | class_constructs.js:61-64 | The while loop up the chain equals `HolderOf`. It throws when the container's own `hasOwnProperty` is not a function. |
| Props.Put | class_constructs.js:23 | `obj[key] = value`. An existing key keeps its position and takes the value. A new key is appended. Other properties are unchanged and keys stay distinct. |
| Props.AssignKeys | class_constructs.js:32 | The keys of an object built by assignments are the assigned keys, each once, in order of first assignment. |
| Props.AssignOfDistinct | class_constructs.js:22-25 | Assigning pairs with distinct keys gives exactly those pairs in order. |
| Props.AssignLastWins | class_constructs.js:32 | Every property holds the value of the last assignment to its key. |
| Json.NatToString | class_constructs.js:32 | The decimal text of an index is non-empty and all digits. |
| Json.DigitsValueOfNatToString | class_constructs.js:32 | Reading the decimal text of n gives n back. |
| Json.ParseNatAfterNatToString | class_constructs.js:45 | The number parser reads back a written index and stops at the first non-digit. |
| Json.ParseCharsAfterEscape | class_constructs.js:45 | The string parser reads back any escaped key and stops after its closing quote. |
| Json.ParseMemberAfterWrite | class_constructs.js:45 | A written `"key":index` member parses back to that member. |
| Json.ParseMoreAfterWrite | class_constructs.js:45 | A written list of further members, followed by `}`, parses back to the same members. |
| Json.ParseBodyAfterWrite | class_constructs.js:45 | A written object body parses back to the same members. |
| Json.ParseObjectAfterWrite | class_constructs.js:45 | `JSON.parse` of a written object gives its members back when only whitespace follows it, and throws when anything else follows. |
| Json.SchemaRoundTrip | class_constructs.js:22-25 | For distinct keys, `Object.keys(JSON.parse(JSON.stringify(schema)))` is the key list itself, in order. |
| Json.SchemaWithTrailingTextFails | class_constructs.js:45 | A schema followed by anything but whitespace makes `JSON.parse` throw. |
| Json.ParseMoreWithoutBraceFails | class_constructs.js:45 | A member list without its closing brace does not parse. |
| Json.TruncatedSchemaFails | class_constructs.js:45 | A schema with its last character cut off makes `JSON.parse` throw. |
| Objects.EntriesKeysDistinct | class_constructs.js:22 | The own keys of an argument are pairwise distinct, for arrays too. |
| Encoder.Flatten | class_constructs.js:102-124 | A registered object yields the marker of its recorded label and leaves the registry unchanged. Otherwise the object is registered under the current label. The registry only grows. |
| Encoder.FlattenShape | class_constructs.js:109-123 | A newly reached array flattens to an array of the same length. A newly reached object flattens to an object with the same keys in the same order. |
| Encoder.FlattenAllAt | class_constructs.js:110-122 | Slot i is flattened with the registry left by the slots before it, under its own label: the key for an object, the array's label for an array. |
| Encoder.FlattenArrayAt | class_constructs.js:107-114 | A newly reached array is registered first. Its item i is then flattened under the array's own label, with the registry the items before it left, and the result has one item per element. |
| Encoder.FlattenObjectAt | class_constructs.js:107-123 | A newly reached object is registered first. Its field i keeps its key and is flattened under that key, with the registry the fields before it left, and the result has one field per field. |
| Encoder.FlattenAllPassesThrough | class_constructs.js:26-31 | Primitives (null included) and strings appear unchanged at the index of their key. |
| Encoder.FlattenExpandsEachOnce | class_constructs.js:103-107 | The number of arrays and objects in the flattened tree equals the number of identities newly registered. So no identity is expanded twice. |
| Encoder.FlattenAllExpandsEachOnce | class_constructs.js:26-31 | The same count over a whole value array. |
| Encoder.FlattenIsBounded | class_constructs.js:103-107 | A flattened tree holds at most as many expansions as the heap has unregistered objects, so the output is finite. |
| Encoder.FlattenRegistersHeapOnly | class_constructs.js:107 | Only objects of the heap are ever registered. |
| Encoder.UnvisitedRegister | class_constructs.js:107 | Registering a new identity strictly lowers the count of unregistered heap objects, which is what makes the recursion terminate. |
| Encoder.EncodeObject | class_constructs.js:22-31 | An argument's schema is the schema text of its own keys, and its value array has one slot per key. The registry only grows. |
| Encoder.SchemaOfParses | class_constructs.js:22-25 | The schema an argument is stored under parses back to exactly its own keys. |
| Encoder.EncodeEachAt | class_constructs.js:21-33 | Pair i is argument i's schema, with the value array computed under the registry the earlier arguments left. |
| Encoder.EncodeKeys | class_constructs.js:21 | Entries appear in argument order, one per distinct schema, at the first argument with that schema. Every schema comes from an argument. |
| Encoder.EncodeLastWins | class_constructs.js:32 | Each entry holds the pair of the last argument with that key list. |
| Encoder.EncodeOfDistinctKeyLists | class_constructs.js:21-33 | With pairwise different key lists there is exactly one entry per argument, in argument order. |
| Encoder.SchemaTextInjective | class_constructs.js:32 | Different distinct key lists give different schema texts, so entries collapse only on equal key lists. |
| Decoder.Rebuild | class_constructs.js:84-93 | The deep copy keeps each kind: arrays stay arrays of the same length, objects keep their keys in order, primitives are unchanged. |
| Decoder.EraseRebuild | class_constructs.js:84-93 | The copy is exact: erasing it gives the original flattened value back. |
| Decoder.RebuildInjective | class_constructs.js:84-93 | Different flattened values are copied to different restored values. |
| Decoder.RebuildEntry | class_constructs.js:46-54 | The restored object has exactly the schema's keys in order. Keys past the end of the value array hold `undefined`. |
| Decoder.RebuildEntryValues | class_constructs.js:47-54 | Key i holds an exact copy of `values[i]`. |
| Decoder.HolderIsFirstOwner | class_constructs.js:61-64 | The lookup stops at the first level of the chain (container, Array.prototype for arrays, Object.prototype) that owns the name. It finds none when no level owns it. |
| Decoder.ResolveUnmarked | class_constructs.js:57-72 | Without marker-shaped strings the reference pass changes nothing. |
| Decoder.ResolveFails | class_constructs.js:61-62 | The pass throws exactly when some container holding a marker has an own `hasOwnProperty` property, and the error is that TypeError. |
| Decoder.ResolveIdempotent | class_constructs.js:57-72 | When the result of a pass holds no link to its own container, running the pass again on it changes nothing: the only links left point to built-in prototypes, which own no enumerable properties. |
| Decoder.ResolveListAt | class_constructs.js:58-71 | After a successful pass, slot i is that slot resolved against the container, so slots do not influence each other. |
| Decoder.ResolveListErrPrefix | class_constructs.js:58-71 | The first slot that throws decides the result of the whole pass. |
| Decoder.RebuildAllAt | class_constructs.js:44-56 | The first pass succeeds exactly when every schema parses. Object i is then entry i's keys bound to entry i's values. |
| Decoder.DecodeShape | class_constructs.js:41-76 | One restored object per entry, in entry order. The object itself when there is one entry, the list otherwise. |
| Decoder.DecodeFails | class_constructs.js:41-76 | toOriginalStructure throws exactly when a schema does not parse, or when the reference pass over some restored object throws. |
| Decoder.DecodeEmpty | class_constructs.js:75 | An instance without entries restores to the empty list. |
| RoundTrip.EncodedSchemasParse | class_constructs.js:32 | Every schema of a constructed instance parses, as written at line 45, to the keys of an argument. |
| RoundTrip.DecodeOfEncodeFails | class_constructs.js:41-76 | Restoring a constructed instance never fails at `JSON.parse`. It throws exactly when a restored object holding a marker-shaped string has an own `hasOwnProperty`. |
| RoundTrip.FlatRoundTrip | class_constructs.js:18-76 | Arguments holding only primitives and non-marker strings, with pairwise different key lists, come back as `Restore` of each argument, in argument order, and as the one object when there is one argument. `Restore` is the argument itself for an object argument, and an object keyed by the indices for an array argument. |
| RoundTrip.FlattenTree | class_constructs.js:102-124 | An acyclic object in which no identity is reached twice and no string is marker-shaped, none of whose identities is registered yet, flattens to a tree whose copy is its deep value. Exactly its reachable identities become registered. |
| RoundTrip.EncodeEachTreeSeen | class_constructs.js:20-33 | For such arguments with pairwise disjoint reach, the registry after all arguments holds exactly the identities reached below them. |
| RoundTrip.NestedRoundTrip | class_constructs.js:18-76 | Acyclic arguments nested to any depth, with no object reached twice, no marker-shaped string and pairwise different key lists, come back as `Unfolded` of each argument, in argument order, or as the one value when there is one argument. `Unfolded` is the argument's deep value for an object argument. For an array argument it is an object keyed by the indices, holding the elements' deep values. |
| Scenarios.ArrayArgumentRestores | class_constructs.js:44-56 | The array argument `[7]` comes back as the plain object `{"0": 7}`, because every entry is restored into `{}`. |
| Scenarios.NestedRestores | class_constructs.js:18-76 | `{a: [1, "s"]}` comes back as `{a: [1, "s"]}`. |
| Scenarios.SharedEncodes | class_constructs.js:103-107 | For `{x: s, y: s}` the constructor stores the expansion of `s` under `x` and the marker `"{x}"` under `y`. |
| Scenarios.SharedRestores | class_constructs.js:62-66 | `{x: s, y: s}` comes back with `x` a copy of `s` and `y` the outer object. |
| Scenarios.LookalikeRestores | class_constructs.js:59-66 | A user string `"{x}"` in an object with key `x` comes back as that object. |
| Scenarios.LoopEncodes | class_constructs.js:26-28 | A self-referring argument is expanded once more under its own key, because the argument itself is not registered. |
| Scenarios.LoopRestores | class_constructs.js:57-72 | `{me: <itself>}` comes back as an object whose `me` is a copy whose own `me` is that copy. |
| Scenarios.AcrossEncodes | class_constructs.js:20-34 | The registry spans arguments: the second argument reaching the same object stores the marker of the first argument's label. |
| Scenarios.AcrossRestores | class_constructs.js:61-67 | That cross-argument marker stays text, since its label is no key of its container and no prototype name. |
| Scenarios.InheritedNameResolves | class_constructs.js:61-64 | `"{toString}"` in a plain object resolves to Object.prototype. |
| Scenarios.ArrayNameResolves | class_constructs.js:61-67 | `"{push}"` resolves to Array.prototype in an array and stays text in an object. |
| Scenarios.ShadowedLookupThrows | class_constructs.js:62 | A marker in an object with an own `hasOwnProperty` makes the pass throw. |

## Left out

- WeakMap semantics (weak keys, garbage collection): the registry is an ordinary map from heap identity to label.
- The live prototype chain is abstracted to three levels: the container's own keys, then (for arrays) the ECMAScript 2023 own names of `Array.prototype`, then those of `Object.prototype`. The model does not cover objects with another prototype or modified built-ins.
- The lookup modelled by `Decoder.HolderOf` asks whether a prototype has an own name. Reading the property that the lookup found is not modelled; the slot receives the holder, as the code does.
- JSON is limited to what the class writes: one object with string keys and natural-number values, with whitespace. The parser rejects `\u` escapes of surrogate halves, since a Dafny `char` is a Unicode scalar value.
- Property enumeration order is insertion order. JavaScript's rule that integer-like keys enumerate first, and the special `__proto__` key, are not modelled.
- Numbers are integers (`Num(int)`). Floating point, NaN and the other JavaScript number values are not modelled.
- Functions, symbols and other `typeof` cases are not modelled. The only values are undefined, null, booleans, numbers, strings, arrays and objects.
- Primitive arguments to the constructor are not modelled. Every argument is an array or object of the heap.
- Instance.ObjectKeyVaule.constructor: with no arguments the source returns a plain `{}`, which has no iterator and no `toOriginalStructure`, so using it as an instance throws a TypeError. The model returns an instance without entries, which iterates to nothing and restores to the empty list.
- Decoder.ResolveIdempotent: stated only for results without an `Owner` slot. In the source a second `processReferences` over a slot that holds its own container recurses without end.
- RoundTrip.NestedRoundTrip: stated for acyclic heaps (witnessed by a ranking of the identities), arguments in which no object is reached twice, and no marker-shaped strings at all. A marker-shaped string whose label nothing owns also comes back unchanged; that case is shown only by example (`Scenarios.AcrossRestores`).
- Exhaustion of the call stack is not modelled. The recursion of `#handleRecursiveValue`, `#reconstructObject` and `processReferences` on very deep nesting throws a RangeError in JavaScript; in the model it always completes.
- Identity in the restored output is not modelled. A restored value is a tree, and the only links the reference pass can create are `Owner` (the slot's own container) and `Builtin(proto)`.
- Instance.RebuildEntries: the source parses a schema and builds its object before parsing the next schema. `Decoder.RebuildAll` parses every schema first. Building never throws, so the outcome is the same; the method itself follows the source's order.
- Instance.ObjectKeyVaule.Iterate: the generator protocol of `[Symbol.iterator]` is not modelled. The method returns the sequence of values it yields.
