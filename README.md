# Serialize: binding metadata, deserialize, serialize and validation messages

This project models `src/Serialize.ts`, a small TypeScript library that maps
API payloads to model instances and back. A property decorator,
`BindPropertyToApi`, records on a class prototype two JavaScript `Map`s: the
API key each property is bound to, and whether it is `deserializable`. The
base class `Serializable` reads that registry through the prototype chain in
`deserialize` (assign fields while an instance is constructed) and in
`serialize` (build the plain object sent to the API, renaming bound fields
and flattening their values). The `Deserialize` class decorator constructs an
instance and then calls `deserialize` on the first constructor argument, and
`Validatable` turns the violations reported by `class-validator` into one
error message.

Modules, one per part of the file:

- `Wrappers` (`wrappers.dfy`): `Option`, standing for `undefined`.
- `BindingRegistry` (`registry.dfy`): `JsMap` (a JavaScript `Map`: key
  insertion order plus entries), `Proto` (a class prototype: its parent and
  its own `modelNames` / `modelNamesConfig` slots), the chain lookup
  `target[modelNames]`, `findApiKey` and `BindPropertyToApi`, which updates
  the maps in place and so can change what an ancestor prototype sees.
- `JsValues` (`js_values.dfy`): payload and field values, objects as ordered
  property lists (`Object.keys` order; `o[k] = v` overwrites in place or
  appends), `hasOwnProperty`, truthiness of a `string | undefined`.
- `Deserialization` (`deserialize.dfy`): the `forEach` loop of `deserialize`
  as a method over a `ModelObject` (an instance under construction, whose
  fields change in place), the function it is proved against, and the
  construct-then-deserialize composition.
- `Serialization` (`serialize.dfy`): the `reduce` of `serialize` as
  functions over instance snapshots, with the value flattening of bound
  fields.
- `Validation` (`validation.dfy`): the nested `reduce`s that build the error
  message.

The model follows the code, including where its behaviour may surprise a
reader:

- `deserialize` assigns `this[key] = this[apiKey]`, reading the instance, not
  the payload (see "## Findings").
- A subclass registration fetches the inherited `Map`, adds to it, and stores
  the same object on the subclass prototype, so the parent class (and every
  sibling class that inherited the same map) sees the subclass's bindings:
  registries are not per class.
- `serialize` flattens only the values of bound fields, and only one level:
  an array is mapped over its elements, an instance is serialized; a plain
  object, an array inside an array, or any value of an unbound field is
  copied as it is, including instances inside it.

## Model

| member | source | states |
|---|---|---|
| BindingRegistry.JsMap.constructor | src/Serialize.ts:26 | `new Map()` is well formed, with no keys and no entries |
| BindingRegistry.JsMap.Get | src/Serialize.ts:98 | no contract; `Map.prototype.get`, characterised through `JsMap.Set` and `BindPropertyToApi` |
| BindingRegistry.JsMap.Set | src/Serialize.ts:28 | `Map.prototype.set`: the entry for the key is replaced, all other entries are kept, a new key goes last and an existing key keeps its place; the map stays well formed |
| BindingRegistry.Proto.ResolvedNames | src/Serialize.ts:26 | `target[modelNames]` is the prototype's own slot whenever it has one |
| BindingRegistry.Proto.ResolvedFlags | src/Serialize.ts:32 | `target[modelNamesConfig]` is the prototype's own slot whenever it has one |
| BindingRegistry.ResolvedNamesIsFirstOwn | src/Serialize.ts:26 | the lookup is undefined exactly when no prototype of the chain has its own `modelNames`; otherwise it is the slot of the most derived prototype that has one |
| BindingRegistry.ResolvedFlagsIsFirstOwn | src/Serialize.ts:32 | the same for `modelNamesConfig` |
| BindingRegistry.ResolvedTogether | src/Serialize.ts:26-35 | when every prototype sets its two slots together, both lookups are undefined together and otherwise stop at the same prototype |
| BindingRegistry.ApiKeyFor | src/Serialize.ts:24 | no contract; the `apiKey` option, defaulting to the property name; characterised by `BindPropertyToApi` |
| BindingRegistry.DeserializableFor | src/Serialize.ts:24 | no contract; the `deserializable` option, defaulting to false; characterised by `BindPropertyToApi` |
| BindingRegistry.FindApiKey | src/Serialize.ts:112-122 | no contract; the entry for the key in the resolved `modelNames` map, undefined without one; characterised by `BindPropertyToApi`, `SharedRegistryScenario` and the serialization lemmas |
| BindingRegistry.SetOrCreate | src/Serialize.ts:26-28 | `target[sym]`, or a `new Map()` when that is undefined, then `.set`: the inherited map is reused (and changed), a fresh one is made only when there is none; its entries and key order after the `set` |
| BindingRegistry.BindPropertyToApi | src/Serialize.ts:20-37 | registration stores both maps on `target`; the entry for the property becomes the given `apiKey` (default: the property name) and `deserializable` (default: false), every other entry is kept, both maps list the same keys in the same order, an inherited map is the object that is changed, and every prototype of the chain that resolves to that map now finds the new API key |
| BindingRegistry.SharedRegistryScenario | src/Serialize.ts:24-35 | with a base class binding `name` by default and a subclass binding `id` to `user_id`, the defaults are recorded and the base class finds `user_id` for `id` |
| JsValues.Keys | src/Serialize.ts:125 | `Object.keys`: one key per property, in property order |
| JsValues.Get | src/Serialize.ts:128 | `o[k]` for an own property: defined exactly when `k` is one of the keys |
| JsValues.Read | src/Serialize.ts:105-107 | no contract; `o[k]`, undefined for a missing key; characterised through `Get` and `Put` |
| JsValues.HasOwn | src/Serialize.ts:102 | no contract; `hasOwnProperty` is membership in `Object.keys` |
| JsValues.Truthy | src/Serialize.ts:130 | no contract; a string or `undefined` is truthy when defined and non-empty |
| JsValues.Put | src/Serialize.ts:142 | `o[k] = v`: the key set grows by `k` only when it was missing, `k` reads back `v`, every other key reads as before |
| JsValues.PutKeepsUniqueKeys | src/Serialize.ts:142 | assignment never creates a second property under one key |
| JsValues.PutNewKeyAppends | src/Serialize.ts:142 | assigning a missing key appends exactly one property at the end |
| Deserialization.Assigns | src/Serialize.ts:100-104 | no contract; the three conditions of the callback's `if`; characterised by `DeserializedChangesOnlyAssigned` |
| Deserialization.DeserializeStep | src/Serialize.ts:98-108 | no contract; one run of the callback; characterised by the lemmas below |
| Deserialization.Deserialized | src/Serialize.ts:97-109 | no contract; the `forEach` over the registry's keys; characterised by `DeserializedChangesOnlyAssigned`, `DeserializedFieldValue`, `DeserializedValueAtStep` and `DeserializeSeesEarlierWrites` |
| Deserialization.CanDeserialize | src/Serialize.ts:86-103 | no contract; a sufficient condition for `deserialize` to throw no `TypeError` |
| Deserialization.DeserializeResult | src/Serialize.ts:85-110 | no contract; `deserialize` as a function of the registry and the payload, the identity without a registry; characterised by `ModelObject.Deserialize` |
| Deserialization.DeserializedChangesOnlyAssigned | src/Serialize.ts:97-109 | a field changes only when its API key is non-empty, the payload has that key as an own property and its flag is true; every other property keeps its value, existing properties keep their order, and each new property is an assigned field |
| Deserialization.DeserializedFieldValue | src/Serialize.ts:105-107 | an assigned field ends up holding the instance's own prior value under its API key, when that API key is the field itself (the default binding, which leaves the field as it was) or is not a field the loop assigns |
| Deserialization.DeserializedIgnoresPayloadValues | src/Serialize.ts:100-107 | two payloads with the same own keys give the same fields: the payload's values are never read |
| Deserialization.DeserializedValueAtStep | src/Serialize.ts:97-107 | in any registry without repeated keys, every assigned field ends up with the value under its API key in the fields as the loop left them just before its own step |
| Deserialization.DeserializeSeesEarlierWrites | src/Serialize.ts:97-107 | entries run in registry order: in any registry, when the entry `b` right after `a` is bound to the API key `a` and both are assigned, `b` receives the value `a` was just given, not `a`'s value before the call |
| Deserialization.FullNameScenarioAsWritten | src/Serialize.ts:105-107 | `fullName` bound to `full_name`, payload `{ full_name: "Ada Lovelace", id: 7 }`: the field becomes `undefined` |
| Deserialization.PayloadStep | src/Serialize.ts:15-19 | no contract; the corrected callback, reading the payload; characterised by `DeserializedFromPayloadCopiesPayload` |
| Deserialization.DeserializedFromPayload | src/Serialize.ts:15-19 | no contract; the corrected loop; characterised by `DeserializedFromPayloadCopiesPayload` |
| Deserialization.DeserializedFromPayloadCopiesPayload | src/Serialize.ts:15-19 | with the payload read instead, every assigned field equals the payload's own property under its API key and every other property is left as it was, for any registry |
| Deserialization.FullNameScenarioFromPayload | src/Serialize.ts:15-19 | with the payload read, the same scenario sets `fullName` to `"Ada Lovelace"` |
| Deserialization.ModelObject.constructor | src/Serialize.ts:83 | the base constructor ignores its argument; the instance starts with the subclass's field initialisers |
| Deserialization.ModelObject.Deserialize | src/Serialize.ts:85-110 | the loop leaves the instance's fields equal to the registry-order fold of the callback, changes nothing else, and is a no-op when no registry is reachable |
| Deserialization.ConstructDeserialized | src/Serialize.ts:43-49 | `new C(resp)` for a decorated class yields a fresh instance whose fields are the initial fields after `deserialize(resp)` |
| Deserialization.FullNameConstruction | src/Serialize.ts:20-49 | the class's registry binds `fullName` to `full_name` with the flag `true`, the instance holds `deserialize` of the payload `{ full_name: "Ada Lovelace", id: 7 }` applied to no initial fields, and its `fullName` is undefined |
| Serialization.OutKey | src/Serialize.ts:126-142 | no contract; the key a field is written under; characterised by `OutKeys`, `SerializeKeys` and `SerializeLastWins` |
| Serialization.OutValue | src/Serialize.ts:128-142 | no contract; the value a field contributes; characterised by `SerializeLastWins` and `FlattenOneLevel` |
| Serialization.FlattenElem | src/Serialize.ts:133 | no contract; characterised by `FlattenElemsPointwise` |
| Serialization.FlattenElems | src/Serialize.ts:131-134 | no contract; characterised by `FlattenElemsPointwise` |
| Serialization.Flatten | src/Serialize.ts:131-137 | no contract; characterised by `FlattenOneLevel` |
| Serialization.Step | src/Serialize.ts:125-144 | no contract; the `reduce` callback; characterised by the `Fold` lemmas |
| Serialization.Fold | src/Serialize.ts:125-145 | no contract; the `reduce` from a given accumulator; characterised by `FoldKeyOrder`, `FoldUntouched`, `FoldLastWins` and `FoldUnboundCopies` |
| Serialization.SerializeInstance | src/Serialize.ts:124-146 | no contract; `serialize()`; characterised by `SerializeKeys`, `SerializeLastWins` and `SerializeUnboundIsCopy` |
| Serialization.OutKeys | src/Serialize.ts:126-142 | each field's output key, in field order: the truthy API key from `findApiKey`, otherwise the field name |
| Serialization.AppendedAllMembers | src/Serialize.ts:125-145 | after a run of assignments the keys are the old keys and the assigned ones |
| Serialization.AppendedAllDistinct | src/Serialize.ts:125-145 | a run of assignments never lists a key twice |
| Serialization.FoldKeyOrder | src/Serialize.ts:125-145 | the output's key order is the output keys of the fields, each placed where it is first written |
| Serialization.FoldUntouched | src/Serialize.ts:125-145 | a key no field is written under keeps the accumulator's value |
| Serialization.FoldLastWins | src/Serialize.ts:125-145 | on a key collision the last field written under the key decides its value |
| Serialization.FoldUnboundCopies | src/Serialize.ts:142 | fields without a truthy API key are appended to the accumulator unchanged |
| Serialization.SerializeKeys | src/Serialize.ts:124-146 | `serialize` has exactly the output keys of the instance's own fields, each once, in first-written order |
| Serialization.SerializeLastWins | src/Serialize.ts:124-146 | the value under an output key is that of the last field written under it: flattened for a bound field, copied for an unbound or empty-key field |
| Serialization.SerializeUnboundIsCopy | src/Serialize.ts:142 | an instance with no bound field serializes to a copy of its own fields |
| Serialization.FlattenOneLevel | src/Serialize.ts:131-137 | a bound field's value is never an instance after flattening: an instance becomes its `serialize()` result, an array is mapped, anything else (plain objects included) is copied |
| Serialization.FlattenElemsPointwise | src/Serialize.ts:131-134 | an array keeps its length and order; each instance element becomes its `serialize()` result and every other element is kept |
| Serialization.RenameScenario | src/Serialize.ts:124-146 | the instance has the fields `{ fullName: "Ada", id: 7 }`, its registry binds `fullName` to `full_name` and has no entry for `id`, and `serialize` gives `{ full_name: "Ada", id: 7 }` |
| Validation.ConstraintText | src/Serialize.ts:62-66 | no contract; the inner `reduce`; characterised by `ConstraintTextIsSegments` |
| Validation.ViolationText | src/Serialize.ts:60-71 | no contract; the outer `reduce`; characterised by `ViolationTextIsAllSegments` |
| Validation.ValidationError | src/Serialize.ts:59-74 | an error is raised exactly when the violation list is non-empty, and its message starts with `Model property incomparable: \n` |
| Validation.ConstraintTextIsSegments | src/Serialize.ts:62-66 | the inner fold appends one segment `"\n" + v + ": but got a " + value` per constraint message, in order |
| Validation.ViolationTextIsAllSegments | src/Serialize.ts:60-71 | the outer fold appends the segments of every violation, in order |
| Validation.ValidationErrorText | src/Serialize.ts:59-74 | the message of a non-empty list is the header followed by all segments, violation by violation |
| Validation.AllSegmentsAppend | src/Serialize.ts:60-71 | the text of two lists of violations is the text of the first followed by that of the second |
| Validation.EmptyViolationAddsNothing | src/Serialize.ts:62-66 | a violation without constraint messages adds no text, but alone it still raises an error whose message is the bare header |
| Validation.Collect | src/Serialize.ts:62 | `Object.values(error.constraints)` fails exactly when some reported error has no `constraints`; otherwise every error is kept, in order, with its messages |
| Validation.Validate | src/Serialize.ts:58-76 | the callback does nothing exactly for an empty list, throws a `TypeError` exactly when the list is non-empty and some error has no `constraints`, and otherwise throws the `Error` whose message `ValidationError` gives |
| Validation.ValidateMessage | src/Serialize.ts:59-74 | when every reported error has constraints, the thrown message is the header followed by the segments of every error, in order |
| Validation.SingleViolationMessage | src/Serialize.ts:59-74 | one violation `must be >= 0` on the value `-1` gives the header followed by `\nmust be >= 0: but got a -1` |

The corrected, payload-reading definition (`DeserializedFromPayload`) sits
beside the as-written one; `ModelObject.Deserialize` and the construction
follow the code as written.

## Left out

- The `class-validator` call and its `Promise`: `validate(this, options)` and
  the `.then` that throws are not modelled; the list of reported errors is an
  input of `Validation.Validate`, and what the callback throws is its result.
  The nested `children` of an error are not modelled.
- `${error.value}` rendering: a violation carries the offending value already
  rendered as a string; JavaScript's value-to-string conversion is not modelled.
- Decorators, class subclassing, `Symbol` keys and generics: registration is
  an explicit `BindPropertyToApi` call on a `Proto`, and `@Deserialize` is the
  explicit `ConstructDeserialized` method.
- `Object.keys` places integer-like keys first in ascending order; the model
  enumerates keys in insertion order only.
- `instanceof Serializable` is the `Model` tag of a value; `Array.isArray` is
  the `Arr` tag.
- Runtime `TypeError`s become preconditions: `deserialize` requires that a
  config map is reachable whenever a name map is, and that the payload is
  present whenever some bound API key is truthy (otherwise
  `resp.hasOwnProperty` would throw). A `null` payload is not modelled.
- `this[apiKey]` in `deserialize` reads only the instance's own fields; a
  value the instance would inherit from its prototype reads as `undefined`.
- Nested instances are value snapshots (`Instance`): aliasing between
  instances and cyclic instance graphs (on which `serialize` does not
  terminate) are not represented.
- BindingRegistry.FindApiKey: no contract of its own; it is one map lookup
  after the chain resolution, and what it returns is stated by the members
  that use it.
- Numbers are mathematical integers; no floating point.

## Findings

| source | as written | input that shows it | evidently intended | confidence | as-written member | corrected member |
|---|---|---|---|---|---|---|
| src/Serialize.ts:105-107 | a deserializable field is set to `this[apiKey]`, the instance's own property under the API key | `fullName` bound to `full_name` with `deserializable: true`, constructed from `{ full_name: "Ada Lovelace", id: 7 }`: `fullName` becomes `undefined` | the field takes the payload's value, `resp[apiKey]`, as the comment at lines 15-19 says | not executed; high | Deserialization.FullNameScenarioAsWritten | Deserialization.DeserializedFromPayloadCopiesPayload |
