# tengine core in Dafny

A model of the core of tengine, a small browser game engine written in TypeScript, with
proofs about it. The model covers:

- **The entity-component-system core.** A `Scene` holds three things:
  - a sparse array of entities, indexed by entity id;
  - one sparse per-entity array per registered component type;
  - the list of systems.
- **Queries and systems.** A `Query` joins the scene's component tables (strict AND over
  the requested types). A `System` walks a frozen query result and calls its callback for
  every enabled entity.
- **Entities.** An `Entity` gets its id from a process-wide counter, or takes a given id
  through `fromId`. It carries an enabled flag.
- **Meshes.** A `Mesh` validates its vertex attribute descriptors, stores them by kind
  and switches them on and off.
- **Scene-graph nodes.** A `SceneNode` has a parent and children.
- **Utilities.** The error helpers format, concatenate, flatten and split errors. The
  general helpers are `split` (a stable partition) and `toHex`/`fromHex`.

Modules follow the source files:

| module | file | source |
|---|---|---|
| `Entities` | entity.dfy | src/engine/ecs/Entity.ts |
| `Components` | component.dfy | the component type key and the `[entity, components]` query row |
| `Systems` | system.dfy | src/engine/ecs/System.ts |
| `Scenes` | scene.dfy | src/engine/ecs/Scene.ts |
| `Queries` | query.dfy | src/engine/ecs/Query.ts |
| `Meshes` | mesh.dfy | src/engine/gfx/Mesh.ts |
| `SceneNodes` | scene_node.dfy | src/engine/ecs/SceneNode.ts |
| `Errors` | errors.dfy | src/engine/util/Errors.ts |
| `ErrorTrees` | error.dfy | src/engine/util/Error.ts |
| `Utilities` | utilities.dfy | src/engine/util/Utilities.ts and src/engine/util/Types.ts |
| `Sparse`, `Text`, `Wrappers` | sparse.dfy, text.dfy, wrappers.dfy | JavaScript sparse-array assignment, `Array.prototype.join`, and an `Option` for `null`/`undefined` |

Modelling choices:

- **Sparse arrays.** A JavaScript sparse array is a `seq` with an explicit hole value
  (`null`). Assigning past the end pads the array with holes (`Sparse.Place`). `reduce`
  skips the holes, and so do `entityCount` and `Query.run`.
- **Classes.** Objects that the source updates in place are classes: `Scene`,
  `Entity`, `System`, `Mesh` and `SceneNode`. Their methods carry `modifies` clauses,
  and `Scene` and `Mesh` keep a `Valid()` invariant.
- **Callbacks.** A system callback is an opaque `CallbackId`. Each call is recorded as
  an `Invocation` (callback, `dt`, components) appended to a `CallLog`.
- **The id counter.** The hidden `generateUniqueId` generator becomes an explicit
  `IdCounter` object. It starts at 0, and a ghost set records the ids handed out so far.
- **Duplicate types.** src/engine/util/Types.ts defines `toHex` and `fromHex` with the
  same bodies as src/engine/util/Utilities.ts. Both files are modelled by the one
  definition in `Utilities`.
- **Exceptions.** Operations that throw return an outcome value instead: `Option`,
  `Outcome`, `Thrown` or `Construction`.

Two behaviours worth stating outright:

- A duplicate `addEntity` or `registerComponentType` only warns and returns `false`.
  An invalid `setComponent` warns and changes nothing. The model returns the flags and
  drops the warnings.
- The documentation comment of `generateUniqueId` (src/engine/ecs/Entity.ts:80-92) shows
  the first id as 1. The code yields `uid++` from `uid = 0`, so the first id is 0.

## Model

| member | source | states |
|---|---|---|
| Entities.IdCounter.constructor | src/engine/ecs/Entity.ts:95-99 | the generator starts at 0 with no id handed out |
| Entities.IdCounter.Generate | src/engine/ecs/Entity.ts:93-102 | each call returns the current counter value and advances it by one, so the id was never handed out before (in the source, only for the first 2^53 ids; see "## Left out") |
| Entities.Entity.constructor | src/engine/ecs/Entity.ts:14-19 | a new entity takes the counter's next id, advancing it by exactly one, and starts enabled with a writable flag |
| Entities.Entity.FromId | src/engine/ecs/Entity.ts:27-32 | a handle made from an id has exactly that id and does not touch the counter; its enabled flag is the read-only `true` of the property descriptors |
| Entities.Entity.Enable | src/engine/ecs/Entity.ts:41-44 | the flag becomes true whatever it was (idempotent); on a `fromId` handle the write throws a TypeError and the flag is unchanged |
| Entities.Entity.Disable | src/engine/ecs/Entity.ts:47-50 | the flag becomes false whatever it was (idempotent); on a `fromId` handle the write throws a TypeError and the flag is unchanged |
| Entities.DistinctIds | src/engine/ecs/Entity.ts:93-102 | two constructed entities get different ids, and `fromId` copies an id verbatim without advancing the counter (in the source, only for the first 2^53 ids; see "## Left out") |
| Systems.System.constructor | src/engine/ecs/System.ts:31-35 | the system keeps the given snapshot and callback |
| Systems.Dispatch | src/engine/ecs/System.ts:39-42 | the `for ... of` loop as a function: the calls made over a snapshot given each row's enabled flag (no contract of its own; see `DispatchEnabledInOrder`) |
| Systems.System.Calls | src/engine/ecs/System.ts:37-43 | the calls one `update(dt)` makes in the current state of the snapshot's entities (no contract of its own; see `DispatchEnabledInOrder`) |
| Systems.DispatchEnabledInOrder | src/engine/ecs/System.ts:37-43 | one update makes exactly one call per enabled row, in snapshot order, passing `dt` and that row's components |
| Systems.DispatchNoneEnabled | src/engine/ecs/System.ts:37-43 | with an empty snapshot, or every entity disabled, an update makes no call |
| Systems.DispatchAllEnabled | src/engine/ecs/System.ts:37-43 | with every entity enabled, an update makes one call per row, in row order |
| Systems.System.Update | src/engine/ecs/System.ts:37-43 | the loop appends exactly the calls for the entities enabled at that moment; the snapshot and the entities are unchanged, so a disabled entity is skipped only while it is disabled |
| Sparse.Place | src/engine/ecs/Scene.ts:68 | assigning slot `i` of a sparse array changes that slot only, growing the array to `i + 1` if needed |
| Scenes.FindIndex | src/engine/ecs/Scene.ts:87 | `findIndex` gives -1 exactly when the component is absent, and otherwise the lowest index holding it |
| Scenes.CountPresentIsOccupied | src/engine/ecs/Scene.ts:55 | the hole-skipping count equals the number of filled slots |
| Scenes.Scene.constructor | src/engine/ecs/Scene.ts:34-39 | a new scene has no entities, no component types and no systems |
| Scenes.Scene.EntityCount | src/engine/ecs/Scene.ts:53-56 | `entityCount` is the number of ids present, not the array length |
| Scenes.Scene.HasEntity | src/engine/ecs/Scene.ts:74-77 | `hasEntity` holds exactly when the entity's id is among the ids of the added entities |
| Scenes.Scene.AddEntity | src/engine/ecs/Scene.ts:62-71 | returns true exactly when the id was absent, then stores the entity at its id; a duplicate leaves the entities as they were; afterwards `hasEntity` holds and `entityCount` has grown by one exactly when true was returned; component tables and systems are unchanged |
| Scenes.Scene.GetEntity | src/engine/ecs/Scene.ts:84-89 | null exactly when the component's type is unregistered or no slot holds that instance; otherwise the entity at the lowest slot holding it, which has that id |
| Scenes.Scene.GetComponentsOfType | src/engine/ecs/Scene.ts:92-95 | the type's whole array when registered, nothing otherwise |
| Scenes.Scene.RegisterComponentType | src/engine/ecs/Scene.ts:104-113 | true and an empty array the first time; false and the existing array untouched on a repeat; the type is registered after either |
| Scenes.Scene.SetComponent | src/engine/ecs/Scene.ts:124-136 | when the entity is added and the type registered, the component overwrites the entity's slot of its type; every other slot of every type keeps its value; no key appears; otherwise nothing changes |
| Scenes.Scene.IsComponentTypeRegistered | src/engine/ecs/Scene.ts:98-101 | for an unregistered type no entity id has a component of that type |
| Scenes.Scene.GetComponent | src/engine/ecs/Scene.ts:151-154 | a component found sits in the type's table at the entity's id; what it holds is stated by `GetComponentFound` |
| Scenes.Scene.HasComponent | src/engine/ecs/Scene.ts:142-145 | true exactly when the type is registered and the entity's slot in it is filled |
| Scenes.Scene.GetComponentFound | src/engine/ecs/Scene.ts:151-154 | nothing is found for an unregistered type; a component found for an entity has the requested type and belongs to an added entity |
| Scenes.Scene.AddSystem | src/engine/ecs/Scene.ts:160-166 | the system is appended; entities and components are unchanged |
| Scenes.Scene.Update | src/engine/ecs/Scene.ts:174-177 | every system's update runs once, in the order the systems were added |
| Queries.Present | src/engine/ecs/Query.ts:36-38 | the non-null filter keeps all lookups, in order, exactly when none is null |
| Queries.Query.Lookups | src/engine/ecs/Query.ts:36-37 | one `getComponent` lookup per requested type, in request order |
| Queries.Query.HasAll | src/engine/ecs/Query.ts:36-41 | the reducer's test `types.length === entityComponents.length` holds exactly when every lookup found a component |
| Queries.Query.Collect | src/engine/ecs/Query.ts:34-47 | the reducer folded over the first `n` slots keeps at most one row per slot, each with one component per requested type |
| Queries.Query.Run | src/engine/ecs/Query.ts:32-50 | at most one row per slot of the entity array, each with one component per requested type; membership and order are stated by `RunSound`, `RunComplete` and `RunOrdered` |
| Queries.CollectSound | src/engine/ecs/Query.ts:34-47 | every row the reducer keeps is a stored entity with one component per requested type, in request order |
| Queries.CollectComplete | src/engine/ecs/Query.ts:34-47 | the reducer keeps every stored entity that has all requested types |
| Queries.CollectOrdered | src/engine/ecs/Query.ts:34-47 | the reducer keeps rows in strictly increasing id order |
| Queries.RunSound | src/engine/ecs/Query.ts:32-50 | each result row pairs an added entity with exactly as many components as requested types, component `i` being the scene's component of type `i` |
| Queries.RunComplete | src/engine/ecs/Query.ts:40-44 | strict AND: every added entity holding all requested types appears in the result |
| Queries.RunOrdered | src/engine/ecs/Query.ts:49 | results follow entity storage order (ascending id), and holes contribute nothing |
| Utilities.Keep | src/engine/util/Utilities.ts:30 | one side of the split: no longer than the input, and every item on it has the side's answer of the predicate |
| Utilities.Split | src/engine/util/Utilities.ts:25-33 | the left output is exactly the items satisfying the predicate and the right output the others, each in input order |
| Utilities.KeepMembers | src/engine/util/Utilities.ts:30 | an item is on a side exactly when it is an input item with the matching predicate answer |
| Utilities.KeepSides | src/engine/util/Utilities.ts:27-32 | the two sides' lengths sum to the input length, and together they hold the input's items with multiplicity |
| Utilities.KeepConcat | src/engine/util/Utilities.ts:30 | each side preserves input order: splitting a concatenation concatenates the sides |
| Utilities.DigitChar | src/engine/util/Utilities.ts:7 | each digit value maps to a lower-case hex digit denoting it |
| Utilities.Digits | src/engine/util/Utilities.ts:7 | `toString(16)` of a non-negative integer is a non-empty run of lower-case hex digits with no leading zero |
| Utilities.ValueOfDigits | src/engine/util/Utilities.ts:5-8 | the digits `toHex` writes denote the number |
| Utilities.TrimStart | src/engine/util/Utilities.ts:16 | `parseInt` drops a prefix made only of white space and stops at the first other character |
| Utilities.HexPrefix | src/engine/util/Utilities.ts:16 | `parseInt` reads the longest prefix of hex digits: the character after it, if any, is not a hex digit |
| Utilities.DropSign | src/engine/util/Utilities.ts:16 | `parseInt` drops at most one character, and does so exactly when it is a sign |
| Utilities.DropRadixPrefix | src/engine/util/Utilities.ts:16 | `parseInt` with radix 16 drops "0x" or "0X" when present, and nothing else |
| Utilities.FromHex | src/engine/util/Utilities.ts:14-17 | `fromHex("")` is NaN, and a negative result needs a leading '-' after the white space; digit runs are read by `FromHexDigits` |
| Utilities.StagesKeepDigits | src/engine/util/Utilities.ts:14-17 | on a run of hex digits, the white-space, sign and radix-prefix stages change nothing and the scan reads all of it |
| Utilities.StagesDropPrefix | src/engine/util/Utilities.ts:14-17 | on "0x" followed by hex digits, the stages leave exactly the digits |
| Utilities.FromHexDigits | src/engine/util/Types.ts:17-20 | `fromHex` reads a run of hex digits, with or without "0x", as the number it denotes in base 16 |
| Utilities.HexRoundTrip | src/engine/util/Utilities.ts:5-17 | `fromHex(toHex(n)) == n` for every non-negative integer `n` |
| Utilities.NegativeHexIsNaN | src/engine/util/Utilities.ts:5-17 | for negative `n`, `toHex` puts the sign after "0x", so `fromHex(toHex(n))` is NaN |
| Utilities.ToHexExample | test/engine.util.Utilities.spec.ts:18-22 | `toHex(32)` is "0x20" |
| Utilities.FromHexExample | test/engine.util.Utilities.spec.ts:10-14 | `fromHex("0x20")` is 32 |
| Utilities.ToHex | src/engine/util/Utilities.ts:5-8 | "0x" followed by the digits of `n` when `n` is non-negative, and by "-" and the digits of `-n` otherwise |
| Errors.Strings | src/engine/util/Errors.ts:58 | `errors.map(Error.toString)`: one rendering per error, in order |
| Errors.Continuation | src/engine/util/Errors.ts:58 | empty for no later error; otherwise it starts with "\n  [" and has at least six characters per later error |
| Errors.ToString | src/engine/util/Errors.ts:29-41 | the rendering is "[", the kind, "] ", then the message, at the stated positions; the instance `toString` is the same function |
| Errors.ToStringInjective | src/engine/util/Errors.ts:38-41 | errors whose kinds contain no ']' are determined by their rendering |
| Errors.ConcatErrors | src/engine/util/Errors.ts:55-58 | keeps the first error's kind; a single error comes back unchanged; no argument throws |
| Errors.JoinContinuation | src/engine/util/Errors.ts:58 | joining the first message with the later renderings by "\n  " gives the first message followed by one continuation line per later error |
| Errors.ConcatSnoc | src/engine/util/Errors.ts:58 | concatenating one more error appends "\n  " and its rendering to the message |
| Errors.ConcatMessage | src/engine/util/Errors.ts:55-58 | the message is the first message, then for each later error in order "\n  " and its rendering |
| Errors.IsError | src/engine/util/Errors.ts:48-49 | on an object, `isError` holds exactly when both `kind` and `message` are present and non-empty |
| Errors.IsErrorOf | src/engine/util/Errors.ts:48-49 | `isError(null)` and `isError(undefined)` throw a TypeError, because `kind` is read without optional chaining; any other argument gets an answer, and that answer is true exactly when both properties are present and non-empty |
| Errors.IsErrorOfIError | src/engine/util/Errors.ts:48-49 | an `IError` passes `isError` exactly when its kind and message are both non-empty |
| Errors.IsErrorNeedsBoth | src/engine/util/Errors.ts:48-49 | an object missing `kind` or `message` is not an error |
| Errors.ConcatIsError | src/engine/util/Errors.ts:48-58 | concatenating errors whose first passes `isError` yields an error that passes too |
| Errors.Fail | src/engine/util/Errors.ts:72-76 | `fail` always throws: an Error whose message renders the concatenation of its arguments, or a TypeError when there are none |
| Errors.FailMessage | src/engine/util/Errors.ts:72-76 | the thrown message is "[first kind] first message" followed by the continuation lines of the later errors |
| Errors.FailSingle | src/engine/util/Errors.ts:72-76 | `fail(e)` throws exactly the rendering of `e` |
| ErrorTrees.FlattenLines | src/engine/util/Error.ts:28-37 | `_flattenErrors`: at least one line per error, and every line starts with the prefix |
| ErrorTrees.ShowError | src/engine/util/Error.ts:14-17 | the type name, ": ", then the message, at the stated positions |
| ErrorTrees.FlattenConcat | src/engine/util/Error.ts:36 | the reduce over a concatenation of errors concatenates the lines of each part |
| ErrorTrees.FlattenOne | src/engine/util/Error.ts:30-34 | one error contributes its own line, then the lines of its inner errors two spaces further in |
| ErrorTrees.FlattenIsPreOrder | src/engine/util/Error.ts:28-37 | the lines are the errors of the tree in pre-order, each with two more spaces of prefix per nesting level |
| ErrorTrees.LineCount | src/engine/util/Error.ts:28-37 | there is exactly one line per node of the error tree |
| ErrorTrees.FlattenErrors | src/engine/util/Error.ts:24-47 | no argument returns (does not throw) a TypeError; one argument is returned as is; several give the first error's type and stack, with the joined lines as message for a plain first error and an empty message for an aggregate one |
| ErrorTrees.FlattenErrorsIntended | src/engine/util/Error.ts:19-23 | the documented behaviour: several errors give the first one's type and stack and the joined lines as message |
| ErrorTrees.FlattenedMessage | src/engine/util/Error.ts:28-46 | the flattened message joins, by newlines, one line per node of the tree in pre-order, indented by depth |
| ErrorTrees.FlattenAgrees | src/engine/util/Error.ts:41-46 | the written and the documented behaviour agree unless several errors start with an aggregate |
| ErrorTrees.AggregateFirstLosesMessage | src/engine/util/Error.ts:43-46 | an aggregate followed by another error flattens to an empty message, where the documented one is non-empty |
| ErrorTrees.SplitErrors | src/engine/util/Error.ts:53-56 | every error goes left and every other value right, in order, and the two counts sum to the input length |
| Meshes.Stored | src/engine/gfx/Mesh.ts:69 | the stored copy keeps the descriptor's fields and is enabled unless the descriptor says otherwise |
| Meshes.CheckAttribute | src/engine/gfx/Mesh.ts:125-134 | passes exactly the attributes with non-empty data that is not a whole number of vertices, the reverse of its documentation; otherwise a TypeError reporting length and size |
| Meshes.AttributeErrors | src/engine/gfx/Mesh.ts:62-64 | one TypeError per descriptor that `checkAttribute` rejects, in order, each reporting that descriptor's data length and size; empty exactly when every attribute passes |
| Meshes.AttributeMap | src/engine/gfx/Mesh.ts:68-71 | the reduce stores every attribute under its own kind |
| Meshes.AttributeMapKeys | src/engine/gfx/Mesh.ts:68-71 | the attribute map has a key exactly for the kinds of the given descriptors |
| Meshes.AttributeMapLast | src/engine/gfx/Mesh.ts:68-71 | each kind maps to the last descriptor of that kind: a later descriptor overwrites an earlier one |
| Meshes.Mesh.Create | src/engine/gfx/Mesh.ts:56-72 | throws exactly when the errors list is empty, including for no attributes; otherwise the mesh holds the attribute map and the indices, with primitive type `TRIANGLES` (4) when none is given |
| Meshes.Mesh.At | src/engine/gfx/Mesh.ts:84-87 | the stored descriptor of the kind when there is one, and nothing otherwise |
| Meshes.Mesh.IsAttributeDefined | src/engine/gfx/Mesh.ts:114-115 | holds exactly when a descriptor of that kind is stored, i.e. when `at` finds one |
| Meshes.Mesh.DisableAttribute | src/engine/gfx/Mesh.ts:93-99 | a defined attribute becomes disabled and nothing else changes; for an undefined kind the map is unchanged |
| Meshes.Mesh.EnableAttribute | src/engine/gfx/Mesh.ts:105-111 | a defined attribute becomes enabled and nothing else changes; for an undefined kind the map is unchanged |
| Meshes.RejectsExactly | src/engine/gfx/Mesh.ts:62-66 | the written constructor fails exactly when every attribute has non-empty data that is not a whole number of vertices, which holds for no attributes |
| Meshes.IntendedErrors | src/engine/gfx/Mesh.ts:118-124 | the documented check reports one TypeError per malformed descriptor, in order, each with that descriptor's data length and size; none exactly when all are well-formed |
| Meshes.IntendedRejectsExactly | src/engine/gfx/Mesh.ts:54 | under the documented check, construction throws exactly when some attribute is malformed, and never for no attributes |
| Meshes.ValidationCounterexample | src/engine/gfx/Mesh.ts:62-66 | the written constructor throws for no attributes and accepts a well-formed attribute followed by a malformed one |
| SceneNodes.SceneNode.constructor | src/engine/ecs/SceneNode.ts:7-11 | a new node has a null parent and no children |
| SceneNodes.SceneNode.Parent | src/engine/ecs/SceneNode.ts:13-16 | the getter returns the stored parent and changes nothing |
| SceneNodes.SceneNode.Children | src/engine/ecs/SceneNode.ts:18-21 | the getter returns the stored children and changes nothing |
| SceneNodes.SceneNode.SetParent | src/engine/ecs/SceneNode.ts:23-27 | the parent becomes the argument, the children stay, and the node itself is returned |
| SceneNodes.SceneNode.AddChild | src/engine/ecs/SceneNode.ts:29-33 | returns the node itself and leaves parent and children unchanged, because the concatenation is discarded |
| SceneNodes.SceneNode.AppendChildren | src/engine/ecs/SceneNode.ts:29-33 | the evidently intended `addChild`: the new children are appended in order |
| SceneNodes.AddChildLosesChild | src/engine/ecs/SceneNode.ts:29-33 | a child added to a new node through `addChild` is not among its children |
| SceneNodes.AppendChildrenKeepsChild | src/engine/ecs/SceneNode.ts:29-33 | through the corrected operation the child is the node's only child |

## Left out

- The `console.warn` calls of `Scene` and `Mesh`. Only the returned flag or the unchanged state is modelled.
- The effects of system callbacks. They are recorded as invocations, so a callback that throws, and so aborts the rest of a tick, is not modelled.
- `Scene.deflate` and `Scene.inflate`. They only throw `NotImplementedError`.
- Floating-point numbers. `dt` is a `real`, and mesh data is a sequence of `real`s. Only the length of the data matters to the model.
- JavaScript numbers in `toHex`/`fromHex` are modelled as unbounded integers. Fractions, exponent notation and precision loss above 2^53 are left out. There is no negative zero either: `parseInt("-0", 16)` is `-0` in JavaScript, but `Utilities.FromHex` gives 0.
- Entity ids are stored by the source as strings (`${ id }`) and converted back by an unseen helper. They are natural numbers here. `fr`, `keyFrom`, `to`, `head` and `isNonNullable` are not part of this model. Their assumed behaviour: the type key is the type's name, and non-null means present.
- Component type objects and `Tag` are not modelled separately. A component type is its key.
- Entities.IdCounter.Generate: the counter is a JavaScript number, and `uid++` stops advancing once it reaches 2^53. From then on `generateUniqueId` keeps returning 2^53. The model's counter is an unbounded natural, so its uniqueness guarantee, and that of `Entities.DistinctIds`, holds in the source only for the first 2^53 ids.
- Scenes.Scene.IsComponentTypeRegistered, Scenes.Scene.GetComponentsOfType, Scenes.Scene.RegisterComponentType, Scenes.Scene.SetComponent and Scenes.Scene.GetComponent: the component table is a plain object (`_components = {}`), and `in` and `[...]` on it also see keys inherited from `Object.prototype`. The model's table is a `map` holding only registered keys. So the model does not capture what happens to a component type whose key is `constructor`, `toString` or another inherited name, or `__proto__` (whose setter is invoked on assignment). In the source such a type already counts as registered, `registerComponentType` returns `false` on its first call, and `getComponentsOfType` returns the inherited value instead of `null`.
- Entities.Entity.FromId: only the read-only enabled flag of the `Object.create` descriptors is modelled. The other consequences of building the handle without running the constructor are not modelled.
- Errors.IsError: `kind` and `message` are modelled as absent or string-valued. Truthy values of other types are not modelled.
- Errors.Fail: the message of the TypeError thrown for no argument (reading `kind` of `undefined`) is engine-specific and not modelled.
- ErrorTrees.FlattenErrors: the stack of the new TypeError for no argument is left empty. For an aggregate first error, the characters of the text that become its inner errors are not modelled (its `errors` list is empty).
- `fail` and `isAggregateError` from the external typey-doo package, which `Error.ts` and `Mesh.ts` use, are not part of this model. `isError` from that package is taken to recognise error objects. `fail` is taken to throw the error it is given.
- Meshes.CheckAttribute: the text of the TypeError message, which embeds length and size in decimal, is not modelled. Only the two numbers are kept.
- Meshes.Descriptor: a descriptor that sets `enabled` explicitly to `undefined` is not modelled. Such a descriptor would be stored with `enabled` undefined.
- Aliasing: `at` returns the stored descriptor object, so later `enableAttribute`/`disableAttribute` calls are visible through it. The model returns values. The arrays returned by `getComponentsOfType` and the getters are likewise returned as values.
- Utilities.Split / ErrorTrees.SplitErrors: the input is taken to be dense. `split`'s only caller, `splitErrors`, passes on its own caller's array unchanged. `forEach` would skip the holes of a sparse array, so for a sparse input the two outputs together hold fewer items than its length. The model does not capture this.
- Systems.Dispatch and Systems.System.Calls carry no contract of their own. What they compute is stated by `DispatchEnabledInOrder`, `DispatchNoneEnabled` and `DispatchAllEnabled`.
- The `indices` and `primtype` getters of `Mesh` and the `entities`/`systems` getters of `Scene` are modelled as the fields themselves.

## Findings

| source | as written | input that shows it | evidently intended | confidence | as-written member | corrected member |
|---|---|---|---|---|---|---|
| src/engine/gfx/Mesh.ts:62-66 | `checkAttribute` returns a TypeError for well-formed attributes. The constructor then fails only when that list of errors is empty. | No attributes at all: the constructor throws. A well-formed 3-component position attribute of length 3 followed by a normal attribute of length 4: the constructor accepts. | Throw a TypeError exactly when some attribute is malformed (empty data, or not a whole number of vertices). | high, not executed | Meshes.ValidationCounterexample | Meshes.IntendedRejectsExactly |
| src/engine/ecs/SceneNode.ts:29-33 | `this._children.concat(child)` builds a new array and discards it. | `new SceneNode().addChild(c).children` is empty. | Append the new children to `_children`. | high, not executed | SceneNodes.AddChildLosesChild | SceneNodes.AppendChildrenKeepsChild |
| src/engine/util/Error.ts:43-46 | `Reflect.construct(first.constructor, [text])` passes the text as the first constructor argument. For an `AggregateError` that argument is the list of inner errors, not the message. | `flattenErrors(new AggregateError([], 'a'), new Error('b'))` has an empty message. | The flattened lines as message, whatever the first error's constructor. | medium, not executed | ErrorTrees.AggregateFirstLosesMessage | ErrorTrees.FlattenedMessage |
