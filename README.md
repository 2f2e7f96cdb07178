# Restore, modelled in Dafny

Restore is a Swift library that rolls an object back to an earlier state within one process. Three pieces of the library are modelled here:

- **Cells.** A property marked `@Restorable` lives in a shared, mutable cell (`ManagedState`). Each cell has a random key that never changes.
- **Snapshots.** A snapshot maps each cell key to the property's name and its value at capture time. Each `Reference` declared by the object is stored as well, under a freshly drawn key. A reference names a plain field, keeps that field's value at capture time, and can write that value back.
- **The global store.** It maps an object's `Identifier` to that object's snapshots, keyed by `RestorationKey`.

The model follows the library's files, one module each:

| module | models |
|---|---|
| `RestorationKeys` | `RestorationKey` |
| `ErrorHandling` | `RestorationError`, `GeneralError` |
| `Identifiers` | `Identifier`, including the text of `ObjectIdentifier` and of a random `UInt64` |
| `Restorables` | `ManagedState` as a class; the `Restorable` wrapper as a datatype that shares its state |
| `Objects` | the instance side of a `RestorableObject`: the reflected children, `restorableProperties`, `wrappers`, the identity and the plain fields |
| `References` | `Reference` and its restore action |
| `Snapshots` | `Snapshot` capture, `restore()` and `restore(_:)` |
| `PropertiesView` | the `Properties` view and its typed lookup |
| `RestorableObjects` | the `storage` dictionary as a `Store` class, and every keyed operation on it |
| `Scenarios` | the library's own test cases, as methods that drive the model |

Swift's `Any` is a `Value` datatype that carries its dynamic type. The conditional cast `as?` is the function `Cast` over type tags.

Points where the model follows a detail of the code:

- **Restoring one property.** When the snapshot lacks the property, `restore(_:)` in `Sources/Restore/Snapshot.swift:55-57` only calls `assertionFailure` and returns. The model changes nothing in that case and reports no error.
- **Reference keys.** `Sources/Restore/Snapshot.swift:29-31` stores each true reference under a freshly drawn `ObjectIdentifier`, not under a key of its field. The model takes those drawn keys as a parameter.
- **The `Reference` initialiser label.** The tests call `Reference(owner:…)` (`Tests/RestoreTests/RestorableTests.swift:18`), but both initialisers in `Sources/Restore/Reference.swift:45-71` label that argument `object:`. The model has a single constructor.
- **The entry key.** `Sources/Restore/Snapshot.swift:27` reads `wrapper.identifier`, but the wrapper protocol exposes `key: UInt64` (`Sources/Restore/Restorable.swift:12`). The model uses one abstract `Key` type for both.

## Model

| member | source | states |
|---|---|---|
| RestorationKeys.FromRawValue | Sources/Restore/RestorationKey.swift:19-21 | `init(rawValue:)` keeps the string verbatim as the key's raw value |
| RestorationKeys.FromString | Sources/Restore/RestorationKey.swift:24-26 | `init(_:)` builds the same key as `init(rawValue:)` |
| RestorationKeys.FromStringLiteral | Sources/Restore/RestorationKey.swift:33-35 | a string literal builds the same key as `init(_:)` |
| RestorationKeys.EqualityIsRawValueEquality | Sources/Restore/RestorationKey.swift:40-42 | two keys are equal exactly when their raw strings are equal; keys with equal raw strings address the same dictionary entry |
| RestorationKeys.InitialisersAgree | Tests/RestoreTests/RestorableTests.swift:180-186 | all three initialisers give the same key for the same text, and its raw value is that text |
| ErrorHandling.FromMessage | Sources/Restore/ErrorHandling.swift:14-16 | `init(_:)` keeps the message unchanged |
| ErrorHandling.NoSnapshot | Sources/Restore/ErrorHandling.swift:26-28 | the message is the fixed prefix "No snapshot exists for key ", then the key's raw text, then a final "." |
| ErrorHandling.NoSnapshotNamesKey | Sources/Restore/ErrorHandling.swift:26-28 | two `noSnapshot` errors are equal exactly when their keys are equal, so the error identifies the requested key |
| Identifiers.FromRawValue | Sources/Restore/Identifier.swift:23-25 | `init(_rawValue:)` keeps the string verbatim |
| Identifiers.Decimal | Sources/Restore/Identifier.swift:36-38 | the interpolated text of a `UInt64` is a non-empty string of decimal digits, with at least two digits from 10 upward |
| Identifiers.Hex | Sources/Restore/Identifier.swift:27-29 | an address is printed as exactly the requested number of characters, each a lower-case hex digit |
| Identifiers.ObjectIdentifierText | Sources/Restore/Identifier.swift:27-29 | the text of an `ObjectIdentifier` is the fixed prefix, then the address as 16 lower-case hex digits, then a closing parenthesis |
| Identifiers.ForObject | Sources/Restore/Identifier.swift:27-29 | `init(for:)` is the text of the object's `ObjectIdentifier`, so it depends on the object alone |
| Identifiers.Random | Sources/Restore/Identifier.swift:36-38 | `init()` is the decimal text of the drawn `UInt64` |
| Identifiers.DecimalInjective | Sources/Restore/Identifier.swift:36-38 | distinct numbers print as distinct decimal strings |
| Identifiers.HexInjective | Sources/Restore/Identifier.swift:27-29 | distinct numbers below the width bound print as distinct hex strings |
| Identifiers.ForObjectInjective | Sources/Restore/Identifier.swift:27-29 | two objects give equal identifiers exactly when they have the same address |
| Identifiers.RandomInjective | Sources/Restore/Identifier.swift:36-38 | two random identifiers are equal exactly when the draws are equal |
| Identifiers.RandomIsNeverObjectIdentifier | Sources/Restore/Identifier.swift:27-38 | a random identifier never equals an identifier derived from an object |
| Restorables.Cast | Sources/Restore/Restorable.swift:85 | `as?` succeeds at once on a value of the target type. A success always has the target type. A non-optional source and target match exactly when the types match. A concrete target gets the payload from inside `Optional.some` layers. A value of the wrapped type is boxed into a target `Optional` |
| Restorables.TypeName | Sources/Restore/Restorable.swift:48-50 | the printed type name is non-empty |
| Restorables.TypeNameInjective | Sources/Restore/Restorable.swift:48-55 | distinct types print distinct names |
| Restorables.ErasedWrite | Sources/Restore/Restorable.swift:82-89 | the erased setter stores the result of `newValue as? Value` when that cast succeeds, which is the value itself when it already has the cell's type and otherwise its unwrapped or Optional-boxed conversion; it ignores a value that does not cast; the result keeps the cell's type |
| Restorables.ErasedWriteUnwrapsOptional | Sources/Restore/Restorable.swift:85-87 | `Optional(5)` written into an `Int` cell stores `5` |
| Restorables.ManagedState.constructor | Sources/Restore/Restorable.swift:25-31 | a new state holds the given key and value and is well typed |
| Restorables.Restorable.Key | Sources/Restore/Restorable.swift:57-59 | the wrapper's key is its state's key |
| Restorables.Restorable.WrappedValue | Sources/Restore/Restorable.swift:77-78 | the wrapped value is what the shared state holds now |
| Restorables.Restorable.SetWrappedValue | Sources/Restore/Restorable.swift:79 | after the write, the shared state holds the new value |
| Restorables.Restorable.SetErasedValue | Sources/Restore/Restorable.swift:82-89 | the state holds what the erased write leaves: the new value when it casts, the old one otherwise |
| Restorables.Restorable.Copy | Sources/Restore/Restorable.swift:140-142 | `init(other:)` shares the same state, and so the same key |
| Restorables.Restorable.Description | Sources/Restore/Restorable.swift:48-50 | `description` is the type name, then the value text in parentheses |
| Restorables.Restorable.DebugDescription | Sources/Restore/Restorable.swift:53-55 | `debugDescription` is the type name, then "(wrappedValue: ", the value text and ")" |
| Restorables.NewRestorable | Sources/Restore/Restorable.swift:97-104 | a new wrapper has a fresh, well-typed state holding the given value and key |
| Restorables.NestedWrapper | Sources/Restore/Restorable.swift:122 | the wrapper that `as? Self` finds has the target value type, and a bare wrapper argument is that wrapper itself |
| Restorables.NewNested | Sources/Restore/Restorable.swift:121-127 | an argument that `as? Self` turns into a same-typed wrapper, bare or inside `Optional.some`, is flattened into that wrapper's current value; any other argument is stored as `as! Value` converts it, which is the argument itself when it already has the type |
| Restorables.NewNil | Sources/Restore/Restorable.swift:130-132 | `init(state:)` of an optional type starts as `nil` |
| Objects.RestorableProperties | Sources/Restore/RestorableObject.swift:80-89 | every label in `restorableProperties` maps to a wrapper that a reflected child under that label holds, bare or inside `Optional.some` |
| Objects.Instance.Props | Sources/Restore/RestorableObject.swift:80-89 | an instance's `restorableProperties` maps each label to a wrapper that one of its own reflected children under that label holds |
| Objects.RestorablePropertiesExact | Sources/Restore/RestorableObject.swift:80-89 | a label is present exactly when some child with that label holds a wrapper (`as? RestorableWrapper` looks through `Optional.some`), and it maps to the last such child's wrapper |
| Objects.WrapperChildInAt | Sources/Restore/RestorableObject.swift:84 | a wrapper is found among the children under a label exactly when some child at some index has that label and holds that wrapper |
| Objects.OptionalWrapperChildIsProperty | Sources/Restore/RestorableObject.swift:84 | a stored `Restorable<Int>?` holding a wrapper is a wrapped property of the object |
| Objects.Instance.Wrappers | Sources/Restore/RestorableObject.swift:91-93 | `wrappers` holds the values of `restorableProperties` and nothing else |
| Objects.Instance.SetField | Tests/RestoreTests/RestorableTests.swift:286 | an assignment to a plain field replaces that field's value and keeps every other field |
| Objects.Instance.Identity | Sources/Restore/RestorableObject.swift:50-54 | a class's identifier is derived from its own address; a value type uses its stored identifier |
| References.Reference.Restore | Sources/Restore/Reference.swift:53-55 | the restore action leaves the owner's fields as `RestoredFields` describes |
| References.RestoredFields | Sources/Restore/Reference.swift:53-55 | the referenced field gets the original value, and every other field is unchanged |
| References.RestoreIsIdempotent | Sources/Restore/Reference.swift:53-55 | restoring twice leaves the fields as restoring once does |
| References.RestoreForgetsLaterWrites | Sources/Restore/Reference.swift:40-41 | a write to the field after capture makes no difference to the restored fields |
| References.WithOriginalValue | Sources/Restore/Reference.swift:45-56 | the name, owner, field and original value are stored verbatim |
| References.Make | Sources/Restore/Reference.swift:61-71 | the public initialiser captures the field's current value, so restoring at once changes nothing |
| References.BuildBlock | Sources/Restore/Reference.swift:78-80 | `buildBlock` returns its components unchanged and in order |
| References.TrueReferences | Sources/Restore/RestorableObject.swift:62-64 | there is one reference per declaration of the `references` getter, in order, each owned by the object and capturing its field's current value |
| Snapshots.Strip | Sources/Restore/Snapshot.swift:26 | the stored name is the label without its first character |
| Snapshots.WriteBack | Sources/Restore/Snapshot.swift:39-41 | a cell changes only when a stored value for its key casts to the cell's type, and then it takes the cast's result; a same-typed stored value is written verbatim; with no stored value, or one that does not cast, the cell keeps its value; the cell stays well typed |
| Snapshots.WriteBackIsIdempotent | Sources/Restore/Snapshot.swift:39-41 | writing back twice is the same as writing back once |
| Snapshots.Snapshot.Restore | Sources/Restore/Snapshot.swift:37-48 | every cell of the captured object is written back from storage, and the plain fields are restored by the stored references |
| Snapshots.Snapshot.RestoreCell | Sources/Restore/Snapshot.swift:39-41 | one wrapper's cell takes the write-back of its stored entry |
| Snapshots.Snapshot.RestoreCells | Sources/Restore/Snapshot.swift:38-42 | every cell of the object takes the write-back of its stored entry, and cells with no entry keep their value |
| Snapshots.Snapshot.RestoreReferences | Sources/Restore/Snapshot.swift:43-47 | every targeted field holds the captured value of a stored reference to it, and every other field is unchanged |
| Snapshots.Snapshot.RestoreOne | Sources/Restore/Snapshot.swift:50-60 | only the cell whose key is the property's key is written back; every other cell is unchanged, and nothing changes when no live wrapper has that key |
| Snapshots.FieldsRestoredStep | Sources/Restore/Snapshot.swift:43-47 | running one more stored reference extends the set of restored fields by that reference |
| Snapshots.CaptureCells | Sources/Restore/Snapshot.swift:24-28 | storage has exactly the cells' keys, and each cell is stored with its stripped label and its current value |
| Snapshots.AddReferences | Sources/Restore/Snapshot.swift:29-31 | every reference is stored with its name under its fresh key; cell entries are kept; every stored reference belongs to the object |
| Snapshots.Capture | Sources/Restore/Snapshot.swift:22-33 | the snapshot belongs to the object and captures every cell and every true reference as above, without changing the object |
| Snapshots.RefKeyIsFresh | Sources/Restore/Snapshot.swift:29-31 | every stored reference sits under one of the fresh keys |
| Snapshots.CaptureRestoresCell | Sources/Restore/Snapshot.swift:22-41 | writing back from a capture puts the captured value into the cell, whatever the cell holds now |
| Snapshots.CaptureRestoresFields | Sources/Restore/Snapshot.swift:29-47 | after the references of a capture run, each referenced field holds its captured value |
| Snapshots.RestoreReturnsToCapture | Sources/Restore/Snapshot.swift:22-48 | after capture, any writes, then `restore()`, every wrapped property holds its value at capture time |
| PropertiesView.Flatten | Sources/Restore/Properties.swift:25 | every name in the view is the name of a visited entry, and it maps to the payload of a stored entry with that name |
| PropertiesView.FlattenExact | Sources/Restore/Properties.swift:25 | the view holds a name exactly when some entry has it, and the name maps to one of the entries with that name |
| PropertiesView.Init | Sources/Restore/Properties.swift:23-26 | the view keeps the snapshot's object and offers exactly the names stored in the snapshot, each with one of its stored payloads |
| PropertiesView.Member | Sources/Restore/Properties.swift:30-36 | an absent name gives `nil`. A reference gives its captured value cast to the requested type. Any other entry gives its value cast to that type. A success always has the requested type |
| PropertiesView.Subscript | Sources/Restore/Properties.swift:40-42 | the dynamic-member subscript is `_member(withName:)` |
| PropertiesView.CapturedCellRetrievable | Sources/Restore/Properties.swift:23-36 | the view of a capture returns each wrapped property's value at capture time, under its stripped label |
| PropertiesView.CapturedReferenceRetrievable | Sources/Restore/Properties.swift:32-34 | the view of a capture returns each reference's captured value under the reference's name |
| PropertiesView.LookupIsFixed | Sources/Restore/Properties.swift:25 | when names are unique, lookups do not depend on the order in which the dictionary is folded |
| RestorableObjects.TableOf | Sources/Restore/RestorableObject.swift:68-72 | the `snapshots` getter returns the identity's table, or an empty one when there is none |
| RestorableObjects.Registered | Sources/Restore/RestorableObject.swift:66-74 | reading `snapshots` adds the identity with an empty table if it is absent, and leaves every existing table unchanged |
| RestorableObjects.RegisteringKeepsLookups | Sources/Restore/RestorableObject.swift:66-74 | registering an identity changes no identity's lookup |
| RestorableObjects.OtherTablesUnchanged | Sources/Restore/RestorableObject.swift:75-77 | setting one identity's table leaves every other identity's table unchanged |
| RestorableObjects.Lookup | Sources/Restore/RestorableObject.swift:121-123 | the lookup succeeds exactly when the key is present and the stored snapshot is of the receiver's type; otherwise it fails with `noSnapshot(key)` |
| RestorableObjects.RemoveCount | Sources/Restore/RestorableObject.swift:172-174 | removing a present key drops the count by one, and removing an absent key changes nothing |
| RestorableObjects.DistinctObjectsDistinctIdentities | Sources/Restore/RestorableObject.swift:50-54 | two class instances at distinct addresses have distinct identities |
| RestorableObjects.LookupFindsTaken | Sources/Restore/RestorableObject.swift:106-125 | after a snapshot is stored under a key, looking that key up finds it |
| RestorableObjects.TakeKeepsOtherKeys | Sources/Restore/RestorableObject.swift:106-110 | storing under one key leaves the lookup of every other key unchanged |
| RestorableObjects.Store.constructor | Sources/Restore/RestorableObject.swift:6 | the store starts with no tables |
| RestorableObjects.Store.Snapshots | Sources/Restore/RestorableObject.swift:66-74 | the getter returns the identity's table, or an empty one, and registers the identity |
| RestorableObjects.Store.SetSnapshots | Sources/Restore/RestorableObject.swift:75-77 | the setter replaces this identity's table and keeps every other one |
| RestorableObjects.Store.TakeSnapshotWithKey | Sources/Restore/RestorableObject.swift:106-110 | the returned snapshot captures the object and is stored under the key in the object's table, replacing any earlier one; every other entry is kept |
| RestorableObjects.Store.Put | Sources/Restore/RestorableObject.swift:108 | `snapshots[key] = snapshot` sets one entry of the identity's table |
| RestorableObjects.Store.RestoreFrom | Sources/Restore/RestorableObject.swift:114-116 | `restore(from:)` applies the snapshot's `restore()` |
| RestorableObjects.Store.RestoreWithKey | Sources/Restore/RestorableObject.swift:120-125 | a failed lookup returns `noSnapshot(key)` and changes no cell or field; a successful one applies that snapshot; either way the identity is registered |
| RestorableObjects.Store.RestorePropertyFrom | Sources/Restore/RestorableObject.swift:137-139 | `restore(_:from:)` applies the single-property restore and never fails |
| RestorableObjects.Store.RestorePropertyWithKey | Sources/Restore/RestorableObject.swift:151-156 | a failed lookup returns `noSnapshot(key)` and changes nothing; a successful one restores only the property's cell |
| RestorableObjects.Store.PropertiesWithKey | Sources/Restore/RestorableObject.swift:164-169 | a failed lookup returns `noSnapshot(key)`; a successful one returns the view of the found snapshot |
| RestorableObjects.Store.RemoveSnapshot | Sources/Restore/RestorableObject.swift:172-174 | exactly that key leaves this identity's table; other identities are unchanged |
| RestorableObjects.Store.RemoveLocalSnapshots | Sources/Restore/RestorableObject.swift:177-179 | this identity stays registered with an empty table; other identities are unchanged |
| Scenarios.Take | Tests/RestoreTests/RestorableTests.swift:41 | taking a snapshot stores a capture of the current values and true references, and changes no property |
| Scenarios.WriteProperty | Tests/RestoreTests/RestorableTests.swift:43-44 | assigning a wrapped property sets it and keeps every cell well typed and the store unchanged |
| Scenarios.TakeThenWrite | Tests/RestoreTests/RestorableTests.swift:41-44 | the stored capture keeps the values from before the write, while the property now holds the written value |
| Scenarios.TakeBeside | Tests/RestoreTests/RestorableTests.swift:117-118 | a snapshot of one object stores its capture and changes no value of another object |
| Scenarios.WriteBeside | Tests/RestoreTests/RestorableTests.swift:104-110 | writing a property of one object changes no value of another object whose cells are separate |
| Scenarios.TakeThenWriteBeside | Tests/RestoreTests/RestorableTests.swift:117-120 | a snapshot and a write on one object leave another object's values and their types as they were |
| Scenarios.TakeBoth | Tests/RestoreTests/RestorableTests.swift:112-121 | two objects snapshotted under one key each find their own capture in their own table, and then hold the written values |
| Scenarios.RestoreBeside | Tests/RestoreTests/RestorableTests.swift:123-124 | restoring one object brings back its capture and changes neither another object's values nor its table |
| Scenarios.RestoreBoth | Tests/RestoreTests/RestorableTests.swift:123-126 | restoring both objects under the shared key gives each its own captured values |
| Scenarios.Collisions | Tests/RestoreTests/RestorableTests.swift:87-127 | after snapshots under one key, writes and restores of both objects, each object holds its original values again |
| Scenarios.RestoreStored | Tests/RestoreTests/RestorableTests.swift:35-50 | restoring by key brings every wrapped property back to the stored capture and leaves the table as it was |
| Scenarios.TakeTwoGenerations | Tests/RestoreTests/RestorableTests.swift:68-77 | two snapshots under different keys each keep their own generation's values |
| Scenarios.RestoreOneFound | Tests/RestoreTests/RestorableTests.swift:144 | restoring one property by key applies the single-property restore |
| Scenarios.RestoreOneStored | Tests/RestoreTests/RestorableTests.swift:137-150 | restoring one property brings it back to its captured value, while properties with other keys keep their current values |
| Scenarios.RestoreMissing | Tests/RestoreTests/RestorableTests.swift:162-166 | restoring a key that was never stored fails with `noSnapshot` for that key |
| Scenarios.TakeIntoEmpty | Tests/RestoreTests/RestorableTests.swift:129-131 | after one snapshot in a new store, only the object's identity is registered |
| Scenarios.TakeInto | Tests/RestoreTests/RestorableTests.swift:215-225 | taking a snapshot sets exactly one entry of the object's table |
| Scenarios.RestoreStoredFields | Tests/RestoreTests/RestorableTests.swift:281-291 | restoring by key gives every referenced field its captured value back |
| Scenarios.WriteField | Tests/RestoreTests/RestorableTests.swift:286 | a plain field assignment sets that field and leaves the store unchanged |
| Scenarios.ReadCaptured | Tests/RestoreTests/RestorableTests.swift:152-160 | the view of a stored snapshot returns each wrapped property's captured value under its stripped name |

`Scenarios` also replays these tests:

- `testMultipleSnapshots` as `MultipleSnapshots`;
- `testRestoreSeparateInstanceFails` and `testNoValues` as `SeparateInstances`;
- `testRemoveLocalSnapshots` as `RemoveCounts`, which also checks that another identity's table keeps its size;
- `testReferences` as `ReferencesRoundTrip`;
- `testNested` and `testDirectInitialization` as `NestedInitialisers`.

In each of these methods, the test's expected values are assertions in the method body.

## Left out

- Reflection: `Mirror(reflecting:)` is not modelled. The reflected children of an instance are a constant sequence of labelled values (`Instance.children`).
- Randomness: the random key of a `ManagedState`, the fresh `ObjectIdentifier.random()` keys of reference entries, and the `UInt64` drawn by `Identifier()` are parameters. The model assumes that fresh keys differ from each other and from every cell key (`FreshFor`), and that distinct cells of one object have distinct keys (`KeysIdentifyStates`). The source does not guarantee this for `ObjectIdentifier.random()`, which takes the identity of an object that is released at once.
- Key width: cell keys are unbounded naturals, not `UInt64`; only the identifier text bounds its numbers to 64 bits.
- Sources/Restore/Identity.swift is not part of this model. It is a conflicting second definition of `Identifier`; the model follows Sources/Restore/Identifier.swift.
- Codable conformances of `Identifier` and `RestorationKey`: synthesised serialisation is outside the core.
- `Hashable` of `Identifier` and `RestorationKey` is datatype equality: a map keyed by them looks entries up by raw value.
- `NestedState`: a value whose synthesised equality compares its `rawValue`, which `#function` sets to the name of the static member that builds it (`standard` or `nested`, `Sources/Restore/Restorable.swift:36-41`, `:147-173`). The nested initialiser never reads its `state` argument, so the model has no `NestedState`, and its generic inference is type-level only.
- The unavailable key-path subscript of `Properties` cannot be called, because the compiler rejects any call to it.
- `assertionFailure` in `restore(_:)` terminates debug builds only. The model follows release builds, where the method returns without a change.
- The global `storage` dictionary is a `Store` object passed to each operation. No concurrency is modelled.
- Description: the text of a value inside `description` and `debugDescription` is a parameter, because Swift's default interpolation of arbitrary values is not modelled.
- `Double` is a Dafny `real`. Floating-point rounding is not modelled.
- A custom `ReferenceType`: `trueReferences` keeps the declared references when they are `Reference<Self>`. A type that declares another reference type gets `[]` from `?? []`, and the model does not cover that case.
- Reference owners: every reference is owned by the object that declares it, as the `references` getter builds it in the tests.
- Computed properties behind references are plain fields, a `map` from field name to value, written through the key path.
- Dictionary iteration order is not fixed in Swift. `restore()` may visit entries in any order. `Properties.init` takes the order as a parameter, and `LookupIsFixed` shows that the order does not matter when names are unique.
- `restore(from:)` and `restore(_:from:)` write into the snapshot's own object, as the code does, not into the receiver.
- `properties(of:)` is `PropertiesView.Init`, and `takeSnapshot()` is `Snapshots.Capture`.
- Distinct objects: the model assumes that live class instances have distinct addresses and separate cells (`a.address != b.address`, `a.States() !! b.States()`), as Swift's object model gives them; it does not derive this from allocation.
- `NewNested`'s `as! Value` traps when the cast fails. The model makes a succeeding cast a precondition instead of modelling the trap.
- Snapshots.Snapshot.RestoreCells: cells allocated during the restore are not described. Every cell reached from the object already exists, by `StatesAllocated`.
