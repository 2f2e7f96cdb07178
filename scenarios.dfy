/** Client code mirroring the package's test cases, each proved to end in the state
    the test asserts. */
module Scenarios {
  import opened Wrappers
  import opened RestorationKeys
  import opened ErrorHandling
  import opened Restorables
  import opened Objects
  import opened References
  import opened Snapshots
  import opened PropertiesView
  import opened RestorableObjects

  /** Restoring under a key whose stored snapshot is a capture of `obj` brings every
      wrapped property back to the captured values, and leaves the table as it was. */
  method RestoreStored(store: Store, obj: Instance, key: RestorationKey, c: Captured)
    requires store.Valid() && c.snapshot.instance == obj && c.Holds()
    requires key in TableOf(store.tables, obj.Identity()) && TableOf(store.tables, obj.Identity())[key] == c.snapshot
    modifies store, obj, obj.States()
    ensures store.Valid() && store.tables == Registered(old(store.tables), obj.Identity())
    ensures TableOf(store.tables, obj.Identity()) == TableOf(old(store.tables), obj.Identity())
    ensures obj.LabelValues() == c.values
  {
    StatesAllocated(obj);
    var err := store.RestoreWithKey(obj, key);
    RestoreReturnsToCapture(c);
    RegisteringKeepsLookups(old(store.tables), obj.Identity(), obj.Identity());
  }

  /** `obj.l = v` on the wrapped property `property` of a well-typed object; the
      write leaves the snapshot store alone. */
  method WriteProperty(store: Store, obj: Instance, property: Restorable, v: Value)
    requires obj.CellsTyped() && property in obj.Wrappers() && HasType(v, property.state.valueType)
    modifies property.state
    ensures obj.CellsTyped() && property.WrappedValue() == v
    ensures store.tables == old(store.tables)
  {
    var target := property.state;
    StatesAllocated(obj);
    property.SetWrappedValue(v);
    forall st | st in obj.States()
      ensures st.Valid()
    {
      if st != target {
        assert old(st.Valid());
      }
    }
  }

  /** What `takeSnapshot(withKey:)` captured, paired with its snapshot. */
  method Take(store: Store, obj: Instance, key: RestorationKey, freshKeys: seq<Key>) returns (c: Captured)
    requires store.Valid() && obj.Valid() && obj.CellsTyped()
    requires |freshKeys| == |obj.referenceDecls| && FreshFor(freshKeys, obj.Props())
    modifies store
    ensures store.Valid() && c.Holds() && c.snapshot.instance == obj
    ensures c.values == old(obj.LabelValues()) == obj.LabelValues() && c.refs == TrueReferences(obj)
    ensures c.freshKeys == freshKeys
    ensures store.tables == old(store.tables)[obj.Identity() := TableOf(old(store.tables), obj.Identity())[key := c.snapshot]]
    ensures TableOf(store.tables, obj.Identity()) == TableOf(old(store.tables), obj.Identity())[key := c.snapshot]
  {
    var values := obj.LabelValues();
    var refs := TrueReferences(obj);
    TypedLabelValues(obj);
    StatesAllocated(obj);
    var s := store.TakeSnapshotWithKey(obj, key, freshKeys);
    LabelValuesUnchanged(obj);
    c := Captured(s, values, refs, freshKeys);
  }

  /** Snapshot under `key`, then write `v` into property `l`. */
  method TakeThenWrite(store: Store, obj: Instance, key: RestorationKey, freshKeys: seq<Key>, l: string, v: Value)
    returns (c: Captured)
    requires store.Valid() && obj.Valid() && obj.CellsTyped()
    requires |freshKeys| == |obj.referenceDecls| && FreshFor(freshKeys, obj.Props())
    requires l in obj.Props() && HasType(v, obj.Props()[l].state.valueType)
    modifies store, obj.States()
    ensures store.Valid() && obj.CellsTyped() && c.Holds() && c.snapshot.instance == obj
    ensures c.values == old(obj.LabelValues()) && obj.LabelValues()[l] == v
    ensures store.tables == old(store.tables)[obj.Identity() := TableOf(old(store.tables), obj.Identity())[key := c.snapshot]]
    ensures TableOf(store.tables, obj.Identity()) == TableOf(old(store.tables), obj.Identity())[key := c.snapshot]
  {
    c := Take(store, obj, key, freshKeys);
    WriteProperty(store, obj, obj.Props()[l], v);
  }

  /** A second store under another key keeps the first. */
  lemma StoredUnderOtherKey(t: Table, key1: RestorationKey, s1: Snapshot, key2: RestorationKey, s2: Snapshot)
    requires key1 in t && t[key1] == s1 && key1 != key2
    ensures key1 in t[key2 := s2] && t[key2 := s2][key1] == s1
  {
  }

  /** The first half of testMultipleSnapshots: snapshot under `key1`, write `v` into
      property `l`, and snapshot again under `key2`. */
  method TakeTwoGenerations(store: Store, obj: Instance, key1: RestorationKey, key2: RestorationKey,
                            fresh1: seq<Key>, fresh2: seq<Key>, l: string, v: Value) returns (c1: Captured, c2: Captured)
    requires store.Valid() && obj.Valid() && obj.CellsTyped() && key1 != key2
    requires |fresh1| == |obj.referenceDecls| && FreshFor(fresh1, obj.Props())
    requires |fresh2| == |obj.referenceDecls| && FreshFor(fresh2, obj.Props())
    requires l in obj.Props() && HasType(v, obj.Props()[l].state.valueType)
    modifies store, obj.States()
    ensures store.Valid() && c1.Holds() && c2.Holds() && c1.snapshot.instance == obj && c2.snapshot.instance == obj
    ensures c1.values == old(obj.LabelValues()) && c2.values[l] == v
    ensures var t := TableOf(store.tables, obj.Identity());
      key1 in t && t[key1] == c1.snapshot && key2 in t && t[key2] == c2.snapshot
  {
    c1 := TakeThenWrite(store, obj, key1, fresh1, l, v);
    ghost var t1 := TableOf(store.tables, obj.Identity());
    c2 := Take(store, obj, key2, fresh2);
    StoredUnderOtherKey(t1, key1, c1.snapshot, key2, c2.snapshot);
  }

  /** testMultipleSnapshots: restoring the first key brings back the first
      generation's values, and restoring the second key then brings back the second's,
      including the value written in between. */
  method MultipleSnapshots(store: Store, obj: Instance, key1: RestorationKey, key2: RestorationKey,
                           fresh1: seq<Key>, fresh2: seq<Key>, l: string, v: Value)
    requires store.Valid() && obj.Valid() && obj.CellsTyped() && key1 != key2
    requires |fresh1| == |obj.referenceDecls| && FreshFor(fresh1, obj.Props())
    requires |fresh2| == |obj.referenceDecls| && FreshFor(fresh2, obj.Props())
    requires l in obj.Props() && HasType(v, obj.Props()[l].state.valueType)
    modifies store, obj, obj.States()
  {
    var c1, c2 := TakeTwoGenerations(store, obj, key1, key2, fresh1, fresh2, l, v);
    RestoreStored(store, obj, key1, c1);
    assert obj.LabelValues() == old(obj.LabelValues());
    RestoreStored(store, obj, key2, c2);
    assert obj.LabelValues()[l] == v;
  }

  /** `restore(_:withKey:)` under a key whose stored snapshot is a capture of `obj`
      finds that snapshot and restores the one property from it. */
  method RestoreOneFound(store: Store, obj: Instance, key: RestorationKey, c: Captured, property: Restorable)
    requires store.Valid() && c.snapshot.instance == obj
    requires key in TableOf(store.tables, obj.Identity()) && TableOf(store.tables, obj.Identity())[key] == c.snapshot
    modifies store, obj, obj.States()
    ensures AppliedOne(c.snapshot, property)
  {
    var err := store.RestorePropertyWithKey(obj, property, key);
  }

  /** testRestoreSingleValue: restoring one property from a capture brings that
      property back and leaves every property with another key as it was. */
  method RestoreOneStored(store: Store, obj: Instance, key: RestorationKey, c: Captured, l: string)
    requires store.Valid() && c.snapshot.instance == obj && c.Holds() && l in obj.Props()
    requires key in TableOf(store.tables, obj.Identity()) && TableOf(store.tables, obj.Identity())[key] == c.snapshot
    modifies store, obj, obj.States()
    ensures obj.LabelValues()[l] == c.values[l]
    ensures forall l2 :: l2 in obj.Props() && obj.Props()[l2].Key() != obj.Props()[l].Key() ==>
      obj.LabelValues()[l2] == old(obj.LabelValues())[l2]
  {
    StatesAllocated(obj);
    var props := obj.Props();
    RestoreOneFound(store, obj, key, c, props[l]);
    var st := props[l].state;
    assert st in obj.States();
    CaptureRestoresCell(c.snapshot.storage, props, c.values, c.refs, c.freshKeys, l, old(st.value));
    forall l2 | l2 in props && props[l2].Key() != props[l].Key()
      ensures props[l2].state.value == old(props[l2].state.value)
    {
      assert props[l2].state in obj.States();
    }
  }

  /** `restore(withKey:)` under a key the receiver's table lacks throws
      `noSnapshot(key)` and writes nothing but the store. */
  method RestoreMissing(store: Store, obj: Instance, key: RestorationKey) returns (err: Option<RestorationError>)
    requires store.Valid() && key !in TableOf(store.tables, obj.Identity())
    modifies store
    ensures err == Some(NoSnapshot(key))
  {
    err := store.RestoreWithKey(obj, key);
  }

  /** A snapshot taken into an empty store registers only the object's own identity. */
  method TakeIntoEmpty(a: Instance, key: RestorationKey, freshKeys: seq<Key>) returns (store: Store)
    requires a.Valid() && |freshKeys| == |a.referenceDecls| && FreshFor(freshKeys, a.Props())
    ensures fresh(store) && store.Valid() && store.tables.Keys == {a.Identity()}
  {
    store := new Store();
    var s := store.TakeSnapshotWithKey(a, key, freshKeys);
  }

  /** testRestoreSeparateInstanceFails / testNoValues: a snapshot taken of one class instance is
      not found from another, so restoring the other throws `noSnapshot(key)` and
      changes none of its properties. */
  method SeparateInstances(a: Instance, b: Instance, key: RestorationKey, freshKeys: seq<Key>)
    requires a.Valid() && b.Valid()
    requires a.storedIdentifier.None? && b.storedIdentifier.None? && a.address != b.address
    requires |freshKeys| == |a.referenceDecls| && FreshFor(freshKeys, a.Props())
  {
    StatesAllocated(b);
    ghost var before := b.LabelValues();
    var store := TakeIntoEmpty(a, key, freshKeys);
    DistinctObjectsDistinctIdentities(a, b);
    var err := RestoreMissing(store, b, key);
    assert err == Some(NoSnapshot(key));
    assert b.LabelValues() == before;
  }

  /** `obj.l = v`, seen from an object `other` whose cells are separate: its
      property values and their types stay as they were. */
  method WriteBeside(store: Store, obj: Instance, l: string, v: Value, other: Instance)
    requires obj.CellsTyped() && obj.States() !! other.States()
    requires l in obj.Props() && HasType(v, obj.Props()[l].state.valueType)
    modifies obj.Props()[l].state
    ensures obj.CellsTyped() && obj.LabelValues()[l] == v
    ensures store.tables == old(store.tables)
    ensures other.LabelValues() == old(other.LabelValues())
    ensures old(other.CellsTyped()) ==> other.CellsTyped()
  {
    StatesAllocated(other);
    WriteProperty(store, obj, obj.Props()[l], v);
    LabelValuesUnchanged(other);
  }

  /** `Take` on `obj`, seen from an object `other`: its property values and their
      types stay as they were, since a snapshot changes nothing but the store. */
  method TakeBeside(store: Store, obj: Instance, key: RestorationKey, freshKeys: seq<Key>, other: Instance)
    returns (c: Captured)
    requires store.Valid() && obj.Valid() && obj.CellsTyped()
    requires |freshKeys| == |obj.referenceDecls| && FreshFor(freshKeys, obj.Props())
    modifies store
    ensures store.Valid() && c.Holds() && c.snapshot.instance == obj
    ensures c.values == old(obj.LabelValues()) == obj.LabelValues() && obj.CellsTyped()
    ensures store.tables == old(store.tables)[obj.Identity() := TableOf(old(store.tables), obj.Identity())[key := c.snapshot]]
    ensures other.LabelValues() == old(other.LabelValues())
    ensures old(other.CellsTyped()) ==> other.CellsTyped()
  {
    StatesAllocated(other);
    c := Take(store, obj, key, freshKeys);
    LabelValuesUnchanged(other);
  }

  /** `TakeThenWrite` on `obj`, seen from an object `other` whose cells are separate:
      its property values and their types stay as they were. */
  method TakeThenWriteBeside(store: Store, obj: Instance, key: RestorationKey, freshKeys: seq<Key>, l: string, v: Value,
                             other: Instance) returns (c: Captured)
    requires store.Valid() && obj.Valid() && obj.CellsTyped() && obj.States() !! other.States()
    requires |freshKeys| == |obj.referenceDecls| && FreshFor(freshKeys, obj.Props())
    requires l in obj.Props() && HasType(v, obj.Props()[l].state.valueType)
    modifies store, obj.States()
    ensures store.Valid() && c.Holds() && c.snapshot.instance == obj
    ensures c.values == old(obj.LabelValues()) && obj.LabelValues()[l] == v
    ensures store.tables == old(store.tables)[obj.Identity() := TableOf(old(store.tables), obj.Identity())[key := c.snapshot]]
    ensures other.LabelValues() == old(other.LabelValues())
    ensures old(other.CellsTyped()) ==> other.CellsTyped()
  {
    c := TakeBeside(store, obj, key, freshKeys, other);
    WriteBeside(store, obj, l, v, other);
  }

  /** The first half of testCollisions: two objects with distinct identities and
      separate cells each take a snapshot under the same key, and then one property
      of each is overwritten. */
  method TakeBoth(store: Store, a: Instance, b: Instance, key: RestorationKey, freshA: seq<Key>, freshB: seq<Key>,
                  la: string, va: Value, lb: string, vb: Value) returns (ca: Captured, cb: Captured)
    requires store.Valid() && a.Valid() && b.Valid() && a.CellsTyped() && b.CellsTyped()
    requires a.Identity() != b.Identity() && a.States() !! b.States()
    requires |freshA| == |a.referenceDecls| && FreshFor(freshA, a.Props())
    requires |freshB| == |b.referenceDecls| && FreshFor(freshB, b.Props())
    requires la in a.Props() && HasType(va, a.Props()[la].state.valueType)
    requires lb in b.Props() && HasType(vb, b.Props()[lb].state.valueType)
    modifies store, a.States(), b.States()
    ensures store.Valid() && ca.Holds() && cb.Holds() && ca.snapshot.instance == a && cb.snapshot.instance == b
    ensures ca.values == old(a.LabelValues()) && cb.values == old(b.LabelValues())
    ensures a.LabelValues()[la] == va && b.LabelValues()[lb] == vb
    ensures key in TableOf(store.tables, a.Identity()) && TableOf(store.tables, a.Identity())[key] == ca.snapshot
    ensures key in TableOf(store.tables, b.Identity()) && TableOf(store.tables, b.Identity())[key] == cb.snapshot
  {
    ca := TakeThenWriteBeside(store, a, key, freshA, la, va, b);
    ghost var mid := store.tables;
    cb := TakeThenWriteBeside(store, b, key, freshB, lb, vb, a);
    OtherTablesUnchanged(mid, b.Identity(), TableOf(mid, b.Identity())[key := cb.snapshot], a.Identity());
  }

  /** `RestoreStored` on `obj`, seen from an object `other` whose cells are separate:
      its property values and its own table stay as they were. */
  method RestoreBeside(store: Store, obj: Instance, key: RestorationKey, c: Captured, other: Instance)
    requires store.Valid() && c.snapshot.instance == obj && c.Holds()
    requires key in TableOf(store.tables, obj.Identity()) && TableOf(store.tables, obj.Identity())[key] == c.snapshot
    requires obj.States() !! other.States()
    modifies store, obj, obj.States()
    ensures store.Valid() && obj.LabelValues() == c.values
    ensures TableOf(store.tables, other.Identity()) == TableOf(old(store.tables), other.Identity())
    ensures other.LabelValues() == old(other.LabelValues())
  {
    StatesAllocated(other);
    RestoreStored(store, obj, key, c);
    LabelValuesUnchanged(other);
    RegisteringKeepsLookups(old(store.tables), obj.Identity(), other.Identity());
  }

  /** The second half of testCollisions: restoring each object under the shared key
      brings back that object's own capture. */
  method RestoreBoth(store: Store, a: Instance, b: Instance, key: RestorationKey, ca: Captured, cb: Captured)
    requires store.Valid() && ca.Holds() && cb.Holds() && ca.snapshot.instance == a && cb.snapshot.instance == b
    requires a.States() !! b.States()
    requires key in TableOf(store.tables, a.Identity()) && TableOf(store.tables, a.Identity())[key] == ca.snapshot
    requires key in TableOf(store.tables, b.Identity()) && TableOf(store.tables, b.Identity())[key] == cb.snapshot
    modifies store, a, a.States(), b, b.States()
    ensures a.LabelValues() == ca.values && b.LabelValues() == cb.values
  {
    RestoreBeside(store, a, key, ca, b);
    RestoreBeside(store, b, key, cb, a);
  }

  /** testCollisions: snapshots of two class instances under one key do not
      interfere; after both are overwritten and restored, each holds its own values. */
  method Collisions(store: Store, a: Instance, b: Instance, key: RestorationKey, freshA: seq<Key>, freshB: seq<Key>,
                    la: string, va: Value, lb: string, vb: Value)
    requires store.Valid() && a.Valid() && b.Valid() && a.CellsTyped() && b.CellsTyped()
    requires a.storedIdentifier.None? && b.storedIdentifier.None? && a.address != b.address
    requires a.States() !! b.States()
    requires |freshA| == |a.referenceDecls| && FreshFor(freshA, a.Props())
    requires |freshB| == |b.referenceDecls| && FreshFor(freshB, b.Props())
    requires la in a.Props() && HasType(va, a.Props()[la].state.valueType)
    requires lb in b.Props() && HasType(vb, b.Props()[lb].state.valueType)
    modifies store, a, a.States(), b, b.States()
    ensures a.LabelValues() == old(a.LabelValues()) && b.LabelValues() == old(b.LabelValues())
  {
    DistinctObjectsDistinctIdentities(a, b);
    var ca, cb := TakeBoth(store, a, b, key, freshA, freshB, la, va, lb, vb);
    assert a.LabelValues()[la] == va && b.LabelValues()[lb] == vb;
    RestoreBoth(store, a, b, key, ca, cb);
  }

  /** `takeSnapshot(withKey:)` seen through the receiver's own table. */
  method TakeInto(store: Store, obj: Instance, key: RestorationKey, freshKeys: seq<Key>) returns (s: Snapshot)
    requires store.Valid() && obj.Valid() && |freshKeys| == |obj.referenceDecls| && FreshFor(freshKeys, obj.Props())
    modifies store
    ensures store.Valid()
    ensures store.tables == old(store.tables)[obj.Identity() := TableOf(old(store.tables), obj.Identity())[key := s]]
    ensures TableOf(store.tables, obj.Identity()) == TableOf(old(store.tables), obj.Identity())[key := s]
  {
    s := store.TakeSnapshotWithKey(obj, key, freshKeys);
  }

  /** A table holding two distinct keys has two entries. */
  lemma TwoEntries(key1: RestorationKey, s1: Snapshot, key2: RestorationKey, s2: Snapshot)
    requires key1 != key2
    ensures |map[key1 := s1][key2 := s2]| == 2
  {
    var m := map[key1 := s1][key2 := s2];
    assert m.Keys == {key1, key2};
    assert |{key1, key2}| == 2;
  }

  /** testRemoveLocalSnapshots: two snapshots under distinct keys make a table of two;
      removing one leaves one, and removing all leaves none, while another identity's
      table keeps its count throughout. */
  method RemoveCounts(store: Store, obj: Instance, other: Instance, key1: RestorationKey, key2: RestorationKey,
                      fresh1: seq<Key>, fresh2: seq<Key>)
    requires store.Valid() && obj.Valid() && key1 != key2 && obj.Identity() !in store.tables
    requires other.Identity() != obj.Identity()
    requires |fresh1| == |obj.referenceDecls| && FreshFor(fresh1, obj.Props())
    requires |fresh2| == |obj.referenceDecls| && FreshFor(fresh2, obj.Props())
    modifies store
  {
    var id := obj.Identity();
    ghost var kept := TableOf(store.tables, other.Identity());
    var s1 := TakeInto(store, obj, key1, fresh1);
    var s2 := TakeInto(store, obj, key2, fresh2);
    assert TableOf(store.tables, id) == map[key1 := s1][key2 := s2];
    TwoEntries(key1, s1, key2, s2);
    assert |TableOf(store.tables, id)| == 2;
    ghost var t := TableOf(store.tables, id);
    store.RemoveSnapshot(obj, key1);
    RemoveCount(t, key1);
    assert |TableOf(store.tables, id)| == 1;
    assert TableOf(store.tables, other.Identity()) == kept;
    store.RemoveLocalSnapshots(obj);
    assert |TableOf(store.tables, id)| == 0;
    assert |TableOf(store.tables, other.Identity())| == |kept|;
  }

  /** testReferences: restoring a capture puts back into every field a reference
      targets the value it held at capture time, whatever was written in between. */
  method RestoreStoredFields(store: Store, obj: Instance, key: RestorationKey, c: Captured, captured: map<string, Value>)
    requires store.Valid() && c.snapshot.instance == obj && c.Holds() && FreshFor(c.freshKeys, obj.Props())
    requires key in TableOf(store.tables, obj.Identity()) && TableOf(store.tables, obj.Identity())[key] == c.snapshot
    requires forall i :: 0 <= i < |c.refs| ==> c.refs[i].field in captured && c.refs[i].originalValue == captured[c.refs[i].field]
    modifies store, obj, obj.States()
    ensures forall i :: 0 <= i < |c.refs| ==> c.refs[i].field in obj.fields && obj.fields[c.refs[i].field] == captured[c.refs[i].field]
  {
    StatesAllocated(obj);
    var err := store.RestoreWithKey(obj, key);
    CaptureRestoresFields(c.snapshot.storage, obj.Props(), c.values, c.refs, c.freshKeys, captured, obj.fields, old(obj.fields));
  }

  /** `obj.field = x` on a plain field; the write leaves the snapshot store alone. */
  method WriteField(store: Store, obj: Instance, field: string, x: Value)
    requires field in obj.fields
    modifies obj
    ensures obj.fields == old(obj.fields)[field := x]
    ensures store.tables == old(store.tables)
  {
    obj.SetField(field, x);
  }

  /** testReferences, end to end: snapshot, overwrite a referenced field, restore. */
  method ReferencesRoundTrip(store: Store, obj: Instance, key: RestorationKey, freshKeys: seq<Key>, field: string, x: Value)
    requires store.Valid() && obj.Valid() && obj.CellsTyped() && field in obj.fields
    requires |freshKeys| == |obj.referenceDecls| && FreshFor(freshKeys, obj.Props())
    modifies store, obj, obj.States()
  {
    var captured := obj.fields;
    var c := Take(store, obj, key, freshKeys);
    assert forall i :: 0 <= i < |c.refs| ==> c.refs[i].field in captured && c.refs[i].originalValue == captured[c.refs[i].field];
    WriteField(store, obj, field, x);
    RestoreStoredFields(store, obj, key, c, captured);
    assert forall d :: d in obj.referenceDecls ==> obj.fields[d.field] == captured[d.field];
  }

  /** testNested / testDirectInitialization: a `Restorable<Any>` built from a
      `Restorable<Any>` holding "Foo" holds "Foo" itself, bare or inside
      `Optional.some`, while a `Restorable<Any>` built from a `Restorable<String>` holds
      that wrapper as its payload; `5` given to a `Restorable<Int?>` is stored as
      `Optional(5)`; and an optional cell built from its state alone starts as `nil`. */
  method NestedInitialisers(k1: Key, k2: Key, k3: Key, k4: Key, k5: Key, k6: Key, k7: Key) {
    var foo := StringValue("Foo");
    var inner := NewRestorable(foo, AnyType, k1);
    var flattened := NewNested(RestorableValue(inner), AnyType, k2);
    assert flattened.WrappedValue() == foo;
    var typed := NewRestorable(foo, StringType, k3);
    assert !IsWrapperOf(RestorableValue(typed), AnyType);
    var boxed := NewNested(RestorableValue(typed), AnyType, k4);
    assert boxed.WrappedValue() == RestorableValue(typed);
    var optional := OptionalValue(RestorableType(AnyType), Some(RestorableValue(inner)));
    var unboxed := NewNested(optional, AnyType, k5);
    assert unboxed.WrappedValue() == foo;
    var five := NewNested(IntValue(5), OptionalType(IntType), k6);
    assert five.WrappedValue() == OptionalValue(IntType, Some(IntValue(5)));
    var none := NewNil(IntType, k7);
    assert Cast(none.WrappedValue(), IntType).None?;
  }

  /** testRetrieveProperties / testMaintainsValues: the view of a capture offers each wrapped property, under its
      label without the underscore, with the value it held at capture time. */
  method ReadCaptured(store: Store, obj: Instance, key: RestorationKey, order: seq<Key>, c: Captured, l: string, t: TypeTag)
      returns (r: Option<Value>)
    requires obj.WellFormed() && c.snapshot.instance == obj && c.Holds() && l in obj.Props() && HasType(c.values[l], t)
    requires forall l2 :: l2 in obj.Props() && l2 != l ==> obj.Props()[l2].Key() != obj.Props()[l].Key()
    requires key in TableOf(store.tables, obj.Identity()) && TableOf(store.tables, obj.Identity())[key] == c.snapshot
    requires forall i :: 0 <= i < |order| ==> order[i] in c.snapshot.storage
    requires forall k :: k in c.snapshot.storage ==> k in order
    requires forall k :: k in c.snapshot.storage && c.snapshot.storage[k].name == Strip(l) ==> k == obj.Props()[l].Key()
    modifies store
    ensures r == Some(c.values[l])
  {
    var p := store.PropertiesWithKey(obj, key, order);
    assert p == Success(Init(c.snapshot, order));
    r := Subscript(p.value, Strip(l), t);
    CapturedCellRetrievable(c.snapshot, order, obj.Props(), c.values, c.refs, c.freshKeys, l, t);
  }
}
