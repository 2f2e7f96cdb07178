/** RestorableObject: the global snapshot store, a two-level map from an object's
    identity to its keyed snapshots, and the keyed operations every restorable object
    offers on it. */
module RestorableObjects {
  import opened Wrappers
  import opened RestorationKeys
  import opened ErrorHandling
  import Identifiers
  import opened Restorables
  import opened Objects
  import opened References
  import opened Snapshots
  import opened PropertiesView

  type Identifier = Identifiers.Identifier

  /** One identity's snapshots, by key. */
  type Table = map<RestorationKey, Snapshot>

  /** The contents of the global `storage` dictionary. */
  type Tables = map<Identifier, Table>

  /** What the `snapshots` getter returns for `id`: its table, or an empty one. */
  function TableOf(tables: Tables, id: Identifier): (t: Table)
    ensures id in tables ==> t == tables[id]
    ensures id !in tables ==> t == map[]
  {
    if id in tables then tables[id] else map[]
  }

  /** The store after the `snapshots` getter for `id`: an absent identity is registered
      with an empty table; every table present is kept. */
  function Registered(tables: Tables, id: Identifier): (r: Tables)
    ensures r.Keys == tables.Keys + {id}
    ensures id !in tables ==> r[id] == map[]
    ensures forall other :: other in tables ==> r[other] == tables[other]
  {
    if id in tables then tables else tables[id := map[]]
  }

  /** Registering changes no lookup. */
  lemma RegisteringKeepsLookups(tables: Tables, id: Identifier, other: Identifier)
    ensures TableOf(Registered(tables, id), other) == TableOf(tables, other)
  {
  }

  /** Replacing one identity's table leaves every other identity's table as it was. */
  lemma {:induction false} OtherTablesUnchanged(tables: Tables, id: Identifier, t: Table, other: Identifier)
    requires other != id
    ensures TableOf(tables[id := t], other) == TableOf(tables, other)
  {
    if other in tables {
      assert tables[id := t][other] == tables[other];
    } else {
      assert other !in tables[id := t];
    }
  }

  /** Every stored snapshot can be restored: its references belong to its object, and its
      object's cells have distinct keys. */
  predicate TablesValid(tables: Tables) {
    forall id, key :: id in tables && key in tables[id] ==>
      tables[id][key].WellFormed() && tables[id][key].instance.WellFormed()
  }

  /** `snapshots[key] as? Snapshot<Self>`, turned into the thrown error when it fails: a
      snapshot is found when the key is present and the snapshot is of the receiver's
      type. */
  function Lookup(table: Table, key: RestorationKey, obj: Instance): (r: Result<Snapshot, RestorationError>)
    ensures r.Success? <==> key in table && table[key].instance.typeName == obj.typeName
    ensures r.Success? ==> r.value == table[key]
    ensures r.Failure? ==> r.error == NoSnapshot(key)
  {
    if key in table && table[key].instance.typeName == obj.typeName then Success(table[key])
    else Failure(NoSnapshot(key))
  }

  /** What restoring the snapshot under `key` may write: its object and that object's cells. */
  function Targets(table: Table, key: RestorationKey): set<object> {
    if key in table then
      var s := table[key];
      var cells: set<object> := s.instance.States();
      {s.instance} + cells
    else {}
  }

  /** Removing a present key drops the count by one; removing an absent key changes nothing. */
  lemma RemoveCount(table: Table, key: RestorationKey)
    ensures key in table ==> |table - {key}| == |table| - 1
    ensures key !in table ==> table - {key} == table
  {
    assert (table - {key}).Keys == table.Keys - {key};
    if key in table {
      assert table.Keys == (table.Keys - {key}) + {key};
    }
  }

  /** Two distinct class instances never share a table, because each one's identity is
      derived from its own address. */
  lemma DistinctObjectsDistinctIdentities(a: Instance, b: Instance)
    requires a.storedIdentifier.None? && b.storedIdentifier.None?
    requires a.address != b.address
    ensures a.Identity() != b.Identity()
  {
    Identifiers.ForObjectInjective(a.address, b.address);
  }

  /** After a snapshot is stored under `key` for `obj`'s identity, looking that key up
      from `obj` finds exactly that snapshot. */
  lemma LookupFindsTaken(tables: Tables, obj: Instance, key: RestorationKey, s: Snapshot)
    requires s.instance == obj
    ensures Lookup(TableOf(tables[obj.Identity() := TableOf(tables, obj.Identity())[key := s]], obj.Identity()), key, obj) == Success(s)
  {
  }

  /** Storing under one key leaves the lookups of every other key as they were. */
  lemma TakeKeepsOtherKeys(tables: Tables, id: Identifier, key: RestorationKey, other: RestorationKey, s: Snapshot, obj: Instance)
    requires other != key
    ensures Lookup(TableOf(tables[id := TableOf(tables, id)[key := s]], id), other, obj) == Lookup(TableOf(tables, id), other, obj)
  {
  }

  /** The global `storage` dictionary. */
  class Store {
    var tables: Tables

    /** `storage` starts empty. */
    constructor()
      ensures tables == map[]
    {
      tables := map[];
    }

    ghost predicate Valid()
      reads this
    {
      TablesValid(tables)
    }

    /** The `snapshots` getter: the identity's table, registering an empty one first when
        the identity has none. */
    method Snapshots(id: Identifier) returns (t: Table)
      modifies this
      ensures t == TableOf(old(tables), id)
      ensures tables == Registered(old(tables), id)
    {
      if id in tables {
        t := tables[id];
      } else {
        tables := tables[id := map[]];
        t := map[];
      }
    }

    /** The `snapshots` setter: replace the identity's table. */
    method SetSnapshots(id: Identifier, t: Table)
      modifies this
      ensures tables == old(tables)[id := t]
    {
      tables := tables[id := t];
    }

    /** `takeSnapshot(withKey:)`: capture `obj` and store the snapshot under `key` in its
        identity's table, replacing any snapshot there under that key. */
    method TakeSnapshotWithKey(obj: Instance, key: RestorationKey, freshKeys: seq<Key>) returns (s: Snapshot)
      requires Valid() && obj.Valid()
      requires |freshKeys| == |obj.referenceDecls| && FreshFor(freshKeys, obj.Props())
      modifies this
      ensures Valid()
      ensures s.instance == obj && s.WellFormed()
      ensures IsCapture(s.storage, obj.Props(), old(obj.LabelValues()), old(TrueReferences(obj)), freshKeys)
      ensures tables == old(tables)[obj.Identity() := TableOf(old(tables), obj.Identity())[key := s]]
    {
      StatesAllocated(obj);
      s := Capture(obj, freshKeys);
      LabelValuesUnchanged(obj);
      Put(obj.Identity(), key, s);
    }

    /** `snapshots[key] = snapshot`: read the table through the getter, update it, and
        write it back through the setter. */
    method Put(id: Identifier, key: RestorationKey, s: Snapshot)
      requires Valid() && s.WellFormed() && s.instance.WellFormed()
      modifies this
      ensures Valid()
      ensures tables == old(tables)[id := TableOf(old(tables), id)[key := s]]
    {
      var t := Snapshots(id);
      SetSnapshots(id, t[key := s]);
    }

    /** `restore(from:)`: restore the snapshot. It writes into the snapshot's own object,
        whichever receiver it is called on. */
    method RestoreFrom(obj: Instance, s: Snapshot)
      requires s.WellFormed()
      modifies s.instance, s.instance.States()
      ensures Applied(s)
    {
      s.Restore();
    }

    /** `restore(withKey:)`: look the key up in the receiver's table and restore that
        snapshot, or throw `noSnapshot(key)` and change nothing but the registration. */
    method RestoreWithKey(obj: Instance, key: RestorationKey) returns (err: Option<RestorationError>)
      requires Valid()
      modifies this, Targets(TableOf(tables, obj.Identity()), key)
      ensures tables == Registered(old(tables), obj.Identity())
      ensures var r := Lookup(TableOf(old(tables), obj.Identity()), key, obj);
        && (r.Failure? ==>
              && err == Some(r.error)
              && forall o :: o in Targets(TableOf(old(tables), obj.Identity()), key) && old(allocated(o)) ==> unchanged(o))
        && (r.Success? ==> err.None? && Applied(r.value))
    {
      var t := Snapshots(obj.Identity());
      match Lookup(t, key, obj) {
        case Failure(e) =>
          err := Some(e);
        case Success(s) =>
          s.Restore();
          err := None;
      }
    }

    /** `restore(_:from:)`: restore one property from the snapshot; it never throws. */
    method RestorePropertyFrom(obj: Instance, property: Restorable, s: Snapshot) returns (err: Option<RestorationError>)
      requires s.instance.WellFormed()
      modifies s.instance.States()
      ensures err.None? && AppliedOne(s, property)
    {
      s.RestoreOne(property);
      err := None;
    }

    /** `restore(_:withKey:)`: look the key up in the receiver's table and restore one
        property from that snapshot, or throw `noSnapshot(key)` and change no cell. */
    method RestorePropertyWithKey(obj: Instance, property: Restorable, key: RestorationKey) returns (err: Option<RestorationError>)
      requires Valid()
      modifies this, Targets(TableOf(tables, obj.Identity()), key)
      ensures tables == Registered(old(tables), obj.Identity())
      ensures var r := Lookup(TableOf(old(tables), obj.Identity()), key, obj);
        && (r.Failure? ==>
              && err == Some(r.error)
              && forall o :: o in Targets(TableOf(old(tables), obj.Identity()), key) && old(allocated(o)) ==> unchanged(o))
        && (r.Success? ==> err.None? && AppliedOne(r.value, property) && unchanged(r.value.instance))
    {
      var t := Snapshots(obj.Identity());
      match Lookup(t, key, obj) {
        case Failure(e) =>
          err := Some(e);
        case Success(s) =>
          err := RestorePropertyFrom(obj, property, s);
      }
    }

    /** `properties(withKey:)`: the view of the snapshot under `key`, or `noSnapshot(key)`.
        `order` is the iteration order of that snapshot's storage. */
    method PropertiesWithKey(obj: Instance, key: RestorationKey, order: seq<Key>) returns (r: Result<Properties, RestorationError>)
      requires key in TableOf(tables, obj.Identity()) ==>
        && (forall i :: 0 <= i < |order| ==> order[i] in TableOf(tables, obj.Identity())[key].storage)
        && (forall k :: k in TableOf(tables, obj.Identity())[key].storage ==> k in order)
      modifies this
      ensures tables == Registered(old(tables), obj.Identity())
      ensures var l := Lookup(TableOf(old(tables), obj.Identity()), key, obj);
        && (l.Failure? ==> r == Failure(l.error))
        && (l.Success? ==> r == Success(Init(l.value, order)))
    {
      var t := Snapshots(obj.Identity());
      match Lookup(t, key, obj) {
        case Failure(e) =>
          r := Failure(e);
        case Success(s) =>
          r := Success(Init(s, order));
      }
    }

    /** `removeSnapshot(withKey:)`: drop that key from the receiver's table. */
    method RemoveSnapshot(obj: Instance, key: RestorationKey)
      modifies this
      ensures tables == old(tables)[obj.Identity() := TableOf(old(tables), obj.Identity()) - {key}]
    {
      var id := obj.Identity();
      var t := Snapshots(id);
      SetSnapshots(id, t - {key});
    }

    /** `removeLocalSnapshots()`: empty the receiver's table, leaving it registered. */
    method RemoveLocalSnapshots(obj: Instance)
      modifies this
      ensures tables == old(tables)[obj.Identity() := map[]]
    {
      var id := obj.Identity();
      var t := Snapshots(id);
      SetSnapshots(id, map[]);
    }
  }
}
