/** Properties: a read-only view of a snapshot, flattened to name -> stored payload, with
    typed lookup by name. */
module PropertiesView {
  import opened Wrappers
  import opened Restorables
  import opened Objects
  import opened References
  import opened Snapshots

  datatype Properties = Properties(instance: Instance, properties: map<string, Payload>)

  /** The names of the entries stored under the keys of `order`. */
  function NamesAt(storage: map<Key, Entry>, order: seq<Key>): set<string>
    requires forall i :: 0 <= i < |order| ==> order[i] in storage
  {
    set i | 0 <= i < |order| :: storage[order[i]].name
  }

  /** `storage.values.reduce(into: [:]) { $0[$1.0] = $1.1 }`, visiting the entries in the
      dictionary's iteration order `order`: a later entry with the same name replaces
      an earlier one. */
  function Flatten(storage: map<Key, Entry>, order: seq<Key>): (flat: map<string, Payload>)
    requires forall i :: 0 <= i < |order| ==> order[i] in storage
    ensures flat.Keys <= NamesAt(storage, order)
    ensures forall n :: n in flat ==> Entry(n, flat[n]) in storage.Values
  {
    if order == [] then map[]
    else
      var e := storage[order[|order| - 1]];
      Flatten(storage, order[..|order| - 1])[e.name := e.payload]
  }

  /** The flattened view holds one entry per distinct name among the visited entries,
      and each name maps to the payload of one visited entry carrying that name. */
  lemma {:induction false} FlattenExact(storage: map<Key, Entry>, order: seq<Key>, n: string)
    requires forall i :: 0 <= i < |order| ==> order[i] in storage
    ensures n in Flatten(storage, order) <==> n in NamesAt(storage, order)
    ensures n in Flatten(storage, order) ==>
      exists i :: 0 <= i < |order| && storage[order[i]] == Entry(n, Flatten(storage, order)[n])
  {
    if order != [] {
      var m := |order| - 1;
      var init := order[..m];
      assert forall i :: 0 <= i < m ==> init[i] == order[i];
      FlattenExact(storage, init, n);
      var e := storage[order[m]];
      if e.name == n {
        assert storage[order[m]] == Entry(n, Flatten(storage, order)[n]);
        assert n in NamesAt(storage, order) by { assert storage[order[m]].name == n; }
      } else {
        assert n in Flatten(storage, order) <==> n in Flatten(storage, init);
        if n in NamesAt(storage, order) {
          var i :| 0 <= i < |order| && storage[order[i]].name == n;
          assert i < m;
          assert storage[init[i]].name == n;
        }
        if n in Flatten(storage, init) {
          var i :| 0 <= i < m && storage[init[i]] == Entry(n, Flatten(storage, init)[n]);
          assert Flatten(storage, order)[n] == Flatten(storage, init)[n];
          assert storage[order[i]] == Entry(n, Flatten(storage, order)[n]);
        }
      }
    }
  }

  /** `init(_ snapshot:)`: the snapshot's object and its entries flattened by name.
      `order` is the iteration order of the snapshot's storage, which Swift leaves
      unspecified; it lists every stored key. */
  function Init(s: Snapshot, order: seq<Key>): (p: Properties)
    requires forall i :: 0 <= i < |order| ==> order[i] in s.storage
    requires forall k :: k in s.storage ==> k in order
    ensures p.instance == s.instance
    ensures forall n :: n in p.properties <==> exists k :: k in s.storage && s.storage[k].name == n
    ensures forall n :: n in p.properties ==> Entry(n, p.properties[n]) in s.storage.Values
  {
    var p := Properties(s.instance, Flatten(s.storage, order));
    forall n
      ensures n in p.properties <==> exists k :: k in s.storage && s.storage[k].name == n
      ensures n in p.properties ==> Entry(n, p.properties[n]) in s.storage.Values
    {
      FlattenExact(s.storage, order, n);
      if exists k :: k in s.storage && s.storage[k].name == n {
        var k :| k in s.storage && s.storage[k].name == n;
        var i :| 0 <= i < |order| && order[i] == k;
        assert n in NamesAt(s.storage, order);
      }
      if n in p.properties {
        var i :| 0 <= i < |order| && s.storage[order[i]] == Entry(n, p.properties[n]);
        assert s.storage[order[i]] in s.storage.Values;
      }
    }
    p
  }

  /** The value a payload offers for lookup: a reference offers its captured value. */
  function Offered(payload: Payload): Value {
    match payload
    case StoredReference(r) => r.originalValue
    case StoredValue(v) => v
  }

  /** `_member(withName:)` for a requested type `t`: nothing for an absent name; for a
      reference its captured value, and otherwise the stored value, cast to `t`. */
  function Member(p: Properties, name: string, t: TypeTag): (r: Option<Value>)
    ensures name !in p.properties ==> r.None?
    ensures r.Some? ==> HasType(r.value, t)
    ensures name in p.properties && HasType(Offered(p.properties[name]), t) ==> r == Some(Offered(p.properties[name]))
    ensures name in p.properties && p.properties[name].StoredReference? ==>
      r == Cast(p.properties[name].reference.originalValue, t)
    ensures name in p.properties ==> r == Cast(Offered(p.properties[name]), t)
  {
    if name !in p.properties then None
    else
      match p.properties[name]
      case StoredReference(reference) => Cast(reference.originalValue, t)
      case StoredValue(v) => Cast(v, t)
  }

  /** `subscript(dynamicMember:)`: exactly the named member. */
  function Subscript(p: Properties, member: string, t: TypeTag): (r: Option<Value>)
    ensures r == Member(p, member, t)
  {
    Member(p, member, t)
  }

  /** A captured cell whose stripped label no other entry carries is retrievable, with
      the value it held at capture time, whatever happened to the object since. */
  lemma CapturedCellRetrievable(s: Snapshot, order: seq<Key>, props: map<string, Restorable>, values: map<string, Value>,
                                refs: seq<Reference>, freshKeys: seq<Key>, l: string, t: TypeTag)
    requires forall i :: 0 <= i < |order| ==> order[i] in s.storage
    requires forall k :: k in s.storage ==> k in order
    requires IsCapture(s.storage, props, values, refs, freshKeys)
    requires l in props && |l| > 0 && HasType(values[l], t)
    requires forall l2 :: l2 in props && l2 != l ==> props[l2].Key() != props[l].Key()
    requires forall k :: k in s.storage && s.storage[k].name == Strip(l) ==> k == props[l].Key()
    ensures Member(Init(s, order), Strip(l), t) == Some(values[l])
  {
    var p := Init(s, order);
    var k := props[l].Key();
    assert CellCaptured(s.storage, props, values, l);
    assert NamesOf(props, k) == {Strip(l)};
    assert Strip(l) in p.properties;
    var kk :| kk in s.storage && s.storage[kk] == Entry(Strip(l), p.properties[Strip(l)]);
  }

  /** A captured reference whose name no other entry carries is retrievable, with the
      field's value when the reference was built. */
  lemma CapturedReferenceRetrievable(s: Snapshot, order: seq<Key>, props: map<string, Restorable>, values: map<string, Value>,
                                     refs: seq<Reference>, freshKeys: seq<Key>, i: nat, t: TypeTag)
    requires forall j :: 0 <= j < |order| ==> order[j] in s.storage
    requires forall k :: k in s.storage ==> k in order
    requires IsCapture(s.storage, props, values, refs, freshKeys)
    requires i < |refs| && HasType(refs[i].originalValue, t)
    requires forall k :: k in s.storage && s.storage[k].name == refs[i].name ==> k == freshKeys[i]
    ensures Member(Init(s, order), refs[i].name, t) == Some(refs[i].originalValue)
  {
    var p := Init(s, order);
    assert s.storage[freshKeys[i]] == Entry(refs[i].name, StoredReference(refs[i]));
    assert refs[i].name in p.properties;
    var kk :| kk in s.storage && s.storage[kk] == Entry(refs[i].name, p.properties[refs[i].name]);
  }

  /** The view keeps nothing of the object but its identity: two views of the same
      snapshot agree on every lookup. */
  lemma LookupIsFixed(s: Snapshot, order1: seq<Key>, order2: seq<Key>, name: string, t: TypeTag)
    requires forall i :: 0 <= i < |order1| ==> order1[i] in s.storage
    requires forall k :: k in s.storage ==> k in order1
    requires forall i :: 0 <= i < |order2| ==> order2[i] in s.storage
    requires forall k :: k in s.storage ==> k in order2
    requires forall k1, k2 :: k1 in s.storage && k2 in s.storage && s.storage[k1].name == s.storage[k2].name ==> k1 == k2
    ensures Member(Init(s, order1), name, t) == Member(Init(s, order2), name, t)
  {
    var p1 := Init(s, order1);
    var p2 := Init(s, order2);
    assert name in p1.properties <==> name in p2.properties;
    if name in p1.properties {
      var k1 :| k1 in s.storage && s.storage[k1] == Entry(name, p1.properties[name]);
      var k2 :| k2 in s.storage && s.storage[k2] == Entry(name, p2.properties[name]);
    }
  }
}
