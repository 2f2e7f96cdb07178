/** Snapshot: an immutable map from cell key to (name, captured payload), captured from
    one instance, and the two restore operations that write it back. */
module Snapshots {
  import opened Wrappers
  import opened Restorables
  import opened Objects
  import opened References

  /** The `Any` half of a storage entry: a cell's captured value or a whole reference. */
  datatype Payload = StoredValue(value: Value) | StoredReference(reference: Reference)

  /** One storage entry `(String, Any)`. */
  datatype Entry = Entry(name: string, payload: Payload)

  /** `name.removeFirst()`: drop the `_` a wrapped property's backing label starts with. */
  function Strip(l: string): (name: string)
    requires |l| > 0
    ensures l == [l[0]] + name
  {
    l[1..]
  }

  /** `storage[k]` as an optional. */
  function Get(storage: map<Key, Entry>, k: Key): (e: Option<Entry>)
    ensures e.Some? <==> k in storage
    ensures e.Some? ==> e.value == storage[k]
  {
    if k in storage then Some(storage[k]) else None
  }

  /** What `if let value = storage[key]?.1 { wrapper.value = value }` leaves in a cell of
      type `t` that holds `current`: the stored value cast to `t` when there is one and
      the cast succeeds, and `current` otherwise. An entry holding a reference is
      ignored. The code would offer that reference to the cell, but a reference is
      stored only under a fresh key (`FreshFor`), never under a cell's key. */
  function WriteBack(current: Value, t: TypeTag, entry: Option<Entry>): (r: Value)
    ensures r != current ==> entry.Some? && entry.value.payload.StoredValue? && Cast(entry.value.payload.value, t) == Some(r)
    ensures entry.Some? && entry.value.payload.StoredValue? && Cast(entry.value.payload.value, t).Some? ==>
      r == Cast(entry.value.payload.value, t).value
    ensures entry.None? || !entry.value.payload.StoredValue? || Cast(entry.value.payload.value, t).None? ==> r == current
    ensures entry.Some? && entry.value.payload.StoredValue? && HasType(entry.value.payload.value, t) ==> r == entry.value.payload.value
    ensures HasType(current, t) ==> HasType(r, t)
  {
    match entry
    case Some(Entry(_, StoredValue(v))) => ErasedWrite(current, t, v)
    case _ => current
  }

  /** The value a restore leaves in the cell `st`, given its value before. */
  function CellAfter(storage: map<Key, Entry>, st: ManagedState, current: Value): Value {
    WriteBack(current, st.valueType, Get(storage, st.key))
  }

  /** Writing back twice is writing back once. */
  lemma WriteBackIsIdempotent(current: Value, t: TypeTag, entry: Option<Entry>)
    ensures WriteBack(WriteBack(current, t, entry), t, entry) == WriteBack(current, t, entry)
  {
  }

  /** The keys of the given cells. */
  function CellKeys(props: map<string, Restorable>): set<Key> {
    set l | l in props :: props[l].Key()
  }

  /** The first `n` fresh keys, as a set. */
  function KeysUpTo(freshKeys: seq<Key>, n: nat): set<Key>
    requires n <= |freshKeys|
  {
    if n == 0 then {} else KeysUpTo(freshKeys, n - 1) + {freshKeys[n - 1]}
  }

  /** Every key of `KeysUpTo(freshKeys, n)` is one of the first `n` fresh keys. */
  lemma {:induction false} KeysUpToMember(freshKeys: seq<Key>, n: nat, k: Key) returns (j: nat)
    requires n <= |freshKeys| && k in KeysUpTo(freshKeys, n)
    ensures j < n && freshKeys[j] == k
  {
    if freshKeys[n - 1] == k {
      j := n - 1;
    } else {
      j := KeysUpToMember(freshKeys, n - 1, k);
    }
  }

  /** The fresh keys drawn for references are distinct and differ from every cell key. */
  predicate FreshFor(freshKeys: seq<Key>, props: map<string, Restorable>) {
    && (forall i, j :: 0 <= i < j < |freshKeys| ==> freshKeys[i] != freshKeys[j])
    && (forall i, l :: 0 <= i < |freshKeys| && l in props ==> freshKeys[i] != props[l].Key())
  }

  /** The stripped labels of the wrapped properties whose cell has key `k`. */
  function NamesOf(props: map<string, Restorable>, k: Key): set<string> {
    set l | l in props && props[l].Key() == k && |l| > 0 :: Strip(l)
  }

  /** The cell labelled `l` is stored under its key with its value at capture time and
      the stripped label of one of the labels sharing that cell. */
  predicate CellCaptured(storage: map<Key, Entry>, props: map<string, Restorable>, values: map<string, Value>, l: string)
    requires l in props && l in values
  {
    var k := props[l].Key();
    && k in storage
    && storage[k].payload == StoredValue(values[l])
    && storage[k].name in NamesOf(props, k)
  }

  /** `storage` is what `init(for:)` builds from cells `props` holding `values` and from
      references `refs` stored under `freshKeys`. */
  predicate IsCapture(storage: map<Key, Entry>, props: map<string, Restorable>, values: map<string, Value>,
                      refs: seq<Reference>, freshKeys: seq<Key>)
  {
    |freshKeys| == |refs| && CapturedUpTo(storage, props, values, refs, freshKeys, |freshKeys|)
  }

  /** The cells and the first `n` references are stored as `init(for:)` stores them. */
  predicate CapturedUpTo(storage: map<Key, Entry>, props: map<string, Restorable>, values: map<string, Value>,
                         refs: seq<Reference>, freshKeys: seq<Key>, n: nat)
    requires n <= |freshKeys| && n <= |refs|
  {
    && props.Keys <= values.Keys
    && storage.Keys == CellKeys(props) + KeysUpTo(freshKeys, n)
    && (forall l :: l in props ==> CellCaptured(storage, props, values, l))
    && (forall i :: 0 <= i < n ==>
          freshKeys[i] in storage && storage[freshKeys[i]] == Entry(refs[i].name, StoredReference(refs[i])))
  }

  /** Storing the next reference under its fresh key extends the capture by one. */
  lemma CapturedStep(storage: map<Key, Entry>, props: map<string, Restorable>, values: map<string, Value>,
                     refs: seq<Reference>, freshKeys: seq<Key>, n: nat)
    requires n < |freshKeys| && n < |refs| && FreshFor(freshKeys, props)
    requires CapturedUpTo(storage, props, values, refs, freshKeys, n)
    ensures CapturedUpTo(storage[freshKeys[n] := Entry(refs[n].name, StoredReference(refs[n]))], props, values, refs, freshKeys, n + 1)
  {
    var e := Entry(refs[n].name, StoredReference(refs[n]));
    var next := storage[freshKeys[n] := e];
    assert KeysUpTo(freshKeys, n + 1) == KeysUpTo(freshKeys, n) + {freshKeys[n]};
    forall l | l in props
      ensures CellCaptured(next, props, values, l)
    {
      CellCapturedUpdate(storage, props, values, l, freshKeys[n], e);
    }
    forall i | 0 <= i < n + 1
      ensures freshKeys[i] in next && next[freshKeys[i]] == Entry(refs[i].name, StoredReference(refs[i]))
    {
      if i < n {
        assert freshKeys[i] != freshKeys[n];
      }
    }
  }

  /** A key whose entry holds a reference. */
  predicate RefAt(storage: map<Key, Entry>, k: Key) {
    k in storage && storage[k].payload.StoredReference?
  }

  /** The fields that the references stored under `keys` write. */
  function TargetedFields(storage: map<Key, Entry>, keys: set<Key>): set<string> {
    set k | k in keys && RefAt(storage, k) :: storage[k].payload.reference.field
  }

  /** The plain fields `after` result from running, in some order, the restore actions of
      the references stored under `keys` on fields `before`: a targeted field holds the
      captured value of one reference to it, and every other field is unchanged. */
  predicate FieldsRestored(after: map<string, Value>, before: map<string, Value>, storage: map<Key, Entry>, keys: set<Key>) {
    && after.Keys == before.Keys + TargetedFields(storage, keys)
    && (forall f :: f in after && f !in TargetedFields(storage, keys) ==> after[f] == before[f])
    && (forall f :: f in TargetedFields(storage, keys) ==>
          exists k :: k in keys && RefAt(storage, k) && storage[k].payload.reference.field == f &&
            after[f] == storage[k].payload.reference.originalValue)
  }

  datatype Snapshot = Snapshot(instance: Instance, storage: map<Key, Entry>) {

    /** Every stored reference belongs to the captured object, as the references getter
        builds them. */
    predicate WellFormed() {
      OwnedBy(storage, instance)
    }

    /** `restore()`: first every live cell whose key is stored takes the stored value (if
        its type matches), then every stored reference runs its restore action. */
    method Restore()
      requires WellFormed()
      modifies instance, instance.States()
      ensures Applied(this)
    {
      RestoreCells();
      RestoreReferences();
    }

    /** The write-back of one live wrapper. */
    method RestoreCell(wrapper: Restorable)
      modifies wrapper.state
      ensures wrapper.state.value == CellAfter(storage, wrapper.state, old(wrapper.state.value))
    {
      match Get(storage, wrapper.Key()) {
        case Some(Entry(_, StoredValue(v))) => wrapper.SetErasedValue(v);
        case _ =>
      }
    }

    /** The first pass of `restore()`, over the wrappers of the live object. */
    method RestoreCells()
      modifies instance.States()
      ensures forall st :: st in instance.States() && old(allocated(st)) ==> st.value == CellAfter(storage, st, old(st.value))
    {
      var props := instance.Props();
      ghost var states := instance.States();
      ghost var done: set<ManagedState> := {};
      var todo := props.Keys;
      while todo != {}
        invariant todo <= props.Keys
        invariant forall l :: l in props && l !in todo ==> props[l].state in done
        invariant forall st :: st in states && old(allocated(st)) && st in done ==> st.value == CellAfter(storage, st, old(st.value))
        invariant forall st :: st in states && old(allocated(st)) && st !in done ==> st.value == old(st.value)
        decreases |todo|
      {
        var l :| l in todo;
        var wrapper := props[l];
        RestoreCell(wrapper);
        ghost var st := wrapper.state;
        if old(allocated(st)) {
          WriteBackIsIdempotent(old(st.value), st.valueType, Get(storage, st.key));
        }
        done := done + {wrapper.state};
        todo := todo - {l};
      }
    }

    /** The second pass of `restore()`, over the stored references. */
    method RestoreReferences()
      requires WellFormed()
      modifies instance
      ensures FieldsRestored(instance.fields, old(instance.fields), storage, storage.Keys)
    {
      var keys := storage.Keys;
      while keys != {}
        invariant keys <= storage.Keys
        invariant FieldsRestored(instance.fields, old(instance.fields), storage, storage.Keys - keys)
        decreases |keys|
      {
        var k :| k in keys;
        ghost var doneKeys := storage.Keys - keys;
        assert storage.Keys - (keys - {k}) == doneKeys + {k};
        match storage[k].payload {
          case StoredReference(r) =>
            ghost var mid := instance.fields;
            r.Restore();
            FieldsRestoredStep(instance.fields, mid, old(instance.fields), storage, doneKeys, k);
          case StoredValue(_) =>
            assert TargetedFields(storage, doneKeys + {k}) == TargetedFields(storage, doneKeys);
        }
        keys := keys - {k};
      }
    }

    /** `restore(_ keyPath:)` for the wrapper `property` the key path reaches: find the
        live wrapper with the same key and write its stored value; if there is no such
        wrapper or no stored value, do nothing. */
    method RestoreOne(property: Restorable)
      requires instance.WellFormed()
      modifies instance.States()
      ensures AppliedOne(this, property)
    {
      var candidates := instance.Wrappers();
      var found: Option<Restorable> := None;
      while candidates != {} && found.None?
        invariant candidates <= instance.Wrappers()
        invariant found.Some? ==> found.value in instance.Wrappers() && found.value.Key() == property.Key()
        invariant found.None? ==> forall w :: w in instance.Wrappers() && w !in candidates ==> w.Key() != property.Key()
        decreases |candidates|
      {
        var w :| w in candidates;
        if w.Key() == property.Key() {
          found := Some(w);
        }
        candidates := candidates - {w};
      }
      match found {
        case Some(wrapper) =>
          RestoreCell(wrapper);
          forall st | st in instance.States() && st.key == property.Key()
            ensures st == wrapper.state
          {
            var l :| l in instance.Props() && instance.Props()[l].state == st;
            var l2 :| l2 in instance.Props() && instance.Props()[l2] == wrapper;
          }
        case None =>
          forall st | st in instance.States()
            ensures st.key != property.Key()
          {
            var l :| l in instance.Props() && instance.Props()[l].state == st;
            assert instance.Props()[l] in instance.Wrappers();
          }
      }
    }
  }

  /** The effect of `s.restore()`: every cell of the captured object holds what the
      write-back leaves in it, and the plain fields are restored by the stored references. */
  twostate predicate Applied(s: Snapshot)
    reads s.instance, s.instance.States()
  {
    && (forall st :: st in s.instance.States() && old(allocated(st)) ==> st.value == CellAfter(s.storage, st, old(st.value)))
    && FieldsRestored(s.instance.fields, old(s.instance.fields), s.storage, s.storage.Keys)
  }

  /** The effect of `s.restore(keyPath)`: only the cell with the property's key changes. */
  twostate predicate AppliedOne(s: Snapshot, property: Restorable)
    reads s.instance.States()
  {
    forall st :: st in s.instance.States() && old(allocated(st)) ==>
      st.value == if st.key == property.Key() then CellAfter(s.storage, st, old(st.value)) else old(st.value)
  }

  /** One more reference restored keeps FieldsRestored. */
  lemma FieldsRestoredStep(after: map<string, Value>, mid: map<string, Value>, before: map<string, Value>,
                           storage: map<Key, Entry>, done: set<Key>, k: Key)
    requires RefAt(storage, k)
    requires FieldsRestored(mid, before, storage, done) && after == RestoredFields(mid, storage[k].payload.reference)
    ensures FieldsRestored(after, before, storage, done + {k})
  {
    var r := storage[k].payload.reference;
    var targeted := TargetedFields(storage, done + {k});
    assert targeted == TargetedFields(storage, done) + {r.field};
    forall f | f in targeted
      ensures exists k' :: (k' in done + {k} && RefAt(storage, k') && storage[k'].payload.reference.field == f &&
                             after[f] == storage[k'].payload.reference.originalValue)
    {
      if f != r.field {
        var k' :| k' in done && RefAt(storage, k') && storage[k'].payload.reference.field == f &&
            mid[f] == storage[k'].payload.reference.originalValue;
        assert k' in done + {k};
      } else {
        assert k in done + {k};
      }
    }
  }

  /** Every stored reference has owner `owner`. */
  predicate OwnedBy(storage: map<Key, Entry>, owner: Instance) {
    forall k :: k in storage && RefAt(storage, k) ==> storage[k].payload.reference.owner == owner
  }

  /** Writing an entry under a key other than the cell's keeps the cell captured. */
  lemma CellCapturedUpdate(storage: map<Key, Entry>, props: map<string, Restorable>, values: map<string, Value>,
                           l: string, k: Key, e: Entry)
    requires l in props && l in values && CellCaptured(storage, props, values, l)
    requires k != props[l].Key()
    ensures CellCaptured(storage[k := e], props, values, l)
  {
    assert storage[k := e][props[l].Key()] == storage[props[l].Key()];
  }

  /** The first loop of `init(for:)`: one entry per live cell. */
  method CaptureCells(props: map<string, Restorable>, ghost values: map<string, Value>) returns (storage: map<Key, Entry>)
    requires forall l :: l in props ==> |l| > 0
    requires KeysIdentifyStates(props)
    requires props.Keys <= values.Keys
    requires forall l :: l in props ==> props[l].WrappedValue() == values[l]
    ensures storage.Keys == CellKeys(props)
    ensures forall l :: l in props ==> CellCaptured(storage, props, values, l)
  {
    storage := map[];
    var todo := props.Keys;
    while todo != {}
      invariant todo <= props.Keys
      invariant storage.Keys == set l | l in props && l !in todo :: props[l].Key()
      invariant forall l :: l in props && l !in todo ==> CellCaptured(storage, props, values, l)
      decreases |todo|
    {
      var l :| l in todo;
      var wrapper := props[l];
      var e := Entry(Strip(l), StoredValue(wrapper.WrappedValue()));
      ghost var prev := storage;
      storage := storage[wrapper.Key() := e];
      forall l2 | l2 in props && l2 !in todo - {l}
        ensures CellCaptured(storage, props, values, l2)
      {
        if props[l2].Key() == wrapper.Key() {
          assert props[l2].state == wrapper.state;
          assert storage[wrapper.Key()] == e;
        } else {
          CellCapturedUpdate(prev, props, values, l2, wrapper.Key(), e);
        }
      }
      todo := todo - {l};
    }
  }

  /** The second loop of `init(for:)`: each reference under its fresh key. */
  method AddReferences(cells: map<Key, Entry>, props: map<string, Restorable>, ghost values: map<string, Value>,
                       refs: seq<Reference>, freshKeys: seq<Key>, ghost owner: Instance) returns (storage: map<Key, Entry>)
    requires props.Keys <= values.Keys
    requires cells.Keys == CellKeys(props)
    requires forall l :: l in props ==> CellCaptured(cells, props, values, l)
    requires |freshKeys| == |refs| && FreshFor(freshKeys, props)
    requires forall i :: 0 <= i < |refs| ==> refs[i].owner == owner
    ensures IsCapture(storage, props, values, refs, freshKeys)
    ensures OwnedBy(storage, owner)
  {
    storage := cells;
    assert storage.Keys == CellKeys(props) + KeysUpTo(freshKeys, 0);
    for i := 0 to |refs|
      invariant CapturedUpTo(storage, props, values, refs, freshKeys, i)
      invariant OwnedBy(storage, owner)
    {
      CapturedStep(storage, props, values, refs, freshKeys, i);
      storage := storage[freshKeys[i] := Entry(refs[i].name, StoredReference(refs[i]))];
    }
  }

  /** `init(for:)`: capture every wrapped property of `obj` under its cell key with its
      stripped label and current value, then every reference of the references getter
      under a fresh key with its name. Nothing of `obj` changes. */
  method Capture(obj: Instance, freshKeys: seq<Key>) returns (s: Snapshot)
    requires obj.Valid()
    requires |freshKeys| == |obj.referenceDecls|
    requires FreshFor(freshKeys, obj.Props())
    ensures s.instance == obj && s.WellFormed()
    ensures IsCapture(s.storage, obj.Props(), obj.LabelValues(), TrueReferences(obj), freshKeys)
  {
    StatesAllocated(obj);
    label start:
    var props := obj.Props();
    ghost var values := obj.LabelValues();
    var refs := TrueReferences(obj);
    var cells := CaptureCells(props, values);
    var storage := AddReferences(cells, props, values, refs, freshKeys, obj);
    assert unchanged@start(obj.States()) && unchanged@start(obj);
    LabelValuesUnchanged@start(obj);
    s := Snapshot(obj, storage);
  }

  /** In a capture, a key holding a reference is one of the fresh keys. */
  lemma RefKeyIsFresh(storage: map<Key, Entry>, props: map<string, Restorable>, values: map<string, Value>,
                      refs: seq<Reference>, freshKeys: seq<Key>, k: Key) returns (j: nat)
    requires IsCapture(storage, props, values, refs, freshKeys) && RefAt(storage, k)
    ensures j < |freshKeys| && freshKeys[j] == k
  {
    j := KeysUpToMember(freshKeys, |freshKeys|, k);
  }

  /** Round trip for a cell: whatever was written into it after the capture, the
      write-back of a capture returns the value it held at capture time. */
  lemma CaptureRestoresCell(storage: map<Key, Entry>, props: map<string, Restorable>, values: map<string, Value>,
                            refs: seq<Reference>, freshKeys: seq<Key>, l: string, current: Value)
    requires IsCapture(storage, props, values, refs, freshKeys)
    requires l in props && HasType(values[l], props[l].state.valueType)
    ensures CellAfter(storage, props[l].state, current) == values[l]
  {
    assert CellCaptured(storage, props, values, l);
  }

  /** Round trip for references: when every captured reference holds its field's
      value at capture time, restoring puts that value back into every field a
      reference targets, and leaves the other fields alone. */
  lemma {:induction false} CaptureRestoresFields(storage: map<Key, Entry>, props: map<string, Restorable>,
                                                 values: map<string, Value>, refs: seq<Reference>, freshKeys: seq<Key>,
                                                 captured: map<string, Value>, after: map<string, Value>, before: map<string, Value>)
    requires IsCapture(storage, props, values, refs, freshKeys) && FreshFor(freshKeys, props)
    requires forall i :: 0 <= i < |refs| ==> refs[i].field in captured && refs[i].originalValue == captured[refs[i].field]
    requires FieldsRestored(after, before, storage, storage.Keys)
    ensures forall i :: 0 <= i < |refs| ==> refs[i].field in after && after[refs[i].field] == captured[refs[i].field]
  {
    forall i | 0 <= i < |refs|
      ensures refs[i].field in after && after[refs[i].field] == captured[refs[i].field]
    {
      var f := refs[i].field;
      assert RefAt(storage, freshKeys[i]);
      assert f in TargetedFields(storage, storage.Keys);
      var k :| k in storage.Keys && RefAt(storage, k) && storage[k].payload.reference.field == f &&
            after[f] == storage[k].payload.reference.originalValue;
      var j := RefKeyIsFresh(storage, props, values, refs, freshKeys, k);
      assert storage[k].payload.reference == refs[j];
    }
  }

  /** A snapshot together with what it captured: the wrapped properties' values and
      the references with the keys they were stored under. */
  datatype Captured = Captured(snapshot: Snapshot, values: map<string, Value>, refs: seq<Reference>, freshKeys: seq<Key>)
  {
    /** The snapshot's storage is the capture of `values` and `refs` from its object,
        whose every cell then held a value of its type. */
    predicate Holds() {
      && IsCapture(snapshot.storage, snapshot.instance.Props(), values, refs, freshKeys)
      && values.Keys == snapshot.instance.Props().Keys
      && ValuesTyped(snapshot.instance.Props(), values)
    }
  }

  /** Round trip: restoring a capture brings every wrapped property of its object back
      to the value it held at capture time, whatever was written in between. */
  twostate lemma RestoreReturnsToCapture(c: Captured)
    requires c.Holds()
    requires forall st :: st in c.snapshot.instance.States() ==> old(allocated(st))
    requires Applied(c.snapshot)
    ensures c.snapshot.instance.LabelValues() == c.values
  {
    var s := c.snapshot;
    var props := s.instance.Props();
    var storage, values := s.storage, c.values;
    assert IsCapture(storage, props, values, c.refs, c.freshKeys);
    forall l | l in props
      ensures props[l].state.value == values[l]
    {
      var st := props[l].state;
      assert st in s.instance.States();
      assert st.value == CellAfter(storage, st, old(st.value));
      CaptureRestoresCell(storage, props, values, c.refs, c.freshKeys, l, old(st.value));
    }
    LabelValuesAre(s.instance, values);
  }
}
