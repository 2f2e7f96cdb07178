/** Reference: a named handle on one plain field of its owner, with the value captured
    when it was built and the action that writes that value back. */
module References {
  import opened Restorables
  import opened Objects

  /** The restore closure `{ object[keyPath: keyPath] = originalValue }` is represented
      by its two captured parts, the owner and the field the key path names. */
  datatype Reference = Reference(name: string, owner: Instance, field: string, originalValue: Value) {

    /** `restore()`: write the captured value back into the owner's field. */
    method Restore()
      modifies owner
      ensures owner.fields == RestoredFields(old(owner.fields), this)
    {
      owner.fields := owner.fields[field := originalValue];
    }
  }

  /** The owner's fields after `r.restore()`: the referenced field holds the captured
      value and every other field keeps its value. */
  function RestoredFields(fields: map<string, Value>, r: Reference): (after: map<string, Value>)
    ensures after.Keys == fields.Keys + {r.field}
    ensures after[r.field] == r.originalValue
    ensures forall f :: f in fields && f != r.field ==> after[f] == fields[f]
  {
    fields[r.field := r.originalValue]
  }

  /** Restoring twice leaves the fields as restoring once does. */
  lemma RestoreIsIdempotent(fields: map<string, Value>, r: Reference)
    ensures RestoredFields(RestoredFields(fields, r), r) == RestoredFields(fields, r)
  {
  }

  /** Later writes to the field and a restore between them: whatever the field held,
      restoring gives back the value captured at construction. */
  lemma RestoreForgetsLaterWrites(fields: map<string, Value>, r: Reference, written: Value)
    requires r.field in fields
    ensures RestoredFields(fields[r.field := written], r) == RestoredFields(fields, r)
  {
  }

  /** The internal initialiser: the name and the value are stored verbatim. */
  function WithOriginalValue(owner: Instance, name: string, originalValue: Value, field: string): (r: Reference)
    ensures r.name == name && r.owner == owner && r.field == field && r.originalValue == originalValue
  {
    Reference(name, owner, field, originalValue)
  }

  /** The public initialiser: the original value is the field's value at construction. */
  function Make(owner: Instance, name: string, field: string): (r: Reference)
    reads owner
    requires field in owner.fields
    ensures r.name == name && r.owner == owner && r.field == field
    ensures r.originalValue == owner.fields[field]
    ensures owner.fields == RestoredFields(owner.fields, r)
  {
    WithOriginalValue(owner, name, owner.fields[field], field)
  }

  /** `_ReferenceBuilder.buildBlock`: the components, unchanged and in order. */
  function BuildBlock(components: seq<Reference>): (r: seq<Reference>)
    ensures |r| == |components|
    ensures forall i :: 0 <= i < |r| ==> r[i] == components[i]
  {
    components
  }

  /** `trueReferences`: the `references` getter of `obj` evaluated now. Every reference
      is owned by `obj` and holds the current value of its field. */
  function TrueReferences(obj: Instance): (refs: seq<Reference>)
    reads obj
    requires obj.Valid()
    ensures |refs| == |obj.referenceDecls|
    ensures forall i :: 0 <= i < |refs| ==>
      && refs[i].name == obj.referenceDecls[i].name && refs[i].field == obj.referenceDecls[i].field
      && refs[i].owner == obj && refs[i].originalValue == obj.fields[refs[i].field]
  {
    assert forall i :: 0 <= i < |obj.referenceDecls| ==> obj.referenceDecls[i] in obj.referenceDecls;
    BuildBlock(seq(|obj.referenceDecls|, i requires 0 <= i < |obj.referenceDecls| && obj.referenceDecls[i].field in obj.fields reads obj =>
      Make(obj, obj.referenceDecls[i].name, obj.referenceDecls[i].field)))
  }
}
