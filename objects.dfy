/** The instance side of a RestorableObject: what reflection sees of it, its wrapped
    properties keyed by label, its plain fields and its identity. */
module Objects {
  import opened Wrappers
  import opened Restorables
  import opened Identifiers

  /** One child reported by reflection: its optional label and the stored value. */
  datatype Child = Child(name: Option<string>, value: Value)

  /** One entry of the `references` getter: `Reference(owner: self, name:, keyPath:)`,
      the key path naming one plain field of the owner. */
  datatype ReferenceDecl = ReferenceDecl(name: string, field: string)

  /** The child's value is a property wrapper: `as? RestorableWrapper` on an `Any`
      looks through any number of `Optional.some` layers, like every `as?`. */
  predicate HoldsWrapper(c: Child) {
    Unwrapped(c.value).RestorableValue?
  }

  /** The wrapper that `as? RestorableWrapper` yields for the child. */
  function ChildWrapper(c: Child): Restorable
    requires HoldsWrapper(c)
  {
    Unwrapped(c.value).wrapper
  }

  /** The child is labelled `l` and holds a property wrapper. */
  predicate IsWrapperChild(c: Child, l: string) {
    c.name == Some(l) && HoldsWrapper(c)
  }

  /** Some child of `children` is labelled `l` and holds the wrapper `w`, searching
      from the last child back. */
  predicate WrapperChildIn(children: seq<Child>, l: string, w: Restorable) {
    && children != []
    && var last := children[|children| - 1];
       (IsWrapperChild(last, l) && ChildWrapper(last) == w) || WrapperChildIn(children[..|children| - 1], l, w)
  }

  /** `WrapperChildIn` holds exactly when some child of the sequence, at any index, is
      labelled `l` and holds `w`. */
  lemma {:induction false} WrapperChildInAt(children: seq<Child>, l: string, w: Restorable)
    ensures WrapperChildIn(children, l, w) <==>
      exists i :: 0 <= i < |children| && IsWrapperChild(children[i], l) && ChildWrapper(children[i]) == w
  {
    if children != [] {
      var n := |children| - 1;
      var init := children[..n];
      WrapperChildInAt(init, l, w);
      assert forall i :: 0 <= i < n ==> init[i] == children[i];
      if exists i :: 0 <= i < |children| && IsWrapperChild(children[i], l) && ChildWrapper(children[i]) == w {
        var i :| 0 <= i < |children| && IsWrapperChild(children[i], l) && ChildWrapper(children[i]) == w;
        if i < n {
          assert IsWrapperChild(init[i], l) && ChildWrapper(init[i]) == w;
        }
      }
    }
  }

  /** `restorableProperties`: reduce the children into a map, keeping each labelled
      child that holds a wrapper; a later child with the same label replaces an earlier. */
  function RestorableProperties(children: seq<Child>): (props: map<string, Restorable>)
    ensures forall l :: l in props ==> WrapperChildIn(children, l, props[l])
  {
    if children == [] then map[]
    else
      var acc := RestorableProperties(children[..|children| - 1]);
      var last := children[|children| - 1];
      if last.name.Some? && HoldsWrapper(last) then acc[last.name.value := ChildWrapper(last)] else acc
  }

  /** The last wrapper child labelled `l` is at index `i`. */
  predicate IsLastWrapperChild(children: seq<Child>, i: int, l: string) {
    && 0 <= i < |children|
    && IsWrapperChild(children[i], l)
    && forall j :: i < j < |children| ==> !IsWrapperChild(children[j], l)
  }

  /** `restorableProperties` holds exactly the labelled children that hold wrappers,
      each under its label, and when a label repeats the last such child wins. */
  lemma {:induction false} RestorablePropertiesExact(children: seq<Child>, l: string)
    ensures l in RestorableProperties(children) <==> exists i :: 0 <= i < |children| && IsWrapperChild(children[i], l)
    ensures l in RestorableProperties(children) ==>
      exists i :: IsLastWrapperChild(children, i, l) && RestorableProperties(children)[l] == ChildWrapper(children[i])
  {
    if children != [] {
      var n := |children| - 1;
      var init := children[..n];
      var acc := RestorableProperties(init);
      var props := RestorableProperties(children);
      var last := children[n];
      assert forall i :: 0 <= i < n ==> init[i] == children[i];
      RestorablePropertiesExact(init, l);
      if IsWrapperChild(last, l) {
        assert l in props && props[l] == ChildWrapper(last);
        assert IsLastWrapperChild(children, n, l);
      } else {
        assert l in props <==> l in acc;
        assert l in props ==> props[l] == acc[l];
        if exists i :: 0 <= i < |children| && IsWrapperChild(children[i], l) {
          var i :| 0 <= i < |children| && IsWrapperChild(children[i], l);
          assert i != n by {
            assert !IsWrapperChild(children[n], l);
          }
          assert IsWrapperChild(init[i], l);
        }
        if l in props {
          var i :| IsLastWrapperChild(init, i, l) && acc[l] == ChildWrapper(init[i]);
          forall j | i < j < |children|
            ensures !IsWrapperChild(children[j], l)
          {
            if j < n {
              assert !IsWrapperChild(init[j], l);
            } else {
              assert j == n;
            }
          }
          assert IsLastWrapperChild(children, i, l);
        }
      }
    }
  }

  /** A stored property of type `Restorable<Int>?` holding a wrapper is a wrapped
      property too: the cast to `RestorableWrapper` looks through `Optional.some`. */
  lemma OptionalWrapperChildIsProperty(r: Restorable)
    ensures RestorableProperties([Child(Some("w"), OptionalValue(RestorableType(IntType), Some(RestorableValue(r))))]) == map["w" := r]
  {
    var children := [Child(Some("w"), OptionalValue(RestorableType(IntType), Some(RestorableValue(r))))];
    var c := children[0];
    assert children[..0] == [];
    assert Unwrapped(c.value) == RestorableValue(r);
    assert HoldsWrapper(c) && ChildWrapper(c) == r;
    assert RestorableProperties(children) == map[][c.name.value := r];
  }

  /** What an existing value holds inside its `Optional.some` layers exists too. */
  lemma UnwrappedAllocated(v: Value)
    requires allocated(v)
    ensures allocated(Unwrapped(v))
  {
    if v.OptionalValue? && v.content.Some? {
      UnwrappedAllocated(v.content.value);
    }
  }

  /** The cells behind the wrapped properties are objects that already exist: each is
      reached through a child of an existing instance. */
  lemma StatesAllocated(obj: Instance)
    ensures forall st :: st in obj.States() ==> allocated(st)
  {
    forall st | st in obj.States()
      ensures allocated(st)
    {
      var l :| l in obj.Props() && obj.Props()[l].state == st;
      RestorablePropertiesExact(obj.children, l);
      var i :| IsLastWrapperChild(obj.children, i, l) && obj.Props()[l] == ChildWrapper(obj.children[i]);
      assert allocated(obj.children[i].value);
      UnwrappedAllocated(obj.children[i].value);
    }
  }

  /** The wrapped properties' values, and whether they are well typed, depend on
      nothing but the cells behind them. */
  twostate lemma LabelValuesUnchanged(obj: Instance)
    requires forall st :: st in obj.States() ==> old(allocated(st))
    requires unchanged(obj.States())
    ensures obj.LabelValues() == old(obj.LabelValues())
    ensures old(obj.CellsTyped()) ==> obj.CellsTyped()
  {
  }

  /** The wrapped properties' values are `values` when every cell holds its entry. */
  lemma LabelValuesAre(obj: Instance, values: map<string, Value>)
    requires values.Keys == obj.Props().Keys
    requires forall l :: l in obj.Props() ==> obj.Props()[l].state.value == values[l]
    ensures obj.LabelValues() == values
  {
  }

  /** Every value in `values` has the type of the cell of the same label. */
  predicate ValuesTyped(props: map<string, Restorable>, values: map<string, Value>) {
    forall l :: l in props && l in values ==> HasType(values[l], props[l].state.valueType)
  }

  /** When every cell is well typed, so is every wrapped property's value. */
  lemma TypedLabelValues(obj: Instance)
    requires obj.CellsTyped()
    ensures ValuesTyped(obj.Props(), obj.LabelValues())
  {
    forall l | l in obj.Props()
      ensures HasType(obj.LabelValues()[l], obj.Props()[l].state.valueType)
    {
      assert obj.Props()[l].state in obj.States();
    }
  }

  /** Keys of distinct cells differ (random 64-bit draws, assumed collision-free). */
  predicate KeysIdentifyStates(props: map<string, Restorable>) {
    forall l1, l2 :: l1 in props && l2 in props && props[l1].Key() == props[l2].Key() ==> props[l1].state == props[l2].state
  }

  /** An instance of a type conforming to RestorableObject. */
  class Instance {
    /** The conforming Swift type, which `as? Snapshot<Self>` compares. */
    const typeName: string
    /** The object's address, from which a class's identifier is derived. */
    const address: Address
    /** A value type's stored `restorableObjectIdentifier`; `None` for a class. */
    const storedIdentifier: Option<Identifier>
    /** The stored properties reflection reports; a wrapped property's child is its
        `_`-prefixed backing wrapper, which never changes. */
    const children: seq<Child>
    /** The body of the `references` getter. */
    const referenceDecls: seq<ReferenceDecl>
    /** The plain (unwrapped) fields that references read and write. */
    var fields: map<string, Value>

    /** `restorableProperties`. */
    function Props(): (props: map<string, Restorable>)
      ensures forall l :: l in props ==> WrapperChildIn(children, l, props[l])
    {
      RestorableProperties(children)
    }

    /** `wrappers`: the values of `restorableProperties`. */
    function Wrappers(): (ws: set<Restorable>)
      ensures ws <= Props().Values
      ensures forall l :: l in Props() ==> Props()[l] in ws
    {
      Props().Values
    }

    /** The boxes behind the wrapped properties. */
    function States(): (states: set<ManagedState>)
      ensures forall l :: l in Props() ==> Props()[l].state in states
    {
      set l | l in Props() :: Props()[l].state
    }

    /** `restorableObjectIdentifier`: the stored one for a value type, and for a class
        the identifier derived from the object itself. */
    function Identity(): (id: Identifier)
      ensures storedIdentifier.None? ==> id == ForObject(address)
      ensures storedIdentifier.Some? ==> id == storedIdentifier.value
    {
      match storedIdentifier
      case Some(id) => id
      case None => ForObject(address)
    }

    /** What holds of every instance at all times: every label carries the one-character
        `_` prefix of a wrapper's backing property, and cells have distinct keys. */
    predicate WellFormed() {
      && (forall l :: l in Props() ==> |l| > 0)
      && KeysIdentifyStates(Props())
    }

    /** Every key path of the `references` getter names an existing field. */
    ghost predicate Valid()
      reads this
    {
      && WellFormed()
      && forall d :: d in referenceDecls ==> d.field in fields
    }

    /** The current value of every wrapped property, by label. */
    function LabelValues(): (values: map<string, Value>)
      reads States()
      ensures values.Keys == Props().Keys
      ensures forall l :: l in values ==> values[l] == Props()[l].WrappedValue()
    {
      map l | l in Props() :: Props()[l].state.value
    }

    /** Every cell holds a value of its declared type. */
    ghost predicate CellsTyped()
      reads States()
    {
      forall st :: st in States() ==> st.Valid()
    }

    /** A plain assignment `object.field = value`. */
    method SetField(field: string, value: Value)
      requires field in fields
      modifies this
      ensures fields == old(fields)[field := value]
    {
      fields := fields[field := value];
    }
  }
}
