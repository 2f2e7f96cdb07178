/** Restorable: a mutable value cell (ManagedState) with a fixed random key, and the
    property-wrapper handle that every copy of a wrapper shares. */
module Restorables {
  import opened Wrappers

  /** The key of a cell (the random `UInt64` of a ManagedState); snapshot entries for
      references are keyed by the same kind of fresh number. */
  type Key = nat

  /** The static type a cell was declared with, standing for Swift's generic `Value`. */
  datatype TypeTag =
    | StringType
    | IntType
    | DoubleType
    | BoolType
    | OptionalType(wrapped: TypeTag)
    | RestorableType(valueType: TypeTag)
    | AnyType

  /** A payload of Swift type `Any`: a value together with its dynamic type. */
  datatype Value =
    | StringValue(s: string)
    | IntValue(i: int)
    | DoubleValue(d: real)
    | BoolValue(b: bool)
    | OptionalValue(wrapped: TypeTag, content: Option<Value>)
    | RestorableValue(wrapper: Restorable)

  /** The dynamic type of a payload. A boxed wrapper has type `Restorable<V>`, where
      `V` is fixed when its state is created. */
  function TypeOf(v: Value): TypeTag {
    match v
    case StringValue(_) => StringType
    case IntValue(_) => IntType
    case DoubleValue(_) => DoubleType
    case BoolValue(_) => BoolType
    case OptionalValue(w, _) => OptionalType(w)
    case RestorableValue(r) => RestorableType(r.state.valueType)
  }

  /** A variable of static type `t` may hold `v`. */
  predicate HasType(v: Value, t: TypeTag) {
    t == AnyType || TypeOf(v) == t
  }

  /** The payload inside any number of `Optional.some` layers. */
  function Unwrapped(v: Value): Value {
    if v.OptionalValue? && v.content.Some? then Unwrapped(v.content.value) else v
  }

  /** The conditional downcast `v as? T` on an `Any`: it succeeds at once when `v`
      already has type `T` (every value is an `Any`); otherwise it looks through an
      `Optional.some` box of the source, and wraps a value into a target `Optional<W>`. */
  function Cast(v: Value, t: TypeTag): (r: Option<Value>)
    decreases v, t
    ensures r.Some? ==> HasType(r.value, t)
    ensures HasType(v, t) ==> r == Some(v)
    ensures r.Some? && !t.OptionalType? && t != AnyType ==> r.value == Unwrapped(v)
    ensures !v.OptionalValue? && !t.OptionalType? ==> (r.Some? <==> HasType(v, t))
    ensures t.OptionalType? && !HasType(v, t) && !v.OptionalValue? && HasType(v, t.wrapped) ==>
      r == Some(OptionalValue(t.wrapped, Some(v)))
  {
    if HasType(v, t) then Some(v)
    else if v.OptionalValue? && v.content.Some? then Cast(v.content.value, t)
    else if t.OptionalType? then
      match Cast(v, t.wrapped)
      case Some(w) => Some(OptionalValue(t.wrapped, Some(w)))
      case None => None
    else None
  }

  /** The text Swift prints for a type, as `\(Self.self)` does. */
  function TypeName(t: TypeTag): (s: string)
    ensures |s| > 0
  {
    match t
    case StringType => "String"
    case IntType => "Int"
    case DoubleType => "Double"
    case BoolType => "Bool"
    case OptionalType(w) => "Optional<" + TypeName(w) + ">"
    case RestorableType(v) => "Restorable<" + TypeName(v) + ">"
    case AnyType => "Any"
  }

  /** Different types print differently, so a description names its cell's type. */
  lemma {:induction false} TypeNameInjective(a: TypeTag, b: TypeTag)
    requires TypeName(a) == TypeName(b)
    ensures a == b
  {
    var s := TypeName(a);
    match a
    case OptionalType(w) =>
      assert b.OptionalType? by { assert s[0] == 'O'; }
      assert TypeName(w) == s[9..|s| - 1] == TypeName(b.wrapped);
      TypeNameInjective(w, b.wrapped);
    case RestorableType(v) =>
      assert b.RestorableType? by { assert s[0] == 'R'; }
      assert TypeName(v) == s[11..|s| - 1] == TypeName(b.valueType);
      TypeNameInjective(v, b.valueType);
    case _ =>
      assert s[0] == TypeName(b)[0];
  }

  /** The effect of the type-erased setter on a cell of type `t` that holds `current`:
      the cell takes `newValue` (cast to `t`) when the cast succeeds and keeps
      `current` otherwise. */
  function ErasedWrite(current: Value, t: TypeTag, newValue: Value): (r: Value)
    ensures HasType(newValue, t) ==> r == newValue
    ensures Cast(newValue, t).Some? ==> r == Cast(newValue, t).value
    ensures Cast(newValue, t).None? ==> r == current
    ensures HasType(current, t) ==> HasType(r, t)
  {
    match Cast(newValue, t)
    case Some(w) => w
    case None => current
  }
  /** Writing `Optional(5)` through the erased setter of an `Int` cell stores `5`:
      the cast unwraps the optional. */
  lemma ErasedWriteUnwrapsOptional()
    ensures ErasedWrite(IntValue(1), IntType, OptionalValue(IntType, Some(IntValue(5)))) == IntValue(5)
  {
  }


  /** `ManagedState`: the shared box behind every copy of one wrapper. Its key is drawn
      once at creation and never changes; its value is updated in place. */
  class ManagedState {
    const key: Key
    const valueType: TypeTag
    var value: Value

    ghost predicate Valid()
      reads this
    {
      HasType(value, valueType)
    }

    constructor (key: Key, valueType: TypeTag, value: Value)
      requires HasType(value, valueType)
      ensures this.key == key && this.valueType == valueType && this.value == value
      ensures Valid()
    {
      this.key := key;
      this.valueType := valueType;
      this.value := value;
    }
  }

  /** `Restorable<Value>`: a struct holding only its state, so copies (`projectedValue`,
      `init(other:)`, plain assignment) alias one ManagedState. */
  datatype Restorable = Restorable(state: ManagedState) {

    /** `key`: the state's key. */
    function Key(): (k: Key)
      ensures k == state.key
    {
      state.key
    }

    /** The getter of `wrappedValue` and of the type-erased `value`. */
    function WrappedValue(): (v: Value)
      reads state
      ensures v == state.value
    {
      state.value
    }

    /** The setter of `wrappedValue`: Swift's static typing guarantees `newValue`
        has the cell's type. */
    method SetWrappedValue(newValue: Value)
      requires HasType(newValue, state.valueType)
      modifies state
      ensures state.value == newValue
    {
      state.value := newValue;
    }

    /** The setter of the type-erased `value`: writes only when `newValue as? Value`
        succeeds, and is a no-op otherwise. */
    method SetErasedValue(newValue: Value)
      modifies state
      ensures state.value == ErasedWrite(old(state.value), state.valueType, newValue)
    {
      match Cast(newValue, state.valueType)
      case Some(w) => SetWrappedValue(w);
      case None =>
    }

    /** `projectedValue` and `init(other:)`: the same wrapper, sharing state and key. */
    function Copy(): (r: Restorable)
      ensures r.state == state && r.Key() == Key()
    {
      this
    }

    /** `description`, with `valueText` standing for the interpolated wrapped value:
        `Restorable<T>(value)`. */
    function Description(valueText: string): (s: string)
      ensures s == TypeName(RestorableType(state.valueType)) + "(" + valueText + ")"
    {
      "Restorable<" + TypeName(state.valueType) + ">(" + valueText + ")"
    }

    /** `debugDescription`: `Restorable<T>(wrappedValue: value)`. */
    function DebugDescription(valueText: string): (s: string)
      ensures s == TypeName(RestorableType(state.valueType)) + "(wrappedValue: " + valueText + ")"
    {
      "Restorable<" + TypeName(state.valueType) + ">(wrappedValue: " + valueText + ")"
    }
  }

  /** `init(value:)`, `init(wrappedValue:)` and `init(_:)`: a new wrapper over a new
      state holding `value`; `key` is the state's random draw. (`init(state:)`, which
      wraps an existing state, is the datatype constructor `Restorable(state)`.) */
  method NewRestorable(value: Value, valueType: TypeTag, key: Key) returns (r: Restorable)
    requires HasType(value, valueType)
    ensures fresh(r.state) && r.state.Valid()
    ensures r.Key() == key && r.state.valueType == valueType && r.WrappedValue() == value
  {
    var state := new ManagedState(key, valueType, value);
    r := Restorable(state);
  }

  /** `arg as? Restorable<Value>` succeeds: the argument of `init(wrappedValue:state:)`
      is a wrapper of the cell's own type, bare or inside `Optional.some` layers. */
  predicate IsWrapperOf(arg: Value, valueType: TypeTag) {
    Cast(arg, RestorableType(valueType)).Some?
  }

  /** The wrapper that `arg as? Restorable<Value>` yields. */
  function NestedWrapper(arg: Value, valueType: TypeTag): (w: Restorable)
    requires IsWrapperOf(arg, valueType)
    ensures w.state.valueType == valueType
    ensures arg.RestorableValue? ==> w == arg.wrapper
  {
    Cast(arg, RestorableType(valueType)).value.wrapper
  }

  /** `init(wrappedValue:state:)`: when `arg as? Self` succeeds the wrapper it yields is
      flattened (the new cell holds its current payload); otherwise the cell holds
      `arg as! Value`, which traps unless the cast succeeds. The `state` argument is
      never read. */
  method NewNested(arg: Value, valueType: TypeTag, key: Key) returns (r: Restorable)
    requires IsWrapperOf(arg, valueType) || Cast(arg, valueType).Some?
    requires IsWrapperOf(arg, valueType) ==> NestedWrapper(arg, valueType).state.Valid()
    ensures fresh(r.state) && r.state.Valid()
    ensures r.Key() == key && r.state.valueType == valueType
    ensures IsWrapperOf(arg, valueType) ==> r.WrappedValue() == NestedWrapper(arg, valueType).WrappedValue()
    ensures !IsWrapperOf(arg, valueType) ==> r.WrappedValue() == Cast(arg, valueType).value
    ensures !IsWrapperOf(arg, valueType) && HasType(arg, valueType) ==> r.WrappedValue() == arg
  {
    if IsWrapperOf(arg, valueType) {
      var inner := NestedWrapper(arg, valueType);
      r := NewRestorable(inner.WrappedValue(), valueType, key);
    } else {
      r := NewRestorable(Cast(arg, valueType).value, valueType, key);
    }
  }

  /** `init(state:)` for an optional `Value == W?`: the cell starts as `nil`. */
  method NewNil(wrapped: TypeTag, key: Key) returns (r: Restorable)
    ensures fresh(r.state) && r.state.Valid()
    ensures r.Key() == key && r.state.valueType == OptionalType(wrapped)
    ensures r.WrappedValue() == OptionalValue(wrapped, None)
  {
    r := NewRestorable(OptionalValue(wrapped, None), OptionalType(wrapped), key);
  }
}
