/** Identifier: the string that names one RestorableObject instance in the snapshot store. */
module Identifiers {

  /** Equality (and hashing) is by the raw string alone. */
  datatype Identifier = Identifier(rawValue: string)

  /** One more than the largest `UInt64`. */
  const UInt64Bound: nat := 0x1_0000_0000_0000_0000

  /** A machine address, which is what `ObjectIdentifier` wraps. */
  type Address = a: nat | a < UInt64Bound

  /** `init(_rawValue:)` keeps the string verbatim. */
  function FromRawValue(rawValue: string): (id: Identifier)
    ensures id.rawValue == rawValue
  {
    Identifier(rawValue)
  }

  function DecimalDigit(d: nat): (c: char)
    requires d < 10
    ensures '0' <= c <= '9'
  {
    (('0' as int) + d) as char
  }

  function HexDigit(d: nat): (c: char)
    requires d < 16
    ensures d < 10 ==> c == DecimalDigit(d)
    ensures d >= 10 ==> 'a' <= c <= 'f'
  {
    if d < 10 then DecimalDigit(d) else (('a' as int) + d - 10) as char
  }

  /** The decimal text of a number, as string interpolation of a `UInt64` prints it. */
  function Decimal(n: nat): (s: string)
    ensures 1 <= |s|
    ensures n >= 10 ==> 2 <= |s|
    ensures forall i :: 0 <= i < |s| ==> '0' <= s[i] <= '9'
  {
    if n < 10 then [DecimalDigit(n)] else Decimal(n / 10) + [DecimalDigit(n % 10)]
  }

  function Pow16(width: nat): (p: nat)
    ensures p >= 1
  {
    if width == 0 then 1 else 16 * Pow16(width - 1)
  }

  lemma Pow16IsUInt64Bound()
    ensures Pow16(16) == UInt64Bound
  {
    assert Pow16(4) == 0x1_0000;
    assert Pow16(8) == 0x1_0000_0000;
    assert Pow16(12) == 0x1_0000_0000_0000;
  }

  /** A lower-case hexadecimal digit. */
  predicate IsHexDigit(c: char) {
    '0' <= c <= '9' || 'a' <= c <= 'f'
  }

  /** `width` lower-case hexadecimal digits of `n`, padded with leading zeros. */
  function Hex(n: nat, width: nat): (s: string)
    ensures |s| == width
    ensures forall i :: 0 <= i < |s| ==> IsHexDigit(s[i])
  {
    if width == 0 then "" else Hex(n / 16, width - 1) + [HexDigit(n % 16)]
  }

  const ObjectIdentifierPrefix: string := "ObjectIdentifier(0x"

  /** The text of `ObjectIdentifier(object)` under string interpolation: the address as
      sixteen hexadecimal digits inside `ObjectIdentifier(0x…)`. */
  function ObjectIdentifierText(address: Address): (s: string)
    ensures |s| == |ObjectIdentifierPrefix| + 17
    ensures s[..|ObjectIdentifierPrefix|] == ObjectIdentifierPrefix
    ensures s[|ObjectIdentifierPrefix|..|s| - 1] == Hex(address, 16)
    ensures forall i :: |ObjectIdentifierPrefix| <= i < |s| - 1 ==> IsHexDigit(s[i])
    ensures s[|s| - 1] == ')'
  {
    ObjectIdentifierPrefix + Hex(address, 16) + ")"
  }

  /** `init(for:)`: the identifier of a class instance, derived from its address. */
  function ForObject(address: Address): (id: Identifier)
    ensures id.rawValue == ObjectIdentifierText(address)
  {
    FromRawValue(ObjectIdentifierText(address))
  }

  /** `init()`: a random identifier; `draw` is the random `UInt64` it interpolates. */
  function Random(draw: nat): (id: Identifier)
    requires draw < UInt64Bound
    ensures id.rawValue == Decimal(draw)
  {
    FromRawValue(Decimal(draw))
  }

  lemma {:induction false} DecimalInjective(a: nat, b: nat)
    requires Decimal(a) == Decimal(b)
    ensures a == b
  {
    var s := Decimal(a);
    if a < 10 {
      assert b < 10;
      assert DecimalDigit(a) == s[0] == DecimalDigit(b);
    } else {
      assert b >= 10;
      assert DecimalDigit(a % 10) == s[|s| - 1] == DecimalDigit(b % 10);
      assert Decimal(a / 10) == s[..|s| - 1] == Decimal(b / 10);
      DecimalInjective(a / 10, b / 10);
    }
  }

  lemma {:induction false} HexInjective(a: nat, b: nat, width: nat)
    requires a < Pow16(width) && b < Pow16(width)
    requires Hex(a, width) == Hex(b, width)
    ensures a == b
  {
    if width > 0 {
      var s := Hex(a, width);
      assert HexDigit(a % 16) == s[width - 1] == HexDigit(b % 16);
      assert a % 16 == b % 16;
      assert Hex(a / 16, width - 1) == s[..width - 1] == Hex(b / 16, width - 1);
      HexInjective(a / 16, b / 16, width - 1);
    }
  }

  /** `init(for:)` on two distinct live objects (distinct addresses) gives unequal
      identifiers; on one object it always gives the same identifier. */
  lemma ForObjectInjective(a: Address, b: Address)
    ensures ForObject(a) == ForObject(b) <==> a == b
  {
    if ForObject(a) == ForObject(b) {
      var n := |ObjectIdentifierPrefix|;
      var sa, sb := ObjectIdentifierText(a), ObjectIdentifierText(b);
      assert Hex(a, 16) == sa[n..n + 16] == sb[n..n + 16] == Hex(b, 16);
      Pow16IsUInt64Bound();
      HexInjective(a, b, 16);
    }
  }

  /** Two `init()` calls with different random draws give unequal identifiers. */
  lemma RandomInjective(a: nat, b: nat)
    requires a < UInt64Bound && b < UInt64Bound
    ensures Random(a) == Random(b) <==> a == b
  {
    if Random(a) == Random(b) {
      DecimalInjective(a, b);
    }
  }

  /** A random identifier (a value type's) never equals a class instance's identifier:
      one starts with a digit, the other with `O`. */
  lemma RandomIsNeverObjectIdentifier(draw: nat, address: Address)
    requires draw < UInt64Bound
    ensures Random(draw) != ForObject(address)
  {
    assert Random(draw).rawValue[0] <= '9' < 'O' == ForObject(address).rawValue[0];
  }
}
