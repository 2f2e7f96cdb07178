/** RestorationKey: the caller-chosen, string-backed name of one stored snapshot. */
module RestorationKeys {

  /** The key is its raw string; equality (and so map lookup) is by that string. */
  datatype RestorationKey = RestorationKey(rawValue: string)

  /** `init(rawValue:)` keeps the string verbatim. */
  function FromRawValue(rawValue: string): (key: RestorationKey)
    ensures key.rawValue == rawValue
  {
    RestorationKey(rawValue)
  }

  /** `init(_:)` forwards to `init(rawValue:)`. */
  function FromString(rawValue: string): (key: RestorationKey)
    ensures key == FromRawValue(rawValue)
  {
    FromRawValue(rawValue)
  }

  /** `init(stringLiteral:)` forwards to `init(_:)`. */
  function FromStringLiteral(value: string): (key: RestorationKey)
    ensures key == FromString(value)
  {
    FromString(value)
  }

  /** Two keys are equal exactly when their raw strings are equal, so equal keys
      address the same entry of a table keyed by RestorationKey. */
  lemma EqualityIsRawValueEquality(a: RestorationKey, b: RestorationKey)
    ensures a == b <==> a.rawValue == b.rawValue
    ensures forall table: map<RestorationKey, int> :: a.rawValue == b.rawValue ==> (a in table <==> b in table)
  {
  }

  /** The three initialisers agree: a key written as a literal, built with `init(_:)`
      and built with `init(rawValue:)` from the same text are one key. */
  lemma InitialisersAgree(text: string)
    ensures FromStringLiteral(text) == FromString(text) == FromRawValue(text)
    ensures FromStringLiteral(text).rawValue == text
  {
  }
}
