/** RestorationError: the only error the engine throws; it carries a message and nothing else. */
module ErrorHandling {
  import opened RestorationKeys

  datatype RestorationError = RestorationError(message: string)

  /** `GeneralError.init(_:)` forwards to `init(message:)`. */
  function FromMessage(message: string): (e: RestorationError)
    ensures e.message == message
  {
    RestorationError(message)
  }

  const NoSnapshotPrefix: string := "No snapshot exists for key "

  /** `noSnapshot(forKey:)`: the message is the fixed prefix, the key's raw value and a period. */
  function NoSnapshot(key: RestorationKey): (e: RestorationError)
    ensures |e.message| == |NoSnapshotPrefix| + |key.rawValue| + 1
    ensures e.message[..|NoSnapshotPrefix|] == NoSnapshotPrefix
    ensures e.message[|NoSnapshotPrefix|..|e.message| - 1] == key.rawValue
    ensures e.message[|e.message| - 1] == '.'
  {
    var message := NoSnapshotPrefix + key.rawValue + ".";
    assert message[|NoSnapshotPrefix|..|message| - 1] == key.rawValue;
    FromMessage(message)
  }

  /** The error names its key: two noSnapshot errors are equal exactly when they are
      for the same key, so the key can always be read back from the message. */
  lemma NoSnapshotNamesKey(a: RestorationKey, b: RestorationKey)
    ensures NoSnapshot(a) == NoSnapshot(b) <==> a == b
  {
    if NoSnapshot(a) == NoSnapshot(b) {
      var m := NoSnapshot(a).message;
      assert a.rawValue == m[|NoSnapshotPrefix|..|m| - 1] == b.rawValue;
    }
  }
}
