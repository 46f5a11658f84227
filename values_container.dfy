/**
 * The value history of a record (`types.ValuesContainer`): an append-only list
 * of blobs whose version is its length minus one. Version `-1` means "the
 * latest value"; version `0` is refused even though the initial blob is
 * stored there.
 */
module ValuesHistory {
  import opened Common

  datatype HistoryError = VersionOutOfRange(version: int)

  /** What `Get(version)` answers for a non-empty history. */
  function ValueAt(history: seq<Bytes>, version: int): (r: Result<Bytes, HistoryError>)
    requires |history| > 0
    ensures r.Ok? <==> version == -1 || 1 <= version < |history|
    ensures version == -1 ==> r == Ok(history[|history| - 1])
    ensures 1 <= version < |history| ==> r == Ok(history[version])
    ensures r.Err? ==> r.error == VersionOutOfRange(version)
  {
    if version > |history| - 1 || version == 0 || version < -1 then Err(VersionOutOfRange(version))
    else if version < 0 then Ok(history[|history| - 1])
    else Ok(history[version])
  }

  class ValuesContainer {
    var value: seq<Bytes>

    /** Every container is created with one blob and only ever grows. */
    ghost predicate Valid()
      reads this
    {
      |value| > 0
    }

    /** `NewValuesContainer(blob)`: a history holding exactly `blob`. */
    constructor (blob: Bytes)
      ensures Valid()
      ensures value == [blob]
    {
      value := [];
      new;
      var _ := Set(blob);
    }

    method Get(version: int) returns (r: Result<Bytes, HistoryError>)
      requires Valid()
      ensures r == ValueAt(value, version)
    {
      if version > |value| - 1 || version == 0 || version < -1 {
        return Err(VersionOutOfRange(version));
      }
      var v := version;
      if v < 0 {
        v := |value| - 1;
      }
      r := Ok(value[v]);
    }

    /** Appends one blob and returns its version, the new length minus one. */
    method Set(blob: Bytes) returns (version: int)
      modifies this
      ensures value == old(value) + [blob]
      ensures version == |value| - 1 == |old(value)|
      ensures Valid()
    {
      value := value + [blob];
      version := |value| - 1;
    }

    method GetVersion() returns (version: int)
      requires Valid()
      ensures version == |value| - 1
      ensures ValueAt(value, -1) == Ok(value[version])
    {
      version := |value| - 1;
    }

    method Len() returns (n: int)
      ensures n == |value|
    {
      n := |value|;
    }
  }

  /**
   * Appending keeps every readable version readable with the same blob, and
   * makes the appended blob the latest.
   */
  lemma AppendKeepsVersions(history: seq<Bytes>, blob: Bytes, version: int)
    requires |history| > 0
    ensures ValueAt(history + [blob], -1) == Ok(blob)
    ensures ValueAt(history, version).Ok? && version != -1 ==> ValueAt(history + [blob], version) == ValueAt(history, version)
  {
  }
}
