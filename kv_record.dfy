/**
 * One key-value record (`types.KVRecord`): an identity, a key, the history of
 * its values and a metadata map whose reserved "Version" entry holds a
 * decimal counter.
 *
 * The mutators are methods of the class `KVRecord`, each proved against a
 * step function on the metadata map; the read operations (`GetVersion`,
 * `GetMetadata`, `ListMetadata`, `GetValue`) are functions of the record's
 * fields. A nil Go map is `None`.
 */
module KvRecord {
  import opened Common
  import opened Decimal
  import ValuesHistory

  /** The record's identity, drawn from `uuid.New()`; treated as an opaque value. */
  type Uuid = seq<byte>

  const VersionKey: string := "Version"

  /** A record's content as the container and the persistence layer handle it. */
  datatype Record = Record(key: string, values: seq<Bytes>, metadata: map<string, string>)

  /** Go's zero `KVRecord`: no key, no values, and a nil metadata map (which reads as empty). */
  const ZeroRecord: Record := Record("", [], map[])

  /** The content of a record just built by `NewKVRecord(key, blob)`. */
  function FreshRecord(key: string, blob: Bytes): Record {
    Record(key, [blob], map[VersionKey := "1"])
  }

  datatype RecordError =
    | EmptyKey
    | EmptyValue
    | NilMetadata
    | MetadataKeyNotFound
    | VersionNotFound(version: int)
    | VersionZero

  /** Go's one-valued map read `m[k]`: `""` when the key is absent or the map is nil. */
  function Lookup(md: Option<map<string, string>>, k: string): (v: string)
    ensures md.Some? && k in md.value ==> v == md.value[k]
    ensures md.None? || k !in md.value ==> v == ""
  {
    if md.Some? && k in md.value then md.value[k] else ""
  }

  /** `GetVersion()`: the "Version" entry read with `strconv.Atoi`, or 0 when it is missing or not a number. */
  function GetVersion(md: Option<map<string, string>>): (v: int)
    ensures InInt64(v)
    ensures Atoi(Lookup(md, VersionKey)).None? ==> v == 0
    ensures Atoi(Lookup(md, VersionKey)).Some? ==> v == Atoi(Lookup(md, VersionKey)).value
  {
    match Atoi(Lookup(md, VersionKey))
    case Some(n) => n
    case None => 0
  }

  /** The map a mutator works on: a nil map is first replaced by `{"Version": "1"}`. */
  function Initialised(md: Option<map<string, string>>): (m: map<string, string>)
    ensures md.Some? ==> m == md.value
    ensures md.None? ==> GetVersion(Some(m)) == 1
  {
    if md.Some? then md.value
    else
      var m := map[VersionKey := "1"];
      assert Lookup(Some(m), VersionKey) == FormatInt(1);
      AtoiFormatInt(1);
      m
  }

  /**
   * Advances the counter: `version = GetVersion() + 1; Metadata["Version"] = Sprintf("%d", version)`.
   * The stored counter reads back as the returned version, one more than
   * before, and every other entry keeps its value.
   */
  function BumpVersion(md: map<string, string>): (r: (map<string, string>, int))
    ensures GetVersion(Some(r.0)) == r.1 == Inc64(GetVersion(Some(md)))
    ensures r.0.Keys == md.Keys + {VersionKey}
    ensures forall k :: k != VersionKey && k in md ==> r.0[k] == md[k]
  {
    var version := Inc64(GetVersion(Some(md)));
    AtoiFormatInt(version);
    (md[VersionKey := FormatInt(version)], version)
  }

  /** What a mutator leaves behind: the metadata map, the returned version and the returned error. */
  datatype MetadataStep = MetadataStep(metadata: Option<map<string, string>>, version: int, err: Option<RecordError>)

  /** `SetMetadata(k, v)`: the counter moves only when `k` is already present. */
  function SetMetadataStep(md: Option<map<string, string>>, k: string, v: string): (s: MetadataStep)
    ensures s.err.Some? <==> k == "" || v == ""
    ensures s.err.Some? ==> s.metadata == md && s.version == -1
    ensures s.err.None? ==> s.metadata.Some? && k in s.metadata.value && s.metadata.value[k] == v
  {
    if k == "" then MetadataStep(md, -1, Some(EmptyKey))
    else if v == "" then MetadataStep(md, -1, Some(EmptyValue))
    else
      var m := Initialised(md);
      if k in m then
        var (bumped, version) := BumpVersion(m);
        MetadataStep(Some(bumped[k := v]), version, None)
      else
        MetadataStep(Some(m[k := v]), GetVersion(Some(m)), None)
  }

  /** `GetMetadata(k)`. */
  function GetMetadata(md: Option<map<string, string>>, k: string): (r: Result<string, RecordError>)
    ensures r.Ok? <==> k != "" && md.Some? && k in md.value
    ensures r.Ok? ==> r.value == md.value[k]
  {
    if k == "" then Err(EmptyKey)
    else if md.None? then Err(NilMetadata)
    else if k !in md.value then Err(MetadataKeyNotFound)
    else Ok(md.value[k])
  }

  /** `DeleteMetadata(k)`: removes a present key and advances the counter. */
  function DeleteMetadataStep(md: Option<map<string, string>>, k: string): (s: MetadataStep)
    ensures s.err.Some? <==> k == "" || md.None? || k !in md.value
    ensures s.err.Some? ==> s.metadata == md && s.version == -1
    ensures s.err.None? ==> s.metadata.Some? && k !in s.metadata.value
  {
    if k == "" then MetadataStep(md, -1, Some(EmptyKey))
    else if md.None? then MetadataStep(md, -1, Some(NilMetadata))
    else if k !in md.value then MetadataStep(md, -1, Some(MetadataKeyNotFound))
    else
      var (bumped, version) := BumpVersion(md.value);
      MetadataStep(Some(bumped - {k}), version, None)
  }

  /** `ListMetadata()`: the whole map, or an error for a nil map. */
  function ListMetadata(md: Option<map<string, string>>): (r: Result<map<string, string>, RecordError>)
    ensures r.Ok? <==> md.Some?
    ensures r.Ok? ==> r.value == md.value
  {
    if md.None? then Err(NilMetadata) else Ok(md.value)
  }

  /**
   * `GetValue(version)`, 1-based: `-1` is the latest value and `v` in
   * `1..len(Value)` is `Value[v-1]`. Every other version is an error,
   * including the negative versions below `-1` that the source lets through
   * to the slice index (see `GetValueAsWritten`).
   */
  function GetValue(values: seq<Bytes>, version: int): (r: Result<Bytes, RecordError>)
    ensures r.Ok? <==> (version == -1 && |values| > 0) || 1 <= version <= |values|
    ensures version == -1 && |values| > 0 ==> r == Ok(values[|values| - 1])
    ensures 1 <= version <= |values| ==> r == Ok(values[version - 1])
  {
    if version == -1 then
      if |values| > 0 then Ok(values[|values| - 1]) else Err(VersionNotFound(version))
    else if version > |values| then Err(VersionNotFound(version))
    else if version == 0 then Err(VersionZero)
    else if version < -1 then Err(VersionNotFound(version))
    else Ok(values[version - 1])
  }

  /** Which branch `GetValue` takes as written: a refusal, or the slice index it then reads. */
  datatype ValueRead = Refused(error: RecordError) | ReadsIndex(index: int)

  /**
   * `GetValue` as written in the source: the guards, then `Value[len-1]` or
   * `Value[version-1]`, unchecked. The guards let every version below -1
   * (and -1 on an empty history) through to an index outside the slice,
   * where Go panics, and no other version.
   */
  function GetValueAsWritten(length: nat, version: int): (r: ValueRead)
    ensures r.ReadsIndex? && !(0 <= r.index < length) <==> version < -1 || (version == -1 && length == 0)
  {
    if version == -1 then ReadsIndex(length - 1)
    else if version > length then Refused(VersionNotFound(version))
    else if version == 0 then Refused(VersionZero)
    else ReadsIndex(version - 1)
  }

  /**
   * Where the source's guards do not send it out of the slice, the
   * corrected `GetValue` reads the same value or refuses with the same error.
   */
  lemma GetValueAsWrittenAgrees(values: seq<Bytes>, version: int)
    ensures var read := GetValueAsWritten(|values|, version);
      read.ReadsIndex? && 0 <= read.index < |values| ==> GetValue(values, version) == Ok(values[read.index])
    ensures var read := GetValueAsWritten(|values|, version);
      read.Refused? ==> GetValue(values, version) == Err(read.error)
  {
  }

  /** The concrete input: on a one-value record, `GetValue(-2)` reaches `Value[-3]`. */
  lemma GetValueMinusTwoIndexesBelowZero(blob: Bytes)
    ensures GetValueAsWritten(1, -2) == ReadsIndex(-3)
    ensures GetValue([blob], -2).Err?
  {
  }

  /**
   * The record's versions are the value history's shifted by one: record
   * version `v + 1` is history version `v`, and both read the same latest value.
   */
  lemma GetValueIsHistoryShiftedByOne(values: seq<Bytes>, v: int)
    requires |values| > 0
    ensures GetValue(values, -1).Ok? && ValuesHistory.ValueAt(values, -1).Ok?
    ensures GetValue(values, -1).value == ValuesHistory.ValueAt(values, -1).value
    ensures 1 <= v < |values| ==> GetValue(values, v + 1) == Ok(ValuesHistory.ValueAt(values, v).value)
  {
  }

  /**
   * Setting a metadata entry other than "Version": the counter advances by
   * exactly one when the key was present, stays put when it was new, and the
   * returned version is what `GetVersion` reads afterwards; every other entry
   * keeps its value.
   */
  lemma SetMetadataVersionRule(md: Option<map<string, string>>, k: string, v: string)
    requires k != "" && v != "" && k != VersionKey
    ensures var s := SetMetadataStep(md, k, v);
      GetVersion(s.metadata) == s.version &&
      s.version == (if k in Initialised(md) then Inc64(GetVersion(Some(Initialised(md)))) else GetVersion(Some(Initialised(md))))
    ensures var s := SetMetadataStep(md, k, v);
      forall j :: j != k && j != VersionKey && j in Initialised(md) ==> j in s.metadata.value && s.metadata.value[j] == Initialised(md)[j]
    ensures md.Some? && k !in md.value ==> GetVersion(SetMetadataStep(md, k, v).metadata) == GetVersion(md)
    ensures md.Some? && k in md.value ==> GetVersion(SetMetadataStep(md, k, v).metadata) == Inc64(GetVersion(md))
  {
    var m := Initialised(md);
    if k in m {
      var (bumped, version) := BumpVersion(m);
      assert Lookup(Some(bumped[k := v]), VersionKey) == Lookup(Some(bumped), VersionKey);
    } else {
      assert Lookup(Some(m[k := v]), VersionKey) == Lookup(Some(m), VersionKey);
    }
  }

  /** After a successful `SetMetadata(k, v)`, `GetMetadata(k)` answers `v`. */
  lemma SetThenGetMetadata(md: Option<map<string, string>>, k: string, v: string)
    requires k != "" && v != ""
    ensures GetMetadata(SetMetadataStep(md, k, v).metadata, k) == Ok(v)
  {
  }

  /**
   * Deleting a present entry other than "Version" advances the counter by
   * exactly one, returns the new counter, removes the entry and keeps all others.
   */
  lemma DeleteMetadataVersionRule(md: Option<map<string, string>>, k: string)
    requires k != "" && k != VersionKey && md.Some? && k in md.value
    ensures var s := DeleteMetadataStep(md, k);
      s.err.None? && GetVersion(s.metadata) == s.version == Inc64(GetVersion(md))
    ensures GetMetadata(DeleteMetadataStep(md, k).metadata, k) == Err(MetadataKeyNotFound)
    ensures var s := DeleteMetadataStep(md, k);
      forall j :: j != k && j != VersionKey && j in md.value ==> j in s.metadata.value && s.metadata.value[j] == md.value[j]
  {
    var (bumped, version) := BumpVersion(md.value);
    assert Lookup(Some(bumped - {k}), VersionKey) == Lookup(Some(bumped), VersionKey);
  }

  /** `UpdateRecord`'s effect on the metadata: a bump of the (initialised) map. */
  lemma UpdateRecordVersionRule(md: Option<map<string, string>>)
    ensures var (m, version) := BumpVersion(Initialised(md));
      GetVersion(Some(m)) == version == Inc64(GetVersion(Some(Initialised(md))))
    ensures md.Some? ==> BumpVersion(Initialised(md)).1 == Inc64(GetVersion(md))
    ensures md.None? ==> BumpVersion(Initialised(md)).1 == 2
  {
  }

  class KVRecord {
    var id: Uuid
    var key: string
    var value: seq<Bytes>
    var metadata: Option<map<string, string>>

    /** The record's content, with a nil metadata map read as empty. */
    function Content(): Record
      reads this
    {
      Record(key, value, if metadata.Some? then metadata.value else map[])
    }

    /** `NewKVRecord(key, blob)`, with the fresh identity passed in. */
    constructor (id: Uuid, key: string, blob: Bytes)
      ensures this.id == id && this.key == key && value == [blob]
      ensures metadata == Some(map[VersionKey := "1"])
      ensures Content() == FreshRecord(key, blob) && GetVersion(metadata) == 1
    {
      this.id := id;
      this.key := key;
      value := [] + [blob];
      metadata := Some(map[VersionKey := "1"]);
      new;
      AtoiFormatInt(1);
      assert Lookup(metadata, VersionKey) == FormatInt(1);
    }

    method SetMetadata(k: string, v: string) returns (version: int, err: Option<RecordError>)
      modifies this
      ensures MetadataStep(metadata, version, err) == SetMetadataStep(old(metadata), k, v)
      ensures id == old(id) && key == old(key) && value == old(value)
    {
      if k == "" {
        return -1, Some(EmptyKey);
      }
      if v == "" {
        return -1, Some(EmptyValue);
      }
      if metadata.None? {
        metadata := Some(map[VersionKey := "1"]);
      }
      version := GetVersion(metadata);
      var md := metadata.value;
      if k in md {
        version := Inc64(version);
        md := md[VersionKey := FormatInt(version)];
      }
      metadata := Some(md[k := v]);
      err := None;
    }

    method DeleteMetadata(k: string) returns (version: int, err: Option<RecordError>)
      modifies this
      ensures MetadataStep(metadata, version, err) == DeleteMetadataStep(old(metadata), k)
      ensures id == old(id) && key == old(key) && value == old(value)
    {
      if k == "" {
        return -1, Some(EmptyKey);
      }
      if metadata.None? {
        return -1, Some(NilMetadata);
      }
      if k !in metadata.value {
        return -1, Some(MetadataKeyNotFound);
      }
      version := GetVersion(metadata);
      version := Inc64(version);
      var md := metadata.value[VersionKey := FormatInt(version)];
      metadata := Some(md - {k});
      err := None;
    }

    /**
     * `UpdateRecord(k, blob)`; `None` stands for a nil slice. On success the
     * key is replaced, exactly one value is appended and the counter is bumped.
     */
    method UpdateRecord(k: string, blob: Option<Bytes>) returns (version: int, err: Option<RecordError>)
      modifies this
      ensures err.Some? <==> k == "" || blob.None?
      ensures err.Some? ==> version == -1 && key == old(key) && value == old(value) && metadata == old(metadata)
      ensures err.None? ==> key == k && value == old(value) + [blob.value]
      ensures err.None? ==> metadata == Some(BumpVersion(Initialised(old(metadata))).0)
      ensures err.None? ==> version == BumpVersion(Initialised(old(metadata))).1
      ensures id == old(id)
    {
      if k == "" {
        return -1, Some(EmptyKey);
      }
      if blob.None? {
        return -1, Some(EmptyValue);
      }
      if metadata.None? {
        metadata := Some(map[VersionKey := "1"]);
      }
      version := GetVersion(metadata);
      version := Inc64(version);
      metadata := Some(metadata.value[VersionKey := FormatInt(version)]);
      key := k;
      value := value + [blob.value];
      err := None;
    }
  }
}
