/**
 * The mock persistence driver (`persistence.MockDriver`): a driver whose
 * backend is a `MockContainer`, pre-filled with ten records `key-0` ...
 * `key-9`. Writes and deletes never fail; a read of a missing key does.
 */
module MockBackend {
  import opened Common
  import opened Decimal
  import opened KvRecord
  import opened MockStore

  /**
   * The errors a driver returns. The mock driver only ever reports a missing
   * record; `BackendFailure` stands for the I/O errors of the other drivers.
   */
  datatype DriverError = RecordNotFound | BackendFailure

  /** The byte of an ASCII character: its code point. */
  function AsciiByte(c: char): (b: byte)
    requires c as int < 128
    ensures b as int == c as int
  {
    c as int as byte
  }

  /** `[]byte(s)` for a string of ASCII characters, whose UTF-8 encoding is one byte per character. */
  function AsciiBytes(s: string): (b: Bytes)
    requires forall i :: 0 <= i < |s| ==> s[i] as int < 128
    ensures |b| == |s|
    ensures forall i :: 0 <= i < |s| ==> b[i] as int == s[i] as int
  {
    seq(|s|, i requires 0 <= i < |s| => AsciiByte(s[i]))
  }

  /** How many records `NewMockDriver` starts with. */
  const StartingCount: nat := 10

  /** `fmt.Sprintf("key-%d", i)`. */
  function PopulatedKey(i: int): string {
    "key-" + FormatInt(i)
  }

  /** `[]byte(fmt.Sprintf("value-%d", i))`. */
  function PopulatedBlob(i: int): Bytes {
    AsciiBytes("value-" + FormatInt(i))
  }

  /** The `i`-th record `Populate` creates: `NewKVRecord(key-i, value-i)`. */
  function PopulatedRecord(i: int): (r: Record)
    ensures r.key == PopulatedKey(i)
  {
    FreshRecord(PopulatedKey(i), PopulatedBlob(i))
  }

  lemma PopulatedKeyInjective()
    ensures forall i, j :: PopulatedKey(i) == PopulatedKey(j) ==> i == j
  {
    forall i, j | PopulatedKey(i) == PopulatedKey(j)
      ensures i == j
    {
      assert FormatInt(i) == PopulatedKey(i)[4..];
      assert FormatInt(j) == PopulatedKey(j)[4..];
      FormatIntInjective(i, j);
    }
  }

  /** What `Populate(count)` stores: the records for `0 <= i < count`, each under its own key. */
  function PopulatedRecords(count: int): (m: map<string, Record>)
    ensures forall k :: k in m ==> m[k].key == k
    decreases count
  {
    if count <= 0 then map[]
    else PopulatedRecords(count - 1)[PopulatedKey(count - 1) := PopulatedRecord(count - 1)]
  }

  /** The keys `Populate(n)` stores are `key-i` for `0 <= i < n`. */
  lemma {:induction false} PopulatedKeys(n: int)
    ensures forall k :: k in PopulatedRecords(n) <==> exists i :: 0 <= i < n && PopulatedKey(i) == k
    decreases n
  {
    if n > 0 {
      PopulatedKeys(n - 1);
    }
  }

  /** `Populate(n)` stores exactly `n` records: the keys it generates are pairwise distinct. */
  lemma {:induction false} PopulatedRecordsSize(n: nat)
    ensures |PopulatedRecords(n)| == n
  {
    if n > 0 {
      PopulatedRecordsSize(n - 1);
      PopulatedKeys(n - 1);
      PopulatedKeyInjective();
      assert PopulatedKey(n - 1) !in PopulatedRecords(n - 1);
    }
  }

  /** `NewMockDriver` starts with exactly `StartingCount` records. */
  lemma StartingSize()
    ensures |PopulatedRecords(StartingCount)| == StartingCount
  {
    PopulatedRecordsSize(StartingCount);
  }

  /** The ten starting keys are exactly `key-0` ... `key-9`. */
  lemma StartingKeys(k: string)
    ensures k in PopulatedRecords(StartingCount) <==> |k| == 5 && k[..4] == "key-" && '0' <= k[4] <= '9'
  {
    PopulatedKeys(StartingCount);
    if k in PopulatedRecords(StartingCount) {
      var i :| 0 <= i < StartingCount && PopulatedKey(i) == k;
      assert FormatInt(i) == [DigitChar(i)];
    }
    if |k| == 5 && k[..4] == "key-" && '0' <= k[4] <= '9' {
      var i := k[4] as int - '0' as int;
      assert FormatInt(i) == [DigitChar(i)];
      assert k == PopulatedKey(i);
    }
  }

  /** Updating a union updates its right operand. */
  lemma UnionThenUpdate(a: map<string, Record>, b: map<string, Record>, k: string, v: Record)
    ensures (a + b)[k := v] == a + b[k := v]
  {
  }

  /** What `Read(key)` answers over the stored map. */
  function ReadStore(data: map<string, Record>, key: string): (r: Result<Record, DriverError>)
    ensures r.Ok? <==> key in data
    ensures r.Err? ==> r.error == RecordNotFound
  {
    if key in data then Ok(data[key]) else Err(RecordNotFound)
  }

  /** A write followed by a read of the same key returns the written record; other keys read as before. */
  lemma WriteThenRead(data: map<string, Record>, record: Record, key: string)
    ensures ReadStore(data[record.key := record], record.key) == Ok(record)
    ensures key != record.key ==> ReadStore(data[record.key := record], key) == ReadStore(data, key)
    ensures ReadStore(data - {key}, key) == Err(RecordNotFound)
  {
  }

  /**
   * `MapToRecordList(records)`: the map's values, one per key, in the order
   * the loop visited the keys (given by the ghost `order`).
   */
  method MapToRecordList(m: map<string, Record>) returns (list: seq<Record>, ghost order: seq<string>)
    ensures |list| == |m|
    ensures forall r :: r in list <==> r in m.Values
    ensures |order| == |list| && NoDuplicates(order)
    ensures forall k :: k in order <==> k in m
    ensures forall i :: 0 <= i < |list| ==> order[i] in m && list[i] == m[order[i]]
  {
    list, order := [], [];
    var unvisited := m.Keys;
    while unvisited != {}
      invariant unvisited <= m.Keys
      invariant |order| == |list| && NoDuplicates(order)
      invariant forall k :: k in order <==> k in m && k !in unvisited
      invariant forall i :: 0 <= i < |list| ==> order[i] in m && list[i] == m[order[i]]
      invariant |order| + |unvisited| == |m|
      decreases |unvisited|
    {
      var key :| key in unvisited;
      list, order := list + [m[key]], order + [key];
      unvisited := unvisited - {key};
    }
    forall r | r in m.Values
      ensures r in list
    {
      var k :| k in m && m[k] == r;
      var i :| 0 <= i < |order| && order[i] == k;
      assert list[i] == r;
    }
  }

  class MockDriver {
    const records: MockContainer

    /** Every record is stored under its own key, as `Write` and `Populate` store them. */
    ghost predicate Valid()
      reads this, records
    {
      forall k :: k in records.data ==> records.data[k].key == k
    }

    /** `NewMockDriver()`: a fresh store populated with ten records. */
    constructor ()
      ensures fresh(records) && Valid()
      ensures records.data == PopulatedRecords(StartingCount)
    {
      records := new MockContainer();
      new;
      Populate(StartingCount);
    }

    /** Stores `record` under its key, replacing any record there; never fails. */
    method Write(record: Record) returns (err: Option<DriverError>)
      requires Valid()
      modifies records
      ensures Valid()
      ensures err == None
      ensures records.data == old(records.data)[record.key := record]
    {
      records.Set(record.key, record);
      err := None;
    }

    method Read(key: string) returns (r: Result<Record, DriverError>)
      ensures r == ReadStore(records.data, key)
    {
      var record, ok := records.Get(key);
      if !ok {
        return Err(RecordNotFound);
      }
      r := Ok(record);
    }

    /** Removes the key; never fails, whether or not the key was stored. */
    method Delete(key: string) returns (err: Option<DriverError>)
      requires Valid()
      modifies records
      ensures Valid()
      ensures err == None
      ensures records.data == old(records.data) - {key}
    {
      records.Delete(key);
      err := None;
    }

    /** Every stored record, one per stored key; never fails. */
    method Load() returns (r: Result<seq<Record>, DriverError>)
      requires Valid()
      ensures r.Ok? && |r.value| == |records.data|
      ensures forall x :: x in r.value <==> x in records.data.Values
      ensures KeysOf(r.value) == records.data.Keys
    {
      var all := records.GetAll();
      var list, order := MapToRecordList(all);
      forall k | k in all
        ensures k in KeysOf(list)
      {
        var i :| 0 <= i < |order| && order[i] == k;
        assert list[i].key == k;
      }
      r := Ok(list);
    }

    /** `Populate(count)`: adds the records `key-i` for `0 <= i < count`; nothing for `count <= 0`. */
    method Populate(count: int)
      requires Valid()
      modifies records
      ensures Valid()
      ensures records.data == old(records.data) + PopulatedRecords(count)
    {
      var i := 0;
      while i < count
        invariant 0 <= i <= if count < 0 then 0 else count
        invariant Valid()
        invariant records.data == old(records.data) + PopulatedRecords(i)
      {
        var key := PopulatedKey(i);
        var blob := PopulatedBlob(i);
        records.Set(key, FreshRecord(key, blob));
        assert PopulatedRecords(i + 1) == PopulatedRecords(i)[key := FreshRecord(key, blob)];
        UnionThenUpdate(old(records.data), PopulatedRecords(i), key, FreshRecord(key, blob));
        i := i + 1;
      }
      if count < 0 {
        assert PopulatedRecords(count) == map[] == PopulatedRecords(0);
      }
    }
  }
}
