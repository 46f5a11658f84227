/**
 * The in-memory record store behind the mock persistence driver
 * (`persistence.MockContainer`): a map from key to record. Go's `Set` takes a
 * pointer and stores a copy of the record it points to; records are values
 * here, so storing one is storing a copy.
 */
module MockStore {
  import opened KvRecord

  /** The keys of a list of records, as a set. */
  function KeysOf(rows: seq<Record>): (keys: set<string>)
    ensures forall i :: 0 <= i < |rows| ==> rows[i].key in keys
  {
    set r | r in rows :: r.key
  }

  class MockContainer {
    var data: map<string, Record>

    /** `NewMockContainer()`: an empty store. */
    constructor ()
      ensures data == map[]
    {
      data := map[];
    }

    /** The stored record and `true`, or the zero record and `false`. */
    method Get(key: string) returns (record: Record, ok: bool)
      ensures ok <==> key in data
      ensures ok ==> record == data[key]
      ensures !ok ==> record == ZeroRecord
    {
      ok := key in data;
      record := if ok then data[key] else ZeroRecord;
    }

    /** Stores (a copy of) `record` under `key`; every other entry stays as it was. */
    method Set(key: string, record: Record)
      modifies this
      ensures data == old(data)[key := record]
      ensures forall k :: k != key ==> (k in data <==> k in old(data))
      ensures forall k :: k != key && k in data ==> data[k] == old(data)[k]
    {
      data := data[key := record];
    }

    /** Removes the key if present; deleting an absent key changes nothing. */
    method Delete(key: string)
      modifies this
      ensures data == old(data) - {key}
      ensures key !in old(data) ==> data == old(data)
    {
      data := data - {key};
    }

    method GetAll() returns (all: map<string, Record>)
      ensures all == data
    {
      all := data;
    }
  }
}
