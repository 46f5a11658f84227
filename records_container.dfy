/**
 * The server's record container (`kvserver.Container`): a map from key to
 * record with upsert, delete, prefix search, metadata search and listing,
 * plus the metadata-query helpers `refineRecords`, `isValidOperator` and
 * `matches`.
 *
 * Go visits a map in an unspecified order; the loops here pick the next key
 * with `:|`, so what they prove holds for every visiting order.
 */
module RecordsContainer {
  import opened Common
  import opened GoStrings
  import opened KvRecord

  class Container {
    var records: map<string, Record>

    /** `NewContainer()`: an empty container. */
    constructor ()
      ensures records == map[]
    {
      records := map[];
    }

    /** The stored record and `true`, or the zero record and `false`. */
    method Get(key: string) returns (record: Record, ok: bool)
      ensures ok <==> key in records
      ensures ok ==> record == records[key]
      ensures !ok ==> record == ZeroRecord
    {
      ok := key in records;
      record := if ok then records[key] else ZeroRecord;
    }

    /** Unconditional upsert; every other key keeps its record. */
    method Set(key: string, record: Record)
      modifies this
      ensures records == old(records)[key := record]
      ensures forall k :: k != key ==> (k in records <==> k in old(records))
      ensures forall k :: k != key && k in records ==> records[k] == old(records)[k]
    {
      records := records[key := record];
    }

    /** Removes the key if present; deleting an absent key changes nothing. */
    method Delete(key: string)
      modifies this
      ensures records == old(records) - {key}
      ensures key !in old(records) ==> records == old(records)
    {
      records := records - {key};
    }

    /**
     * `Find(partialKey)`: every stored key that starts with `partialKey`, each
     * once. A key shorter than the prefix does not match (the source slices
     * past its end instead; see `FindAsWrittenSlicesInRange`).
     */
    method Find(partialKey: string) returns (keys: seq<string>)
      ensures NoDuplicates(keys)
      ensures forall k :: k in keys <==> k in records && HasPrefix(k, partialKey)
    {
      keys := [];
      var unvisited := records.Keys;
      while unvisited != {}
        invariant unvisited <= records.Keys
        invariant NoDuplicates(keys)
        invariant forall k :: k in keys <==> k in records && k !in unvisited && HasPrefix(k, partialKey)
        decreases |unvisited|
      {
        var key :| key in unvisited;
        if HasPrefix(key, partialKey) {
          keys := keys + [key];
        }
        unvisited := unvisited - {key};
      }
    }

    /** `FindByMetadata(query)` as the source has it: the keys whose record has a metadata entry named `query`. */
    method FindByMetadata(query: string) returns (keys: seq<string>)
      ensures NoDuplicates(keys)
      ensures forall k :: k in keys <==> k in records && query in records[k].metadata
    {
      keys := [];
      var unvisited := records.Keys;
      while unvisited != {}
        invariant unvisited <= records.Keys
        invariant NoDuplicates(keys)
        invariant forall k :: k in keys <==> k in records && k !in unvisited && query in records[k].metadata
        decreases |unvisited|
      {
        var key :| key in unvisited;
        if query in records[key].metadata {
          keys := keys + [key];
        }
        unvisited := unvisited - {key};
      }
    }

    /** One metadata entry of one record: `("", false)` when the record or the entry is missing. */
    method GetMetadata(key: string, metadataKey: string) returns (value: string, ok: bool)
      ensures ok <==> key in records && metadataKey in records[key].metadata
      ensures ok ==> value == records[key].metadata[metadataKey]
      ensures !ok ==> value == ""
    {
      if key !in records {
        return "", false;
      }
      var md := records[key].metadata;
      ok := metadataKey in md;
      value := if ok then md[metadataKey] else "";
    }

    /**
     * Sets one metadata entry of a stored record; the record's key, values
     * and other entries and every other record stay as they were.
     */
    method SetMetadata(key: string, metadataKey: string, metadataValue: string)
      requires key in records
      modifies this
      ensures records == old(records)[key := old(records)[key].(metadata := old(records)[key].metadata[metadataKey := metadataValue])]
    {
      var record := records[key];
      record := record.(metadata := record.metadata[metadataKey := metadataValue]);
      records := records[key := record];
    }

    /** Deletes one metadata entry of a stored record; an absent entry is not an error. */
    method DeleteMetadata(key: string, metadataKey: string)
      requires key in records
      modifies this
      ensures records == old(records)[key := old(records)[key].(metadata := old(records)[key].metadata - {metadataKey})]
    {
      var record := records[key];
      record := record.(metadata := record.metadata - {metadataKey});
      records := records[key := record];
    }

    method GetAllMetadata(key: string) returns (all: map<string, string>)
      requires key in records
      ensures all == records[key].metadata
    {
      all := records[key].metadata;
    }

    /** Every stored key, each exactly once. */
    method List() returns (keys: seq<string>)
      ensures NoDuplicates(keys)
      ensures forall k :: k in keys <==> k in records
      ensures |keys| == |records|
    {
      keys := [];
      var unvisited := records.Keys;
      while unvisited != {}
        invariant unvisited <= records.Keys
        invariant NoDuplicates(keys)
        invariant forall k :: k in keys <==> k in records && k !in unvisited
        invariant |keys| + |unvisited| == |records|
        decreases |unvisited|
      {
        var key :| key in unvisited;
        keys := keys + [key];
        unvisited := unvisited - {key};
      }
    }
  }

  /** The prefix test `partialKey == key[:len(partialKey)]` as written: the slice needs `len(partialKey) <= len(key)`. */
  function PrefixTestAsWritten(key: string, partialKey: string): bool
    requires |partialKey| <= |key|
  {
    partialKey == key[..|partialKey|]
  }

  /** `Find` as written runs to the end only when no stored key is shorter than the prefix; otherwise Go panics. */
  predicate FindAsWrittenSlicesInRange(keys: set<string>, partialKey: string) {
    forall k :: k in keys ==> |partialKey| <= |k|
  }

  /**
   * With keys "apple", "app" and "banana", `Find("appzz")` as written slices
   * "app" past its end; the corrected prefix test agrees with the written one
   * wherever the slice is in range.
   */
  lemma FindAsWrittenPanicsOnShortKey(key: string, partialKey: string)
    ensures !FindAsWrittenSlicesInRange({"apple", "app", "banana"}, "appzz")
    ensures |partialKey| <= |key| ==> (PrefixTestAsWritten(key, partialKey) <==> HasPrefix(key, partialKey))
    ensures |partialKey| > |key| ==> !HasPrefix(key, partialKey)
  {
    assert |"app"| < |"appzz"|;
  }

  /** `isValidOperator`: the operators under which some comparison can match. */
  predicate IsValidOperator(op: string)
    ensures IsValidOperator(op) <==> exists value: string, target: string :: Matches(value, op, target)
  {
    assert Matches("", "==", "") && Matches("", ">=", "") && Matches("", "<=", "") && Matches("", "contains", "");
    assert Matches("b", ">", "a") && Matches("a", "<", "b") && Matches("a", "!=", "b");
    op == ">" || op == ">=" || op == "<" || op == "<=" || op == "==" || op == "!=" || op == "contains"
  }

  /**
   * `matches(value, op, target)`: Go string comparison, or `strings.Contains`
   * for "contains"; each ordering operator is the lexicographic order on
   * bytes and an unknown operator never matches.
   */
  function Matches(value: string, op: string, target: string): (m: bool)
    ensures op == "==" ==> (m <==> value == target)
    ensures op == "!=" ==> (m <==> value != target)
    ensures op == "<" ==> (m <==> LexLess(value, target))
    ensures op == ">" ==> (m <==> LexLess(target, value))
    ensures op == "<=" ==> (m <==> !LexLess(target, value))
    ensures op == ">=" ==> (m <==> !LexLess(value, target))
    ensures op == "contains" ==> (m <==> exists i: nat :: OccursAt(value, target, i))
  {
    CompareAntisymmetric(value, target);
    CompareIsLexicographic(value, target);
    CompareIsLexicographic(target, value);
    ContainsIffOccurs(value, target);
    if op == ">" then Compare(value, target) > 0
    else if op == ">=" then Compare(value, target) >= 0
    else if op == "<" then Compare(value, target) < 0
    else if op == "<=" then Compare(value, target) <= 0
    else if op == "==" then value == target
    else if op == "!=" then value != target
    else if op == "contains" then Contains(value, target)
    else false
  }

  /**
   * How the operators relate: `==`/`!=`, `>`/`<=` and `<`/`>=` are
   * negations of each other, and `>=` is `>` or `==`, `<=` is `<` or `==`.
   */
  lemma MatchesRelations(value: string, target: string)
    ensures Matches(value, "==", target) == !Matches(value, "!=", target)
    ensures Matches(value, ">", target) == !Matches(value, "<=", target)
    ensures Matches(value, "<", target) == !Matches(value, ">=", target)
    ensures Matches(value, ">=", target) <==> Matches(value, ">", target) || Matches(value, "==", target)
    ensures Matches(value, "<=", target) <==> Matches(value, "<", target) || Matches(value, "==", target)
  {
    CompareZeroIffEqual(value, target);
    CompareAntisymmetric(value, target);
  }

  datatype QueryError = MalformedClause(parts: seq<string>) | InvalidOperator(op: string)

  /**
   * `refineRecords(records, entryParts)` for one `field:operator:value`
   * clause. Go deletes from the caller's map while it iterates, so the method
   * also returns `remaining`, the caller's map afterwards.
   */
  method RefineRecords(records: map<string, Record>, entryParts: seq<string>)
    returns (refined: Result<map<string, Record>, QueryError>, remaining: map<string, Record>)
    ensures |entryParts| != 3 ==> refined == Err(MalformedClause(entryParts)) && remaining == records
    ensures |entryParts| == 3 ==>
      (refined.Err? <==> !IsValidOperator(entryParts[1]) && exists k :: k in records && entryParts[0] in records[k].metadata)
    ensures |entryParts| == 3 && refined.Err? ==> refined.error == InvalidOperator(entryParts[1])
    ensures refined.Ok? ==> refined.value == remaining
    ensures refined.Ok? ==> forall k :: k in remaining <==>
      k in records && entryParts[0] in records[k].metadata && Matches(records[k].metadata[entryParts[0]], entryParts[1], entryParts[2])
    ensures forall k :: k in remaining ==> k in records && remaining[k] == records[k]
    ensures refined.Err? && |entryParts| == 3 ==> forall k :: k in records && k !in remaining ==> entryParts[0] !in records[k].metadata
  {
    if |entryParts| != 3 {
      return Err(MalformedClause(entryParts)), records;
    }
    var field, op, target := entryParts[0], entryParts[1], entryParts[2];
    remaining := records;
    var unvisited := records.Keys;
    while unvisited != {}
      invariant unvisited <= records.Keys
      invariant forall k :: k in remaining ==> k in records && remaining[k] == records[k]
      invariant forall k :: k in unvisited ==> k in remaining
      invariant forall k :: k in records && k !in unvisited ==>
        (k in remaining <==> field in records[k].metadata && Matches(records[k].metadata[field], op, target))
      invariant forall k :: k in records && k !in unvisited && field in records[k].metadata ==> IsValidOperator(op)
      decreases |unvisited|
    {
      var recordKey :| recordKey in unvisited;
      var record := records[recordKey];
      unvisited := unvisited - {recordKey};
      if field !in record.metadata {
        remaining := remaining - {recordKey};
        continue;
      }
      if !IsValidOperator(op) {
        return Err(InvalidOperator(op)), remaining;
      }
      if !Matches(record.metadata[field], op, target) {
        remaining := remaining - {recordKey};
      }
    }
    refined := Ok(remaining);
  }
}
