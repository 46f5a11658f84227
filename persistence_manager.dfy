/**
 * The persistence manager (`persistence.PersistenceManager`): picks a driver
 * from the configuration, delegates single-record operations to it, saves a
 * list of records, and synchronises the backend with the in-memory records.
 *
 * A driver is modelled by what it does to a trace of calls. The mock driver
 * is the verified `MockDriver`; the flat-file and no-persistence drivers
 * accept everything and store nothing; the SQLite driver's I/O is not
 * modelled: which of its calls fail is a parameter (`failing`, by position in
 * the call sequence) and so are the rows its queries find (`database`). No
 * driver's `Load` ever fails, and only the mock's returns any record.
 */
module Persistence {
  import opened Common
  import opened KvRecord
  import opened MockStore
  import opened MockBackend

  datatype DriverKind = FlatFile | Sqlite | Mock | NoPersistence

  /** The `switch config["driver"]` of `NewPersistenceManager`; an absent entry is Go's nil, which matches no case. */
  function SelectDriver(config: map<string, string>): (kind: DriverKind)
    ensures kind == Sqlite <==> "driver" in config && config["driver"] == "sqlite"
    ensures kind == Mock <==> "driver" in config && config["driver"] == "mock"
    ensures kind == NoPersistence <==> "driver" in config && config["driver"] == "none"
    ensures kind == FlatFile <==> "driver" !in config || config["driver"] !in {"sqlite", "mock", "none"}
  {
    if "driver" !in config then FlatFile
    else if config["driver"] == "flat_file" then FlatFile
    else if config["driver"] == "sqlite" then Sqlite
    else if config["driver"] == "mock" then Mock
    else if config["driver"] == "none" then NoPersistence
    else FlatFile
  }

  /** A driver call; a load records the rows it returned (none when it failed). */
  datatype Op = LoadOp(rows: seq<Record>) | ReadOp(key: string) | WriteOp(record: Record) | DeleteOp(key: string)

  /** A call and whether it returned without error. */
  datatype Call = Call(op: Op, ok: bool)

  /** What a call does to a map-backed store. */
  function ApplyOp(store: map<string, Record>, op: Op): map<string, Record> {
    match op
    case WriteOp(r) => store[r.key := r]
    case DeleteOp(k) => store - {k}
    case _ => store
  }

  /** What a sequence of calls does to a map-backed store, in order. */
  function ApplyAll(store: map<string, Record>, ops: seq<Op>): map<string, Record>
    decreases |ops|
  {
    if ops == [] then store else ApplyOp(ApplyAll(store, ops[..|ops| - 1]), ops[|ops| - 1])
  }

  function Deletes(keys: seq<string>): (ops: seq<Op>)
    ensures |ops| == |keys|
    ensures forall i :: 0 <= i < |keys| ==> ops[i] == DeleteOp(keys[i])
  {
    seq(|keys|, i requires 0 <= i < |keys| => DeleteOp(keys[i]))
  }

  function Writes(records: seq<Record>): (ops: seq<Op>)
    ensures |ops| == |records|
    ensures forall i :: 0 <= i < |records| ==> ops[i] == WriteOp(records[i])
  {
    seq(|records|, i requires 0 <= i < |records| => WriteOp(records[i]))
  }

  /** Some record of `records` has key `key` (the inner loop of `Sync`'s step 2). */
  predicate HasKey(records: seq<Record>, key: string) {
    exists j :: 0 <= j < |records| && records[j].key == key
  }

  /** No later record of `records` has the key of `records[i]`: it is the one a series of writes leaves stored. */
  predicate LastOfKey(records: seq<Record>, i: int)
    requires 0 <= i < |records|
  {
    forall j :: i < j < |records| ==> records[j].key != records[i].key
  }

  /**
   * `Sync`'s delta: the keys of the disk records, in disk order, that no
   * memory record has. At most one per disk record, and none exactly when
   * memory has every disk record's key.
   */
  function Delta(disk: seq<Record>, mem: seq<Record>): (d: seq<string>)
    ensures |d| <= |disk|
    ensures d == [] <==> forall i :: 0 <= i < |disk| ==> HasKey(mem, disk[i].key)
    decreases |disk|
  {
    if disk == [] then []
    else
      var last := disk[|disk| - 1];
      Delta(disk[..|disk| - 1], mem) + (if HasKey(mem, last.key) then [] else [last.key])
  }

  /** The calls `Sync` issues after a successful load: delete the delta, then write every memory record. */
  function SyncPlan(disk: seq<Record>, mem: seq<Record>): seq<Op> {
    Deletes(Delta(disk, mem)) + Writes(mem)
  }

  /**
   * `calls` is the plan carried out in order until the first failing call:
   * every call but the last succeeded, and the run succeeded exactly when it
   * carried out the whole plan without a failure.
   */
  predicate RunsUntilFirstFailure(calls: seq<Call>, plan: seq<Op>, ok: bool) {
    |calls| <= |plan|
    && (forall j :: 0 <= j < |calls| ==> calls[j].op == plan[j])
    && (forall j :: 0 <= j < |calls| - 1 ==> calls[j].ok)
    && (ok ==> |calls| == |plan| && forall j :: 0 <= j < |calls| ==> calls[j].ok)
    && (!ok ==> |calls| > 0 && !calls[|calls| - 1].ok)
  }

  /** The calls of one `Sync(mem)`: a load, then (if it succeeded) the plan for what it loaded, until the first failure. */
  predicate SyncRun(calls: seq<Call>, mem: seq<Record>, ok: bool) {
    |calls| >= 1 && calls[0].op.LoadOp?
    && (!calls[0].ok ==> |calls| == 1 && !ok)
    && (calls[0].ok ==> RunsUntilFirstFailure(calls[1..], SyncPlan(calls[0].op.rows, mem), ok))
  }

  /** The calls from position `start` of `trace` are the first `n` steps of `plan`, all successful. */
  predicate Ran(trace: seq<Call>, start: nat, plan: seq<Op>, n: nat) {
    start + n == |trace| && n <= |plan|
    && forall j :: 0 <= j < n ==> trace[start + j] == Call(plan[j], true)
  }

  /** One more call of the plan either extends the successful run or ends it with a failure. */
  lemma RanStep(trace: seq<Call>, start: nat, plan: seq<Op>, n: nat, c: Call)
    requires Ran(trace, start, plan, n) && n < |plan| && c.op == plan[n]
    ensures c.ok ==> Ran(trace + [c], start, plan, n + 1)
    ensures !c.ok ==> RunsUntilFirstFailure((trace + [c])[start..], plan, false)
  {
    var calls := (trace + [c])[start..];
    assert forall j :: 0 <= j < n ==> calls[j] == trace[start + j];
  }

  lemma RanAll(trace: seq<Call>, start: nat, plan: seq<Op>)
    requires Ran(trace, start, plan, |plan|)
    ensures RunsUntilFirstFailure(trace[start..], plan, true)
  {
    assert forall j :: 0 <= j < |plan| ==> trace[start..][j] == trace[start + j];
  }

  /** A fully successful run of one plan followed by a run of another is a run of both plans in turn. */
  lemma RunsConcat(a: seq<Call>, b: seq<Call>, p: seq<Op>, q: seq<Op>, ok: bool)
    requires RunsUntilFirstFailure(a, p, true) && RunsUntilFirstFailure(b, q, ok)
    ensures RunsUntilFirstFailure(a + b, p + q, ok)
  {
    assert forall j :: |a| <= j < |a + b| ==> (a + b)[j] == b[j - |a|] && (p + q)[j] == q[j - |a|];
  }

  /** A run that failed within one plan is a failed run of that plan followed by anything. */
  lemma RunsFailedPrefix(a: seq<Call>, p: seq<Op>, q: seq<Op>)
    requires RunsUntilFirstFailure(a, p, false)
    ensures RunsUntilFirstFailure(a, p + q, false)
  {
  }

  /**
   * The trace of `Sync` from position `at`: a successful load of `disk`, the
   * run of its deletes up to `mid`, and (if they all succeeded) the run of
   * its writes.
   */
  lemma SyncRunOfSteps(trace: seq<Call>, at: nat, mid: nat, disk: seq<Record>, mem: seq<Record>, deletesOk: bool, ok: bool)
    requires at < mid <= |trace| && trace[at] == Call(LoadOp(disk), true)
    requires RunsUntilFirstFailure(trace[at + 1..mid], Deletes(Delta(disk, mem)), deletesOk)
    requires deletesOk ==> RunsUntilFirstFailure(trace[mid..], Writes(mem), ok)
    requires !deletesOk ==> mid == |trace| && !ok
    ensures SyncRun(trace[at..], mem, ok)
  {
    assert trace[at..][1..] == trace[at + 1..] == trace[at + 1..mid] + trace[mid..];
    if deletesOk {
      RunsConcat(trace[at + 1..mid], trace[mid..], Deletes(Delta(disk, mem)), Writes(mem), ok);
    } else {
      assert trace[mid..] == [];
      RunsFailedPrefix(trace[at + 1..mid], Deletes(Delta(disk, mem)), Writes(mem));
    }
  }

  /** The delta is exactly the disk keys that equal no memory record's key. */
  lemma {:induction false} DeltaIsStaleKeys(disk: seq<Record>, mem: seq<Record>)
    ensures forall k :: k in Delta(disk, mem) <==> k in KeysOf(disk) && !HasKey(mem, k)
    decreases |disk|
  {
    if disk != [] {
      var init := disk[..|disk| - 1];
      DeltaIsStaleKeys(init, mem);
      assert disk == init + [disk[|disk| - 1]];
      assert KeysOf(disk) == KeysOf(init) + {disk[|disk| - 1].key};
    }
  }

  /** The plan deletes only stale disk keys, all before any write, then writes every memory record in order. */
  lemma SyncPlanShape(disk: seq<Record>, mem: seq<Record>)
    ensures |SyncPlan(disk, mem)| == |Delta(disk, mem)| + |mem|
    ensures forall i :: 0 <= i < |Delta(disk, mem)| ==>
      SyncPlan(disk, mem)[i] == DeleteOp(Delta(disk, mem)[i]) &&
      Delta(disk, mem)[i] in KeysOf(disk) && !HasKey(mem, Delta(disk, mem)[i])
    ensures forall i :: 0 <= i < |mem| ==> SyncPlan(disk, mem)[|Delta(disk, mem)| + i] == WriteOp(mem[i])
  {
    DeltaIsStaleKeys(disk, mem);
  }

  /** After a successful load, call `j` of a sync run is step `j - 1` of the plan for the loaded rows. */
  lemma SyncRunFollowsPlan(calls: seq<Call>, mem: seq<Record>, ok: bool)
    requires SyncRun(calls, mem, ok) && calls[0].ok
    ensures forall j :: 1 <= j < |calls| ==> j - 1 < |SyncPlan(calls[0].op.rows, mem)| && calls[j].op == SyncPlan(calls[0].op.rows, mem)[j - 1]
  {
    var plan := SyncPlan(calls[0].op.rows, mem);
    forall j | 1 <= j < |calls|
      ensures j - 1 < |plan| && calls[j].op == plan[j - 1]
    {
      assert calls[1..][j - 1] == calls[j];
    }
  }

  /** `Sync` never deletes a key some memory record has, nor a key it did not load. */
  lemma SyncDeletesOnlyStaleKeys(calls: seq<Call>, mem: seq<Record>, ok: bool)
    requires SyncRun(calls, mem, ok)
    ensures forall j :: 1 <= j < |calls| && calls[j].op.DeleteOp? ==>
      !HasKey(mem, calls[j].op.key) && calls[j].op.key in KeysOf(calls[0].op.rows)
  {
    if calls[0].ok {
      SyncRunFollowsPlan(calls, mem, ok);
      SyncPlanShape(calls[0].op.rows, mem);
    }
  }

  /** All deletes come before all writes, so a failing delete means no write was issued. */
  lemma SyncDeletesBeforeWrites(calls: seq<Call>, mem: seq<Record>, ok: bool)
    requires SyncRun(calls, mem, ok)
    ensures forall i, j :: 1 <= i < j < |calls| && calls[i].op.WriteOp? ==> calls[j].op.WriteOp?
    ensures !ok && calls[|calls| - 1].op.DeleteOp? ==> forall j :: 0 <= j < |calls| ==> !calls[j].op.WriteOp?
  {
    if calls[0].ok {
      var disk := calls[0].op.rows;
      SyncRunFollowsPlan(calls, mem, ok);
      SyncPlanShape(disk, mem);
      var d := |Delta(disk, mem)|;
      forall i, j | 1 <= i < j < |calls| && calls[i].op.WriteOp?
        ensures calls[j].op.WriteOp?
      {
        assert i - 1 >= d;
      }
    }
  }

  /** A successful `Sync` loaded, deleted the whole delta, and then wrote every memory record, in order. */
  lemma SyncWritesEverything(calls: seq<Call>, mem: seq<Record>)
    requires SyncRun(calls, mem, true)
    ensures calls[0].ok && |calls| == 1 + |Delta(calls[0].op.rows, mem)| + |mem|
    ensures forall j :: 1 <= j <= |Delta(calls[0].op.rows, mem)| ==> calls[j] == Call(DeleteOp(Delta(calls[0].op.rows, mem)[j - 1]), true)
    ensures forall i :: 0 <= i < |mem| ==> calls[|calls| - |mem| + i] == Call(WriteOp(mem[i]), true)
  {
    var disk := calls[0].op.rows;
    SyncRunFollowsPlan(calls, mem, true);
    SyncPlanShape(disk, mem);
    forall j | 1 <= j < |calls|
      ensures calls[j].ok
    {
      assert calls[1..][j - 1] == calls[j];
    }
  }

  /** Applying two runs of calls one after the other is applying their concatenation. */
  lemma {:induction false} ApplyAllAppend(store: map<string, Record>, a: seq<Op>, b: seq<Op>)
    ensures ApplyAll(store, a + b) == ApplyAll(ApplyAll(store, a), b)
    decreases |b|
  {
    if b == [] {
      assert a + b == a;
    } else {
      assert (a + b)[..|a + b| - 1] == a + b[..|b| - 1];
      ApplyAllAppend(store, a, b[..|b| - 1]);
    }
  }

  /** Deleting a list of keys removes exactly those keys. */
  lemma {:induction false} ApplyDeletes(store: map<string, Record>, keys: seq<string>)
    ensures ApplyAll(store, Deletes(keys)) == store - Elements(keys)
    decreases |keys|
  {
    if keys != [] {
      var init := keys[..|keys| - 1];
      assert Deletes(keys)[..|keys| - 1] == Deletes(init);
      ApplyDeletes(store, init);
      assert keys == init + [keys[|keys| - 1]];
      assert Elements(keys) == Elements(init) + {keys[|keys| - 1]};
    } else {
      assert Elements(keys) == {};
    }
  }

  /** Writing one more record updates that record's key. */
  lemma ApplyWritesSnoc(store: map<string, Record>, mem: seq<Record>)
    requires mem != []
    ensures ApplyAll(store, Writes(mem)) == ApplyAll(store, Writes(mem[..|mem| - 1]))[mem[|mem| - 1].key := mem[|mem| - 1]]
    ensures KeysOf(mem) == KeysOf(mem[..|mem| - 1]) + {mem[|mem| - 1].key}
  {
    assert Writes(mem)[..|mem| - 1] == Writes(mem[..|mem| - 1]);
    assert mem == mem[..|mem| - 1] + [mem[|mem| - 1]];
  }

  /** Writing a list of records adds exactly their keys. */
  lemma {:induction false} ApplyWritesKeys(store: map<string, Record>, mem: seq<Record>)
    ensures ApplyAll(store, Writes(mem)).Keys == store.Keys + KeysOf(mem)
    decreases |mem|
  {
    if mem == [] {
      assert KeysOf(mem) == {};
    } else {
      ApplyWritesKeys(store, mem[..|mem| - 1]);
      ApplyWritesSnoc(store, mem);
    }
  }

  /** Each key holds the last record written with it; keys nobody wrote keep their entry. */
  lemma {:induction false} ApplyWritesValues(store: map<string, Record>, mem: seq<Record>)
    ensures forall i :: 0 <= i < |mem| && LastOfKey(mem, i) ==> mem[i].key in ApplyAll(store, Writes(mem)) && ApplyAll(store, Writes(mem))[mem[i].key] == mem[i]
    ensures forall k :: k in store && k !in KeysOf(mem) ==> k in ApplyAll(store, Writes(mem)) && ApplyAll(store, Writes(mem))[k] == store[k]
    decreases |mem|
  {
    if mem != [] {
      var init := mem[..|mem| - 1];
      ApplyWritesValues(store, init);
      ApplyWritesSnoc(store, mem);
      forall i | 0 <= i < |mem| - 1 && LastOfKey(mem, i)
        ensures LastOfKey(init, i) && mem[i].key != mem[|mem| - 1].key
      {
      }
    }
  }

  /**
   * Convergence: over a map-backed store whose keys are the loaded keys,
   * carrying out the whole plan leaves exactly the memory keys, each holding
   * the last memory record with that key.
   */
  lemma SyncConverges(store: map<string, Record>, disk: seq<Record>, mem: seq<Record>)
    requires KeysOf(disk) == store.Keys
    ensures ApplyAll(store, SyncPlan(disk, mem)).Keys == KeysOf(mem)
    ensures forall i :: 0 <= i < |mem| && LastOfKey(mem, i) ==> ApplyAll(store, SyncPlan(disk, mem))[mem[i].key] == mem[i]
  {
    var delta := Delta(disk, mem);
    var pruned := store - Elements(delta);
    ApplyAllAppend(store, Deletes(delta), Writes(mem));
    ApplyDeletes(store, delta);
    assert ApplyAll(store, SyncPlan(disk, mem)) == ApplyAll(pruned, Writes(mem));
    DeltaIsStaleKeys(disk, mem);
    forall k | k in pruned
      ensures k in KeysOf(mem)
    {
      assert k !in delta;
      var j :| 0 <= j < |mem| && mem[j].key == k;
    }
    ApplyWritesKeys(pruned, mem);
    ApplyWritesValues(pruned, mem);
  }

  class Driver {
    const kind: DriverKind
    const mock: MockDriver?
    /** Positions, in the call sequence, of the SQLite calls whose I/O fails. */
    const failing: set<nat>
    /** The records the SQLite driver's queries find, by key (`key TEXT UNIQUE`). */
    const database: map<string, Record>
    var calls: nat
    ghost var trace: seq<Call>
    ghost var Repr: set<object>

    ghost predicate Valid()
      reads this, Repr
    {
      this in Repr && calls == |trace|
      && (kind == Mock <==> mock != null)
      && (mock != null ==> Repr == {this, mock, mock.records} && mock.Valid())
      && (mock == null ==> Repr == {this})
    }

    /** Whether the call at position `pos` succeeds: only the SQLite driver can fail. */
    predicate Succeeds(pos: nat) {
      kind != Sqlite || pos !in failing
    }

    constructor (kind: DriverKind, failing: set<nat>, database: map<string, Record>)
      ensures Valid()
      ensures mock != null ==> fresh(mock) && fresh(mock.records)
      ensures this.kind == kind && this.failing == failing && this.database == database
      ensures trace == []
      ensures kind == Mock ==> mock.records.data == PopulatedRecords(StartingCount)
    {
      this.kind := kind;
      this.failing := failing;
      this.database := database;
      var m: MockDriver? := null;
      if kind == Mock {
        m := new MockDriver();
      }
      mock := m;
      calls := 0;
      trace := [];
      new;
      if m != null {
        Repr := {this, m, m.records};
      } else {
        Repr := {this};
      }
    }

    method Write(record: Record) returns (err: Option<DriverError>)
      requires Valid()
      modifies Repr
      ensures Valid() && Repr == old(Repr)
      ensures err.None? == Succeeds(old(calls))
      ensures trace == old(trace) + [Call(WriteOp(record), err.None?)]
      ensures kind == Mock ==> mock.records.data == ApplyOp(old(mock.records.data), WriteOp(record))
    {
      if kind == Mock {
        err := mock.Write(record);
      } else if Succeeds(calls) {
        err := None;
      } else {
        err := Some(BackendFailure);
      }
      trace := trace + [Call(WriteOp(record), err.None?)];
      calls := calls + 1;
    }

    method Delete(key: string) returns (err: Option<DriverError>)
      requires Valid()
      modifies Repr
      ensures Valid() && Repr == old(Repr)
      ensures err.None? == Succeeds(old(calls))
      ensures trace == old(trace) + [Call(DeleteOp(key), err.None?)]
      ensures kind == Mock ==> mock.records.data == ApplyOp(old(mock.records.data), DeleteOp(key))
    {
      if kind == Mock {
        err := mock.Delete(key);
      } else if Succeeds(calls) {
        err := None;
      } else {
        err := Some(BackendFailure);
      }
      trace := trace + [Call(DeleteOp(key), err.None?)];
      calls := calls + 1;
    }

    /**
     * The flat-file and no-persistence drivers answer the zero record. The
     * SQLite driver answers the zero record, without an error, for a key its
     * query does not find; for a key it finds, it answers the stored record
     * or fails as the backend does.
     */
    method Read(key: string) returns (r: Result<Record, DriverError>)
      requires Valid()
      modifies this
      ensures Valid() && Repr == old(Repr)
      ensures trace == old(trace) + [Call(ReadOp(key), r.Ok?)]
      ensures kind == Mock ==> r == ReadStore(mock.records.data, key)
      ensures kind == FlatFile || kind == NoPersistence ==> r == Ok(ZeroRecord)
      ensures kind == Sqlite && key !in database ==> r == Ok(ZeroRecord)
      ensures kind == Sqlite && key in database ==> (r.Ok? <==> Succeeds(old(calls)))
      ensures kind == Sqlite && key in database && r.Ok? ==> r.value == database[key]
      ensures r.Err? ==> (kind == Mock && r.error == RecordNotFound) || (kind == Sqlite && r.error == BackendFailure)
    {
      if kind == Mock {
        r := mock.Read(key);
      } else if kind != Sqlite || key !in database {
        r := Ok(ZeroRecord);
      } else if Succeeds(calls) {
        r := Ok(database[key]);
      } else {
        r := Err(BackendFailure);
      }
      trace := trace + [Call(ReadOp(key), r.Ok?)];
      calls := calls + 1;
    }

    /** Never fails: the mock returns one record per stored key, every other driver an empty list. */
    method Load() returns (r: Result<seq<Record>, DriverError>)
      requires Valid()
      modifies this
      ensures Valid() && Repr == old(Repr)
      ensures r.Ok?
      ensures trace == old(trace) + [Call(LoadOp(r.value), true)]
      ensures kind == Mock ==> KeysOf(r.value) == mock.records.data.Keys
      ensures kind != Mock ==> r.value == []
    {
      if kind == Mock {
        r := mock.Load();
      } else {
        r := Ok([]);
      }
      trace := trace + [Call(LoadOp(r.value), true)];
      calls := calls + 1;
    }
  }

  class PersistenceManager {
    const driver: Driver

    /** `NewPersistenceManager(config)`: the driver the configuration selects, with no calls made yet. */
    constructor (config: map<string, string>, failing: set<nat>, database: map<string, Record>)
      ensures driver.kind == SelectDriver(config)
      ensures driver.Valid() && fresh(driver) && driver.trace == []
      ensures driver.kind == Mock ==> driver.mock.records.data == PopulatedRecords(StartingCount)
    {
      driver := new Driver(SelectDriver(config), failing, database);
    }

    method Write(record: Record) returns (err: Option<DriverError>)
      requires driver.Valid()
      modifies driver.Repr
      ensures driver.Valid() && driver.Repr == old(driver.Repr)
      ensures driver.trace == old(driver.trace) + [Call(WriteOp(record), err.None?)]
      ensures driver.kind == Mock ==> err.None? && driver.mock.records.data == old(driver.mock.records.data)[record.key := record]
    {
      err := driver.Write(record);
    }

    method Read(key: string) returns (r: Result<Record, DriverError>)
      requires driver.Valid()
      modifies driver
      ensures driver.Valid() && driver.Repr == old(driver.Repr)
      ensures driver.trace == old(driver.trace) + [Call(ReadOp(key), r.Ok?)]
      ensures driver.kind == Mock ==> r == ReadStore(driver.mock.records.data, key)
    {
      r := driver.Read(key);
    }

    method Delete(key: string) returns (err: Option<DriverError>)
      requires driver.Valid()
      modifies driver.Repr
      ensures driver.Valid() && driver.Repr == old(driver.Repr)
      ensures driver.trace == old(driver.trace) + [Call(DeleteOp(key), err.None?)]
      ensures driver.kind == Mock ==> err.None? && driver.mock.records.data == old(driver.mock.records.data) - {key}
    {
      err := driver.Delete(key);
    }

    method Load() returns (r: Result<seq<Record>, DriverError>)
      requires driver.Valid()
      modifies driver
      ensures driver.Valid() && driver.Repr == old(driver.Repr)
      ensures r.Ok? && driver.trace == old(driver.trace) + [Call(LoadOp(r.value), true)]
      ensures driver.kind == Mock ==> KeysOf(r.value) == driver.mock.records.data.Keys
      ensures driver.kind != Mock ==> r.value == []
    {
      r := driver.Load();
    }

    /** `Save(records)`: writes the records in order, stopping at the first error. */
    method Save(records: seq<Record>) returns (err: Option<DriverError>)
      requires driver.Valid()
      modifies driver.Repr
      ensures driver.Valid() && driver.Repr == old(driver.Repr)
      ensures |old(driver.trace)| <= |driver.trace| && driver.trace[..|old(driver.trace)|] == old(driver.trace)
      ensures RunsUntilFirstFailure(driver.trace[|old(driver.trace)|..], Writes(records), err.None?)
      ensures err.Some? ==> driver.kind == Sqlite
      ensures driver.kind == Mock ==> err.None? && driver.mock.records.data == ApplyAll(old(driver.mock.records.data), Writes(records))
    {
      ghost var t0 := driver.trace;
      ghost var data0 := if driver.kind == Mock then driver.mock.records.data else map[];
      ghost var plan := Writes(records);
      var i := 0;
      while i < |records|
        invariant driver.Valid() && driver.Repr == old(driver.Repr)
        invariant 0 <= i <= |records|
        invariant Ran(driver.trace, |t0|, plan, i)
        invariant driver.trace[..|t0|] == t0
        invariant driver.kind == Mock ==> driver.mock.records.data == ApplyAll(data0, plan[..i])
      {
        ghost var before := driver.trace;
        err := driver.Write(records[i]);
        RanStep(before, |t0|, plan, i, Call(WriteOp(records[i]), err.None?));
        assert plan[..i + 1][..i] == plan[..i];
        if err.Some? {
          return;
        }
        i := i + 1;
      }
      RanAll(driver.trace, |t0|, plan);
      assert plan[..i] == plan;
      err := None;
    }

    /** Step 3 of `Sync`: deletes the keys in order, stopping at the first error. */
    method DeleteKeys(keys: seq<string>) returns (err: Option<DriverError>)
      requires driver.Valid()
      modifies driver.Repr
      ensures driver.Valid() && driver.Repr == old(driver.Repr)
      ensures |old(driver.trace)| <= |driver.trace| && driver.trace[..|old(driver.trace)|] == old(driver.trace)
      ensures RunsUntilFirstFailure(driver.trace[|old(driver.trace)|..], Deletes(keys), err.None?)
      ensures err.Some? ==> driver.kind == Sqlite
      ensures driver.kind == Mock ==> err.None? && driver.mock.records.data == ApplyAll(old(driver.mock.records.data), Deletes(keys))
    {
      ghost var t0 := driver.trace;
      ghost var data0 := if driver.kind == Mock then driver.mock.records.data else map[];
      ghost var plan := Deletes(keys);
      var i := 0;
      while i < |keys|
        invariant driver.Valid() && driver.Repr == old(driver.Repr)
        invariant 0 <= i <= |keys|
        invariant Ran(driver.trace, |t0|, plan, i)
        invariant driver.trace[..|t0|] == t0
        invariant driver.kind == Mock ==> driver.mock.records.data == ApplyAll(data0, plan[..i])
      {
        ghost var before := driver.trace;
        err := driver.Delete(keys[i]);
        RanStep(before, |t0|, plan, i, Call(DeleteOp(keys[i]), err.None?));
        assert plan[..i + 1][..i] == plan[..i];
        if err.Some? {
          return;
        }
        i := i + 1;
      }
      RanAll(driver.trace, |t0|, plan);
      assert plan[..i] == plan;
      err := None;
    }

    /** Step 2 of `Sync`: the nested loops that collect the disk keys no memory record has. */
    method ComputeDelta(disk: seq<Record>, mem: seq<Record>) returns (delta: seq<string>)
      ensures delta == Delta(disk, mem)
    {
      delta := [];
      var i := 0;
      while i < |disk|
        invariant 0 <= i <= |disk|
        invariant delta == Delta(disk[..i], mem)
      {
        var found := false;
        var j := 0;
        while j < |mem|
          invariant 0 <= j <= |mem|
          invariant !found
          invariant forall t :: 0 <= t < j ==> mem[t].key != disk[i].key
        {
          if disk[i].key == mem[j].key {
            found := true;
            break;
          }
          j := j + 1;
        }
        assert found == HasKey(mem, disk[i].key);
        assert disk[..i + 1][..i] == disk[..i];
        if !found {
          delta := delta + [disk[i].key];
        }
        i := i + 1;
      }
      assert disk[..i] == disk;
    }

    /**
     * `Sync(records)`: load the backend, delete the loaded keys no memory
     * record has, then write every memory record; stop at the first error.
     */
    method Sync(records: seq<Record>) returns (err: Option<DriverError>)
      requires driver.Valid()
      modifies driver.Repr
      ensures driver.Valid() && driver.Repr == old(driver.Repr)
      ensures |old(driver.trace)| < |driver.trace| && driver.trace[..|old(driver.trace)|] == old(driver.trace)
      ensures SyncRun(driver.trace[|old(driver.trace)|..], records, err.None?)
      ensures err.Some? ==> driver.kind == Sqlite
      ensures driver.kind == Mock ==> err.None? && driver.mock.records.data.Keys == KeysOf(records)
      ensures driver.kind == Mock ==> forall i :: 0 <= i < |records| && LastOfKey(records, i) ==>
        driver.mock.records.data[records[i].key] == records[i]
    {
      ghost var t0 := driver.trace;
      ghost var data0 := if driver.kind == Mock then driver.mock.records.data else map[];
      // No driver's `Load` fails, so the source's early return after it is never taken.
      var loaded := driver.Load();
      var disk := loaded.value;
      var delta := ComputeDelta(disk, records);
      ghost var t1 := driver.trace;
      err := DeleteKeys(delta);
      ghost var t2 := driver.trace;
      assert t2[..|t1|] == t1 && t1[..|t0|] == t0 && t1[|t0|] == Call(LoadOp(disk), true);
      assert |t1| == |t0| + 1 && t2[|t0| + 1..|t2|] == t2[|t1|..];
      assert t2[..|t0|] == t0 && t2[|t0|] == Call(LoadOp(disk), true);
      // The mock's deletes never fail and every other driver loaded nothing,
      // so the source's early return after a failed delete is never taken.
      assert err.None?;
      err := Save(records);
      assert driver.trace[..|t2|] == t2;
      assert driver.trace[|t0| + 1..|t2|] == t2[|t1|..];
      assert driver.trace[..|t0|] == t0 && driver.trace[|t0|] == Call(LoadOp(disk), true);
      SyncRunOfSteps(driver.trace, |t0|, |t2|, disk, records, true, err.None?);
      if driver.kind == Mock {
        ApplyAllAppend(data0, Deletes(delta), Writes(records));
        SyncConverges(data0, disk, records);
      }
    }
  }
}
