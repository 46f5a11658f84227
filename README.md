# simple-kv core in Dafny

A Dafny model of the core of `simple-kv` (repository `aawadall/rusty-kv`). The
core is a versioned key-value record store:

- **Records** (`types.KVRecord`). Each record has an identity, a key, an
  append-only history of byte blobs, and string metadata. The reserved
  metadata entry `"Version"` holds a decimal counter. Records are backed by
  two small containers: `ValuesContainer` holds the value history and
  `MetadataContainer` holds the metadata map.
- **The server's record container** (`kvserver.Container`). It offers upsert,
  delete, prefix search, metadata search, per-record metadata access and
  listing. It also holds the metadata-query helpers `refineRecords`,
  `isValidOperator` and `matches`.
- **The persistence manager** (`persistence.PersistenceManager`). It picks a
  driver from the configuration and delegates reads and writes to it.
  `Save` writes a list of records. `Sync` reconciles the backend with a
  memory snapshot in four steps: load, compute the stale keys, delete them,
  write everything.
- **The mock driver and its in-memory store** (`MockDriver`, `MockContainer`).
  The mock driver starts with ten records, `key-0` … `key-9`.
- **The configuration manager** (`config.ConfigurationManager`). It builds a
  string map from a caller's map, then from the environment.
- **The feature-flag manager** (`main.FeatureFlagManager`).

Each Go file becomes one Dafny module, and Go types that are updated in place
become classes. The modules are `ValuesHistory`, `Metadata`, `KvRecord`,
`RecordsContainer`, `MockStore`, `MockBackend`, `Persistence`, `Config` and
`FeatureFlags`. Three shared modules support them:

- `Common` defines `Option`, `Result` and bytes.
- `Decimal` models `fmt.Sprintf("%d")` and `strconv.Atoi`, both over the
  int64 range.
- `GoStrings` models Go's byte-wise string comparison, `strings.Contains`,
  the prefix test, `strings.Split` and `strings.Join`.

How Go constructs are modelled:

- A nil Go map is `None`.
- Map iteration order is unspecified in Go, so every loop over a map picks
  its next key with `:|`. What the loop proves therefore holds for every
  visiting order.
- Driver behaviour is recorded in a ghost trace of calls. Each call has an
  operation and an outcome. `Save` and `Sync` are proved against that trace.
- For the mock backend, `Save` and `Sync` are also proved against the store's
  contents.

Where the code and the documented design disagree, the model follows the
code:

- `ValuesContainer.Get` refuses version 0. The design treats every
  non-negative index as valid.
- `KVRecord.GetValue` is 1-based.
- `UpdateRecord` bumps the counter rather than setting it to the history
  length.
- `FindByMetadata` checks only whether the record has a metadata entry named
  by the query. The design describes a `field:op:value` query grammar.
  `refineRecords` implements one clause of that grammar and is modelled
  separately.
- `NewPersistenceManager` falls back to the flat-file driver for any unknown
  driver name.

## Model

| member | source | states |
|---|---|---|
| ValuesHistory.ValueAt | types/values_container.go:21-35 | A read succeeds exactly for -1 (the latest blob) and for 1..len-1 (that index). Version 0 and every other version fail with `VersionOutOfRange`. |
| ValuesHistory.ValuesContainer.constructor | types/values_container.go:13-19 | A new history holds exactly the initial blob. |
| ValuesHistory.ValuesContainer.Get | types/values_container.go:21-35 | Answers `ValueAt` of the current history. |
| ValuesHistory.ValuesContainer.Set | types/values_container.go:37-45 | Appends exactly one blob. Returns its version, which is the old length. |
| ValuesHistory.ValuesContainer.GetVersion | types/values_container.go:47-51 | Returns length − 1, the version at which `Get(-1)` reads. |
| ValuesHistory.ValuesContainer.Len | types/values_container.go:53-57 | Returns the history length. |
| ValuesHistory.AppendKeepsVersions | types/values_container.go:21-45 | After an append, the new blob is the latest. Every version that was readable before reads the same blob. |
| Metadata.MetadataContainer.constructor | types/metadata_container.go:10-14 | Starts empty. |
| Metadata.MetadataContainer.Set | types/metadata_container.go:16-20 | Sets one entry. Every other entry is unchanged. |
| Metadata.MetadataContainer.Get | types/metadata_container.go:22-27 | Returns the value and `true` when the key is present, else `""` and `false`. |
| Metadata.MetadataContainer.Delete | types/metadata_container.go:29-33 | Removes one entry. Deleting an absent key changes nothing. |
| Metadata.MetadataContainer.GetAll | types/metadata_container.go:35-39 | Returns the whole map. |
| KvRecord.Lookup | types/kv_record.go:66 | Go's one-valued map read: the stored value, or `""` when the key is absent or the map is nil. |
| KvRecord.GetVersion | types/kv_record.go:65-72 | The counter is an int64: the value the `"Version"` entry parses to, or 0 whenever it does not parse. |
| KvRecord.Initialised | types/kv_record.go:44-48 | A nil map is replaced by one whose version reads 1. Otherwise the map is unchanged. |
| KvRecord.BumpVersion | types/kv_record.go:51-55 | After a bump, the stored counter reads back as the returned version. That version is the old counter plus one, with int64 wrap-around. Only `"Version"` changes. |
| KvRecord.SetMetadataStep | types/kv_record.go:33-62 | Fails exactly on an empty key or an empty value, and then changes nothing and returns -1. On success the entry holds the value. |
| KvRecord.GetMetadata | types/kv_record.go:75-92 | Succeeds exactly when the key is non-empty, the map is non-nil and the key is present. Returns the stored value. |
| KvRecord.DeleteMetadataStep | types/kv_record.go:95-119 | Fails exactly on an empty key, a nil map or an absent key, and then changes nothing. On success the key is gone. |
| KvRecord.ListMetadata | types/kv_record.go:122-129 | Fails exactly on a nil map. Otherwise returns the map. |
| KvRecord.GetValue | types/kv_record.go:163-181 | Corrected read. Succeeds exactly for -1 on a non-empty history and for 1..len. Version v reads blob v−1; -1 reads the last blob. |
| KvRecord.GetValueAsWritten | types/kv_record.go:163-181 | As written, the guards let a version reach an out-of-range index exactly when it is below -1, or is -1 on an empty history. |
| KvRecord.GetValueAsWrittenAgrees | types/kv_record.go:163-181 | Everywhere else the written code and `GetValue` read the same blob, or refuse with the same error. |
| KvRecord.GetValueMinusTwoIndexesBelowZero | types/kv_record.go:165-180 | As written, `GetValue(-2)` on a one-value record indexes `Value[-3]`. The corrected read refuses it. |
| KvRecord.GetValueIsHistoryShiftedByOne | types/kv_record.go:163-181 | A record's version v+1 is `ValuesContainer`'s version v. Both read the same latest blob. |
| KvRecord.SetMetadataVersionRule | types/kv_record.go:50-61 | Setting a present key advances the counter by one. Setting a new key leaves it unchanged. The returned version is what `GetVersion` reads afterwards. Other entries are kept. |
| KvRecord.SetThenGetMetadata | types/kv_record.go:33-92 | After a successful set, a get of that key returns the value. |
| KvRecord.DeleteMetadataVersionRule | types/kv_record.go:111-118 | A successful delete advances the counter by one and returns it. The key then reads as not found, and other entries are kept. |
| KvRecord.UpdateRecordVersionRule | types/kv_record.go:143-153 | An update always advances the counter by one. On a nil map the new version is 2. |
| KvRecord.KVRecord.constructor | types/kv_record.go:20-30 | A new record has one value and metadata `{"Version": "1"}`. |
| KvRecord.KVRecord.SetMetadata | types/kv_record.go:33-62 | Its effect equals `SetMetadataStep`. Identity, key and values are unchanged. |
| KvRecord.KVRecord.DeleteMetadata | types/kv_record.go:95-119 | Its effect equals `DeleteMetadataStep`. Identity, key and values are unchanged. |
| KvRecord.KVRecord.UpdateRecord | types/kv_record.go:132-160 | Fails exactly on an empty key or a nil blob, and then changes nothing. On success the key is replaced, exactly one blob is appended and the counter is bumped. |
| RecordsContainer.Container.constructor | kv_server/records_container.go:14-18 | Starts empty. |
| RecordsContainer.Container.Get | kv_server/records_container.go:20-25 | Returns the record and `true` when present, else the zero record and `false`. |
| RecordsContainer.Container.Set | kv_server/records_container.go:27-31 | Upsert. Every other key keeps its record. |
| RecordsContainer.Container.Delete | kv_server/records_container.go:33-37 | Removes the key. Deleting an absent key changes nothing. |
| RecordsContainer.Container.Find | kv_server/records_container.go:39-49 | Corrected prefix search. Returns exactly the stored keys starting with the prefix, each once, in any visiting order. |
| RecordsContainer.FindAsWrittenPanicsOnShortKey | kv_server/records_container.go:44 | As written, the slice goes past the end of a key shorter than the prefix, e.g. key "app" with prefix "appzz". Wherever the slice is in range, the written test equals the prefix test. |
| RecordsContainer.Container.FindByMetadata | kv_server/records_container.go:51-62 | Returns exactly the keys whose record has a metadata entry named `query`, each once. |
| RecordsContainer.Container.GetMetadata | kv_server/records_container.go:64-73 | Returns the value and `true` when both the record and the entry exist, else `""` and `false`. |
| RecordsContainer.Container.SetMetadata | kv_server/records_container.go:75-81 | Only that record's entry changes. |
| RecordsContainer.Container.DeleteMetadata | kv_server/records_container.go:83-89 | Only that record's entry is removed. |
| RecordsContainer.Container.GetAllMetadata | kv_server/records_container.go:91-96 | Returns the record's metadata map. |
| RecordsContainer.Container.List | kv_server/records_container.go:98-106 | Returns every stored key exactly once. |
| RecordsContainer.IsValidOperator | kv_server/records_container.go:148-155 | An operator is valid exactly when some value and target match under it. So an operator that `isValidOperator` refuses never matches. |
| RecordsContainer.Matches | kv_server/records_container.go:157-176 | `==` and `!=` are equality and its negation. `<` and `>` are lexicographic order, in both directions. `<=` and `>=` are their negations with the operands swapped. `contains` is the substring test. |
| RecordsContainer.MatchesRelations | kv_server/records_container.go:157-176 | `==`/`!=`, `>`/`<=` and `<`/`>=` are complements. `>=` is `>` or `==`, and `<=` is `<` or `==`. |
| RecordsContainer.RefineRecords | kv_server/records_container.go:113-146 | A clause without exactly three parts is an error and deletes nothing. On success exactly the records whose field exists and matches remain. An invalid operator errors only once a record has the field. The caller's map is shrunk in place. |
| MockStore.KeysOf | persistence/mock_driver.go:82-88 | Every row's key is in the set. |
| MockStore.MockContainer.constructor | persistence/mock_container.go:16-20 | Starts empty. |
| MockStore.MockContainer.Get | persistence/mock_container.go:23-28 | Returns the record and `true` when present, else the zero record and `false`. |
| MockStore.MockContainer.Set | persistence/mock_container.go:31-35 | Stores a copy under the key. Every other key is unchanged. |
| MockStore.MockContainer.Delete | persistence/mock_container.go:38-42 | Removes the key. Deleting an absent key changes nothing. |
| MockStore.MockContainer.GetAll | persistence/mock_container.go:45-49 | Returns the whole map. |
| MockBackend.AsciiBytes | persistence/mock_driver.go:74 | `[]byte` of an ASCII string: one byte per character, equal to its code point. |
| MockBackend.PopulatedKeyInjective | persistence/mock_driver.go:73 | Distinct `i` give distinct `key-%d` strings. |
| MockBackend.PopulatedRecords | persistence/mock_driver.go:71-78 | Every populated record is stored under its own key. |
| MockBackend.PopulatedKeys | persistence/mock_driver.go:72-76 | The stored keys are exactly `key-i` for `0 <= i < count`. |
| MockBackend.PopulatedRecordsSize | persistence/mock_driver.go:71-78 | `Populate(n)` stores exactly n records. |
| MockBackend.StartingSize | persistence/mock_driver.go:24 | The mock driver starts with exactly ten records. |
| MockBackend.StartingKeys | persistence/mock_driver.go:24 | The starting keys are exactly `key-0` … `key-9`. |
| MockBackend.ReadStore | persistence/mock_driver.go:37-44 | A read succeeds exactly when the key is stored. Otherwise it fails with "record not found". |
| MockBackend.WriteThenRead | persistence/mock_driver.go:30-51 | A read after a write returns the written record, and other keys read as before. A read after a delete fails. |
| MockBackend.MapToRecordList | persistence/mock_driver.go:82-88 | Returns one entry per key, in some order, with no key visited twice. The list's elements are exactly the map's values. |
| MockBackend.MockDriver.constructor | persistence/mock_driver.go:19-26 | The store holds `PopulatedRecords(10)`. |
| MockBackend.MockDriver.Write | persistence/mock_driver.go:30-34 | Never fails. Stores the record under its key. |
| MockBackend.MockDriver.Read | persistence/mock_driver.go:37-44 | Answers `ReadStore`. |
| MockBackend.MockDriver.Delete | persistence/mock_driver.go:47-51 | Never fails. Removes the key. |
| MockBackend.MockDriver.Load | persistence/mock_driver.go:64-68 | Never fails. Returns one record per stored key, and the loaded keys are the stored keys. |
| MockBackend.MockDriver.Populate | persistence/mock_driver.go:71-78 | The store gains exactly `PopulatedRecords(count)`. Nothing is added for `count <= 0`. |
| Persistence.SelectDriver | persistence/persistence_manager.go:22-33 | Each of "sqlite", "mock" and "none" selects its driver exactly when named. Everything else, including a missing entry, selects the flat-file driver. |
| Persistence.Deletes | persistence/persistence_manager.go:115-121 | The step-3 plan is one delete per delta key, in order. |
| Persistence.Writes | persistence/persistence_manager.go:78-84 | The `Save` plan, which is also step 4 of `Sync`, is one write per record, in order. |
| Persistence.Delta | persistence/persistence_manager.go:99-112 | At most one key per loaded record. The delta is empty exactly when memory has every loaded key. |
| Persistence.DeltaIsStaleKeys | persistence/persistence_manager.go:99-112 | A key is in the delta exactly when it was loaded and no memory record has it. |
| Persistence.SyncPlanShape | persistence/persistence_manager.go:114-130 | The sync plan is all delta deletes, then one write per memory record, in order. |
| Persistence.RanStep | persistence/persistence_manager.go:78-84 | A successful call advances a plan's run by one step. A failed call ends it as failed. |
| Persistence.RanAll | persistence/persistence_manager.go:78-86 | A run that reached the end of its plan succeeded. |
| Persistence.RunsConcat | persistence/persistence_manager.go:114-132 | A successful run of one plan followed by a run of another is a run of their concatenation. |
| Persistence.RunsFailedPrefix | persistence/persistence_manager.go:117-120 | A run that failed in a plan's first part is a failed run of the whole plan. |
| Persistence.SyncRunOfSteps | persistence/persistence_manager.go:93-132 | A successful load, then the delta deletes, then (if they all succeeded) the writes, make up a `Sync` run. |
| Persistence.SyncRunFollowsPlan | persistence/persistence_manager.go:93-132 | After a successful load, the j-th backend call is the (j−1)-th step of the plan computed from what was loaded. |
| Persistence.SyncDeletesOnlyStaleKeys | persistence/persistence_manager.go:114-121 | Every delete `Sync` issues names a loaded key that no memory record has. |
| Persistence.SyncDeletesBeforeWrites | persistence/persistence_manager.go:114-130 | No delete follows a write. A failing delete means nothing was written. |
| Persistence.SyncWritesEverything | persistence/persistence_manager.go:93-132 | A successful sync issued exactly the load, every delta delete and every memory write, all successful. |
| Persistence.ApplyAllAppend | persistence/persistence_manager.go:114-130 | Carrying out two plans in sequence equals carrying out their concatenation. |
| Persistence.ApplyDeletes | persistence/persistence_manager.go:114-121 | Carrying out the deletes removes exactly the listed keys. |
| Persistence.ApplyWritesSnoc | persistence/persistence_manager.go:123-130 | One more write updates that record's key. |
| Persistence.ApplyWritesKeys | persistence/persistence_manager.go:123-130 | The writes add exactly the records' keys. |
| Persistence.ApplyWritesValues | persistence/persistence_manager.go:123-130 | Each written key holds the last record written with it. Keys nobody wrote keep their entry. |
| Persistence.SyncConverges | persistence/persistence_manager.go:90-133 | Over a store whose keys are the loaded keys, the whole plan leaves exactly the memory keys. Each key holds the last memory record with that key. |
| Persistence.Driver.constructor | persistence/persistence_manager.go:22-33 | Sets up the chosen backend, with the given SQLite failure positions and rows. For the mock backend, that is a fresh mock driver holding its ten records. |
| Persistence.Driver.Write | persistence/persistence_manager.go:51-53 | The call is appended to the trace, and it fails exactly as the backend does. The mock store is updated. |
| Persistence.Driver.Delete | persistence/persistence_manager.go:61-63 | The call is appended to the trace, and it fails exactly as the backend does. The mock store is updated. |
| Persistence.Driver.Read | persistence/sqlite.go:71-95 | The mock backend answers `ReadStore`. Flat-file and none answer the zero record. SQLite answers the zero record, without error, for a key it does not find. For a key it finds, the read fails exactly when the backend call fails, and otherwise returns the stored row. Only the mock and SQLite can fail. |
| Persistence.Driver.Load | persistence/sqlite.go:121-125 | Never fails. The mock backend returns exactly its keys. SQLite, flat-file and none return an empty list. |
| Persistence.PersistenceManager.constructor | persistence/persistence_manager.go:16-36 | The driver kind is `SelectDriver(config)`, with a fresh driver, an empty trace, and the given SQLite failure positions and rows. |
| Persistence.PersistenceManager.Write | persistence/persistence_manager.go:51-53 | One write call. On the mock backend it succeeds and stores the record. |
| Persistence.PersistenceManager.Read | persistence/persistence_manager.go:56-58 | One read call. On the mock backend it answers `ReadStore`. |
| Persistence.PersistenceManager.Delete | persistence/persistence_manager.go:61-63 | One delete call. On the mock backend it succeeds and removes the key. |
| Persistence.PersistenceManager.Load | persistence/persistence_manager.go:71-73 | One load call, which never fails. On the mock backend it returns the stored keys. Every other backend returns an empty list. |
| Persistence.PersistenceManager.Save | persistence/persistence_manager.go:76-87 | Issues the writes in order and stops at the first failure, which is the error it returns. Only SQLite can fail. On the mock backend the store equals the writes applied in order. |
| Persistence.PersistenceManager.DeleteKeys | persistence/persistence_manager.go:115-121 | Issues the deletes in order and stops at the first failure. Only SQLite can fail. On the mock backend it removes the keys. |
| Persistence.PersistenceManager.ComputeDelta | persistence/persistence_manager.go:99-112 | Returns exactly `Delta`: the loaded keys without a memory record, in load order. |
| Persistence.PersistenceManager.Sync | persistence/persistence_manager.go:90-133 | The calls issued form a `Sync` run: load, then the delta deletes, then the writes, stopping at the first failure. Only SQLite can fail, and there nothing is loaded, so nothing is deleted. On the mock backend, sync succeeds and converges: the stored keys are the memory keys, each holding its last memory record. |
| Config.GetEntry | config/config_manager.go:34-51 | Fails with empty key, nil configuration or key not found, in that order. Succeeds exactly when the key is present, and returns its value. |
| Config.SetEntry | config/config_manager.go:54-73 | Fails exactly on an empty key or a nil value, and then changes nothing. On success the key maps to the value, and a nil map is created first. |
| Config.SetThenGet | config/config_manager.go:34-73 | After a set, a get of that key returns the value, and other keys read as before. |
| Config.SplitEnvVar | config/config_manager.go:99-108 | The key holds no `=`. With an `=` in the input, key + "=" + value is the input. Without one, the value is empty. |
| Config.ApplyEnv | config/config_manager.go:76-90 | Each entry is set in order, and an entry with an empty key is skipped. A nil configuration becomes a map exactly when some entry has a key. |
| Config.EnvLastWins | config/config_manager.go:76-90 | The last environment entry with a non-empty key decides that key's value. |
| Config.EnvKeepsConfig | config/config_manager.go:18-31 | A key no environment entry names keeps its configured value. |
| Config.ConfigurationManager.constructor | config/config_manager.go:18-31 | The configuration is a copy of the caller's map with the environment applied on top. |
| Config.ConfigurationManager.Get | config/config_manager.go:34-51 | Answers `GetEntry`. |
| Config.ConfigurationManager.Set | config/config_manager.go:54-73 | Its effect equals `SetEntry`. |
| Config.ConfigurationManager.LoadFromEnvironment | config/config_manager.go:76-90 | Always succeeds. Sets each entry in order. |
| Config.ConfigurationManager.GetConfig | config/config_manager.go:93-95 | Returns the configuration. |
| Decimal.Inc64 | types/kv_record.go:113 | `version + 1` on a Go `int`: n+1, wrapping from the int64 maximum to the minimum. |
| Decimal.FormatInt | types/kv_record.go:55 | `Sprintf("%d")` writes digits with an optional leading '-'. |
| Decimal.Atoi | types/kv_record.go:66 | `strconv.Atoi` accepts only non-empty text within int64. |
| Decimal.ParseDigitsOfDigits | types/kv_record.go:55-66 | Parsing the decimal digits of n gives back n. |
| Decimal.AtoiFormatInt | types/kv_record.go:55-66 | Every int64 version written with `Sprintf("%d")` is read back by `Atoi`. |
| Decimal.FormatIntInjective | persistence/mock_driver.go:73 | Different numbers are formatted differently. |
| GoStrings.Compare | kv_server/records_container.go:160-166 | The result is -1, 0 or 1. |
| GoStrings.CompareZeroIffEqual | kv_server/records_container.go:167-170 | Comparison is 0 exactly on equal strings. |
| GoStrings.CompareAntisymmetric | kv_server/records_container.go:160-166 | Swapping the operands negates the comparison. |
| GoStrings.CompareTransitive | kv_server/records_container.go:160-166 | "Less than" is transitive. |
| GoStrings.CompareIsLexicographic | kv_server/records_container.go:160-166 | "Less than" is lexicographic order. |
| GoStrings.Contains | kv_server/records_container.go:109-111 | The empty string is contained in every string. Nothing longer than the string is contained in it. |
| GoStrings.ContainsIffOccurs | kv_server/records_container.go:109-111 | `Contains` holds exactly when the substring occurs at some position. |
| GoStrings.Split | config/config_manager.go:101 | There is at least one piece, and no piece holds the separator. |
| GoStrings.JoinSplit | config/config_manager.go:101-105 | Joining the split pieces with the separator restores the string. |
| GoStrings.SplitHasSeveralPieces | config/config_manager.go:101-105 | There are two or more pieces exactly when the separator occurs. |
| FeatureFlags.FirstIndex | feature_flag.go:45-52 | Returns the position of the first flag with the name, or -1 exactly when there is none. |
| FeatureFlags.FirstNamed | feature_flag.go:45-52 | Nil exactly when no flag has the name. Otherwise the first flag of the list with that name. |
| FeatureFlags.WithoutMembers | feature_flag.go:36-42 | After the intended removal, exactly the flags with other names remain. |
| FeatureFlags.WithoutAppend | feature_flag.go:36-42 | Removal distributes over concatenation. |
| FeatureFlags.WithoutAbsent | feature_flag.go:36-42 | Removing an absent name changes nothing. |
| FeatureFlags.WithoutStep | feature_flag.go:37-40 | Removal over one more flag drops that flag exactly when it has the name. |
| FeatureFlags.WithoutSingle | feature_flag.go:36-42 | With a single flag of that name, removal is a splice at its position. |
| FeatureFlags.SetEnabledEffect | feature_flag.go:69-82 | The intended enable/disable changes exactly the first flag with the name. `IsEnabled` then reports the new setting. An absent name changes nothing. |
| FeatureFlags.RemoveLoop | feature_flag.go:37-41 | As written, the loop never lengthens the slice. Every flag it leaves was in the slice it started from. |
| FeatureFlags.RemoveAsWritten | feature_flag.go:36-42 | As written, `Remove` only drops flags. With no flag of that name it leaves the list as it was, so it can panic only when some flag has the name. |
| FeatureFlags.RemoveLoopNoMoreMatches | feature_flag.go:37-41 | As written, once no later flag has the name the loop ends with the current slice. |
| FeatureFlags.RemoveLoopSingleMatch | feature_flag.go:37-41 | As written, a single match is spliced out correctly. |
| FeatureFlags.RemoveAsWrittenAgreesOnUniqueNames | feature_flag.go:36-42 | With at most one flag of that name, the written `Remove` equals the intended removal. |
| FeatureFlags.RemoveAsWrittenMissesAdjacentDuplicates | feature_flag.go:36-42 | As written, `Remove("a")` on `[a, a, b]` leaves `[a, b]`, where `[b]` is intended. On `[a, a]` it panics. |
| FeatureFlags.FeatureFlagManager.constructor | feature_flag.go:20-24 | Starts with no flags. |
| FeatureFlags.FeatureFlagManager.Add | feature_flag.go:27-33 | Appends exactly the new flag. |
| FeatureFlags.FeatureFlagManager.Remove | feature_flag.go:36-42 | Corrected. Leaves `Without(flags, name)`: every flag with that name is gone and the others keep their order. |
| FeatureFlags.FeatureFlagManager.Get | feature_flag.go:45-52 | Returns the first flag with the name, or nil. |
| FeatureFlags.FeatureFlagManager.GetFeatureFlags | feature_flag.go:55-57 | Returns the list. |
| FeatureFlags.FeatureFlagManager.IsEnabled | feature_flag.go:60-66 | True exactly when the first flag with the name exists and is enabled. |
| FeatureFlags.FeatureFlagManager.Enable | feature_flag.go:69-74 | As written. Only the copy `Get` returned is enabled, and the list is untouched. |
| FeatureFlags.FeatureFlagManager.Disable | feature_flag.go:77-82 | As written. Only the copy is disabled. |
| FeatureFlags.FeatureFlagManager.EnableInPlace | feature_flag.go:69-74 | Corrected. Leaves `SetEnabled(flags, name, true)`. |
| FeatureFlags.FeatureFlagManager.DisableInPlace | feature_flag.go:77-82 | Corrected. Leaves `SetEnabled(flags, name, false)`. |
| FeatureFlags.FeatureFlagManager.SetFirst | feature_flag.go:69-82 | Sets `Enabled` on the first flag with the name. |
| FeatureFlags.EnableHasNoEffect | feature_flag.go:69-74 | For a disabled flag: after the written `Enable` it is still disabled, and after `EnableInPlace` it is enabled. |

## Left out

- Mutexes, goroutines and every concurrency property: each operation is one atomic step.
- Loggers and log output.
- `uuid.New()`: the record's identity is a constructor parameter.
- `os.Environ()`: the environment is a parameter of the configuration manager.
- `Compare`, on the manager and on the mock driver, and `CompareRecords`: `CompareRecords` is not part of this model.
- `Start` and `Stop` of the persistence manager: they only log.
- The SQLite driver's database I/O. Its outcomes are parameters: the positions of failing calls, and the rows its queries find (`database`). Those rows are fixed for the driver's life, so an SQLite write or delete does not change what a later SQLite read finds. A found row is returned as stored. The metadata merge of persistence/sqlite.go:86-89 is folded into that row.
- The flat-file and none drivers answer fixed values: no error, the zero record, an empty list. Their file I/O is left out, because they do none.
- `NewPersistenceManager` calls `NewMockDriver` with an argument that `NewMockDriver` does not take, so the source as written does not compile. The model constructs the mock driver with no argument.
- The record identity of `persistence.KvRecord`, which is `types.KVRecord` (persistence/driver.go:6): the container and the persistence layer use one value record of a key, a value history and a metadata map, without the UUID.
- Go struct copies: a copied record shares its metadata map, and `GetAll`/`GetConfig`/`ListMetadata` return the live map. Records and maps are values here.
- Byte-level strings: Go's `len`, slicing and comparison work on UTF-8 bytes, and the model works on characters. The two agree on ASCII text. For other text a Go slice can split a character, and that is not captured.
- A nil blob and an empty blob are the same in the value history. Only `UpdateRecord` tells them apart, through `Option`.
- Configuration values are strings. Go's `interface{}` values that are not strings are not modelled, and a nil value is `None`.
- RecordsContainer.Container.SetMetadata: requires that the key is present. On an absent key Go writes to the zero record's nil metadata container and panics.
- RecordsContainer.Container.DeleteMetadata: requires that the key is present, for the same reason.
- RecordsContainer.Container.GetAllMetadata: requires that the key is present, for the same reason.
- Persistence.PersistenceManager.Sync: step 4 of `Sync` is proved through `Save`, whose loop it repeats. Step 3 is proved through `DeleteKeys`.
- Persistence.PersistenceManager.Sync: the early returns after a failed load and after a failed delete are not modelled, because they are never taken. No driver's `Load` fails. Every driver but the mock loads nothing and so deletes nothing, and the mock's deletes never fail.
- The `sync_interval` and driver-location settings: they are only read by code outside this model.

## Findings

| source | as written | input that shows it | evidently intended | confidence | as-written member | corrected member |
|---|---|---|---|---|---|---|
| types/kv_record.go:165-180 | `GetValue` guards only -1, `> len` and 0, then indexes `Value[version-1]` | a one-value record, `GetValue(-2)` indexes `Value[-3]` and panics | versions below -1 are an error | high, not executed | KvRecord.GetValueMinusTwoIndexesBelowZero | KvRecord.GetValue |
| kv_server/records_container.go:44 | `key[:len(partialKey)]` slices every stored key | keys "apple", "app", "banana", `Find("appzz")` slices "app" past its end and panics | keys shorter than the prefix do not match | high, not executed | RecordsContainer.FindAsWrittenPanicsOnShortKey | RecordsContainer.Container.Find |
| feature_flag.go:37-41 | `Remove` splices the slice it is ranging over | `[a, a, b]`, `Remove("a")` leaves `[a, b]`; `[a, a]`, `Remove("a")` panics | every flag with the name is removed | high, not executed | FeatureFlags.RemoveAsWrittenMissesAdjacentDuplicates | FeatureFlags.FeatureFlagManager.Remove |
| feature_flag.go:45-82 | `Get` returns the address of the loop's copy, so `Enable`/`Disable` change the copy | a disabled flag "beta", `Enable("beta")` then `IsEnabled("beta")` is false | the flag in the list changes | high, not executed | FeatureFlags.EnableHasNoEffect | FeatureFlags.FeatureFlagManager.EnableInPlace |
