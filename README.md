# Instance record store of the bronto agent, in Dafny

The bronto agent keeps, for every game-server instance on its node, two records in a bolt
database: the instance's lifecycle record (`Instance`: id, status, start time, container id)
and its launch configuration (`Config`: data directory, server jar, JVM arguments, listen
port). The records live in a bucket named "instances", one sub-bucket per instance, named by
the decimal rendering of the instance's 32-bit id and holding the msgpack encodings of the
two records under "instance" and "config".

This project models that store. There are two copies of it in the repository, and both are
modelled:

- `BoltStateStore` (agent/instance/state/bolt_store.go) with `Add`, `Remove`, `Get`,
  `GetConfig`, `List`, the read-modify-write helper `updateInstance` and the two field
  updaters built on it, `SetContainerId` and `SetStatus`;
- `BoltStore` (agent/instance/store/bolt_store.go), the older copy with `Add`, `Remove`,
  `Get` and `GetConfig`.

Modules, leaf first:

- `Wrappers` (wrappers.dfy): `Option` (Go's nil-able pointer) and `Result` (Go's
  `(value, error)` pair).
- `Instances` (instances.dfy): the record types and `Status` of
  agent/instance/state/instance.go, `Uint32` and `Int64` for Go's `uint32` and `int`, and the
  two mappers that `SetContainerId` and `SetStatus` hand to `updateInstance`.
- `Keys` (keys.dfy): the key codec. `IdToBytes` is `idToBytes` (`strconv.FormatUint(id, 10)`
  as bytes); `IdFromBytes` is `idFromBytes`, which is `strconv.ParseUint(s, 10, 32)` with
  its error dropped. The parse follows Go's byte-by-byte scan: it stops at the first
  byte that is not a digit and returns 0, or at the first digit that overflows and returns
  4294967295. The codec is proved to round-trip and to be injective. Separately, the keys
  `IdToBytes` makes are proved to be exactly the canonical decimal numerals of at most
  4294967295.
- `Records` (records.dfy): the bucket as a value, `map<Key, Record>`. It also holds one pure
  function per transaction (`Stored`, `Deleted`, `Updated`, `ContainerIdSet`, `StatusSet`)
  and the lemmas on what each does to every lookup. Both stores use these functions as
  their specification.
- `StateStore` (state_store.dfy): class `BoltStateStore`, whose field `instances` is the
  bucket.
- `LegacyStore` (legacy_store.dfy): class `BoltStore`, the same over the older file. Its
  `Get` and `GetConfig` repeat those of `BoltStateStore`, as the two source files do.
- `Scenarios` (scenarios.dfy): the call sequences of the two test files
  (agent/instance/state/bolt_store_test.go, agent/instance/store/bolt_store_test.go),
  extended with steps the tests do not take: `StateStoreScenario` adds a `SetStatus(Running)`
  and a `SetStatus` on a removed id, and `LegacyStoreScenario` adds an `Add` whose encoding
  fails. Each
  step is written as a caller would, and the assertions after it are proved from the
  stores' contracts alone.

Every operation is one bolt transaction, so in the model it either applies in full or leaves
`instances` as it was. The foreign code an operation calls can fail: msgpack's encoder, or
bolt when it opens the transaction, writes, or commits. The model does not run that code, so
each operation takes a `Fault` saying what it does on this call. `NoFault` means every call
succeeds. `EncodeFault` means `msgpack.Marshal` fails. `TxFault` means the transaction cannot
be opened. `WriteFault` means a bucket creation, a `Put` or the commit fails. Each method
states its error and its new state for every fault. The clock read by `SetStatus`
(`time.Now()`) is a parameter `now`.

Both classes keep an invariant, `Valid()`, made of two parts. First, every key in the bucket is
one that `idToBytes` makes (`CanonicalKeys`). Second, every record's instance has the id its
key parses to (`KeyedById`). The constructors establish `Valid()`, and every method that
changes the bucket requires and keeps it. `Get` relies on it to return an instance whose
`Id` is the id asked for. In the source these hold because only the store writes the
bucket.

Behaviour of the code that the model follows, where a reader might expect otherwise:

- `Add` overwrites both records of an id that is already stored. It uses
  `CreateBucketIfNotExists` and does not check for a duplicate.
- `Remove` of an absent id returns no error. The error of `DeleteBucket` is ignored.
- `SetContainerId` and `SetStatus` on an absent id return no error and change nothing.
  `updateInstance` swallows its own not-found error. agent/instance/state/interface.go
  declares `SetContainerId` as returning `(bool, error)`, but the implementation returns
  only an error; the model follows the implementation.
- `SetStatus` never clears `StartTime`, although the field's comment says it is nil when
  the instance is not running. The model proves only that `SetStatus(Starting)` sets it,
  and that no status change removes it.
- `Running` is stored as the string "Online".

## Model

| member | source | states |
|---|---|---|
| Instances.Status.Name | agent/instance/state/instance.go:7-12 | the string each status is stored as; no contract of its own, its values are stated by NamesDistinct and RunningIsStoredAsOnline |
| Instances.HasContainer | agent/instance/state/instance.go:32-34 | whether a container has been created, read as a non-empty `ContainerId`; no contract of its own, used by WithContainerIdChangesOnlyContainerId |
| Instances.WithContainerId | agent/instance/state/bolt_store.go:150-152 | the mapper of `SetContainerId`; no contract of its own, its effect is stated by WithContainerIdChangesOnlyContainerId |
| Instances.WithStatus | agent/instance/state/bolt_store.go:159-165 | the mapper of `SetStatus`; no contract of its own, its effect is stated by WithStatusEffect |
| Instances.NamesDistinct | agent/instance/state/instance.go:5-12 | two statuses are stored as the same string exactly when they are the same status, so the four constants are pairwise distinct |
| Instances.RunningIsStoredAsOnline | agent/instance/state/instance.go:10 | `Running` is stored as "Online", and no status is stored as "Running" |
| Instances.WithContainerIdChangesOnlyContainerId | agent/instance/state/bolt_store.go:150-152 | the mapper of `SetContainerId` sets the container id and keeps id, status and start time; the instance then has a container exactly when the new id is non-empty |
| Instances.WithStatusEffect | agent/instance/state/bolt_store.go:159-165 | the mapper of `SetStatus` sets the status, sets the start time to `now` exactly when the new status is `Starting`, otherwise leaves it, never clears it, and keeps id and container id |
| Keys.Decimal | agent/instance/store/bolt_store.go:127-130 | the decimal rendering is non-empty, all ASCII digits, and begins with '0' exactly when the number is 0 |
| Keys.IdToBytes | agent/instance/state/bolt_store.go:209-212 | every key made from an id is a canonical decimal numeral |
| Keys.ParseFrom | agent/instance/state/bolt_store.go:214-218 | the parse never yields more than the largest `uint32`, so the cast to `uint32` loses nothing |
| Keys.IdFromBytes | agent/instance/state/bolt_store.go:214-218 | `idFromBytes`; no contract of its own, its result on every key is stated by IdFromBytesReads, IdFromBytesRejects, IdFromBytesSaturatesBeforeJunk, IdFromBytesRoundTrip and CanonicalKeyRoundTrip |
| Keys.DecimalDenotes | agent/instance/store/bolt_store.go:127-130 | the rendering of `n`, read back digit by digit, is `n` |
| Keys.CanonicalIsDecimal | agent/instance/store/bolt_store.go:127-130 | a canonical numeral is the rendering of the number it denotes, so each number has one rendering |
| Keys.IdFromBytesReads | agent/instance/state/bolt_store.go:214-218 | `idFromBytes` yields the value of an all-digit key of at most 4294967295, yields 4294967295 for a larger one, and yields 0 for the empty key |
| Keys.IdFromBytesRejects | agent/instance/state/bolt_store.go:214-218 | a non-digit byte reached before any overflow makes `idFromBytes` yield 0 |
| Keys.IdFromBytesSaturatesBeforeJunk | agent/instance/state/bolt_store.go:214-218 | digits whose value passes 4294967295 make `idFromBytes` yield 4294967295, whatever bytes follow them |
| Keys.IdToBytesDenotes | agent/instance/state/bolt_store.go:209-212 | the key of an id is the id's decimal numeral |
| Keys.IdFromBytesRoundTrip | agent/instance/state/bolt_store.go:209-218 | `idFromBytes(idToBytes(id)) == id` for every `uint32` |
| Keys.IdToBytesInjective | agent/instance/store/bolt_store.go:127-130 | two ids have the same key exactly when they are equal |
| Keys.CanonicalKeyRoundTrip | agent/instance/state/bolt_store.go:209-218 | `idToBytes(idFromBytes(k)) == k` exactly when `k` is a canonical numeral of at most 4294967295 |
| Records.Lookup | agent/instance/state/bolt_store.go:86 | the `Bucket(idToBytes(id))` lookup of `Get`, `GetConfig` and `updateInstance`; no contract of its own, its result after each transaction is stated by LookupEmpty, LookupStored, LookupDeleted and LookupUpdated |
| Records.Stored | agent/instance/state/bolt_store.go:48-66 | `Add`'s transaction; no contract of its own, its effect is stated by LookupStored, StoredOverwrites and StoredKeepsInvariants |
| Records.Deleted | agent/instance/state/bolt_store.go:72-76 | `Remove`'s transaction; no contract of its own, its effect is stated by LookupDeleted, DeletedAbsent, DeletedUndoesStored and DeletedKeepsInvariants |
| Records.Updated | agent/instance/state/bolt_store.go:170-196 | `updateInstance`'s transaction; no contract of its own, its effect is stated by LookupUpdated, UpdatedAbsent and UpdatedKeepsInvariants |
| Records.ContainerIdSet | agent/instance/state/bolt_store.go:149-154 | `SetContainerId`'s transaction; no contract of its own, its effect is stated by ContainerIdSetEffect |
| Records.StatusSet | agent/instance/state/bolt_store.go:156-167 | `SetStatus`'s transaction; no contract of its own, its effect is stated by StatusSetEffect and StartingStampsStartTime |
| Records.LookupEmpty | agent/instance/state/bolt_store.go:26-32 | a just-created bucket holds no instance |
| Records.LookupStored | agent/instance/state/bolt_store.go:48-66 | after `Add(i, c)`, the id `i.Id` finds exactly `(i, c)`, and every other id finds what it found before |
| Records.StoredOverwrites | agent/instance/state/bolt_store.go:50-63 | a second `Add` with the same id replaces both records of the first, leaving nothing of them |
| Records.LookupDeleted | agent/instance/state/bolt_store.go:71-79 | after `Remove(id)`, `id` finds neither record, and every other id finds what it found before |
| Records.DeletedAbsent | agent/instance/state/bolt_store.go:74 | removing an id that is not stored changes nothing |
| Records.DeletedUndoesStored | agent/instance/store/bolt_store.go:67-75 | `Remove` after `Add` of an id that was not stored gives back the bucket as it was before the `Add` |
| Records.LookupUpdated | agent/instance/state/bolt_store.go:169-196 | after `updateInstance(id, mapper)`, a stored `id` finds the mapped instance beside its unchanged config, and every other id finds what it found before |
| Records.UpdatedAbsent | agent/instance/state/bolt_store.go:172-175 | `updateInstance` on an id that is not stored changes nothing |
| Records.ContainerIdSetEffect | agent/instance/state/bolt_store.go:149-154 | `SetContainerId` changes only that instance's container id: not its id, status, start time or config, and no other id's records; which ids are stored is unchanged |
| Records.StatusSetEffect | agent/instance/state/bolt_store.go:156-167 | `SetStatus` sets that instance's status and sets its start time to `now` exactly when the status is `Starting`, otherwise leaving it; its id, container id and config and every other id are unchanged |
| Records.StartingStampsStartTime | agent/instance/state/bolt_store.go:161-164 | after `SetStatus(Starting)` on a stored instance, its start time is present and equals `now` |
| Records.StoredKeepsInvariants | agent/instance/state/bolt_store.go:48-66 | `Add` keeps every key canonical and every record under its own id's key, and adds exactly the key of the new id |
| Records.DeletedKeepsInvariants | agent/instance/state/bolt_store.go:71-79 | `Remove` keeps both invariants and takes away exactly the key of the removed id |
| Records.UpdatedKeepsInvariants | agent/instance/state/bolt_store.go:169-196 | `updateInstance` keeps the set of keys, keeps them canonical, and keeps records under their own id's key when the mapper does not change the id |
| StateStore.BoltStateStore.constructor | agent/instance/state/bolt_store.go:26-32 | a new store over a freshly created bucket is empty and satisfies both invariants |
| StateStore.BoltStateStore.Add | agent/instance/state/bolt_store.go:38-69 | with no fault, both records are stored under `inst.Id` and no error is returned; an encoding failure or a failed transaction returns its error and leaves the bucket unchanged |
| StateStore.BoltStateStore.Remove | agent/instance/state/bolt_store.go:71-79 | deletes both records of `id`, stored or not, with no error; a failed transaction returns an error and leaves the bucket unchanged |
| StateStore.BoltStateStore.Get | agent/instance/state/bolt_store.go:81-104 | returns absent with no error exactly when `id` is not stored, otherwise that id's instance record, whose `Id` is `id`; a transaction that does not open is the only error |
| StateStore.BoltStateStore.GetConfig | agent/instance/state/bolt_store.go:124-147 | returns absent with no error exactly when `id` is not stored, otherwise that id's config |
| StateStore.BoltStateStore.List | agent/instance/state/bolt_store.go:106-122 | returns every stored id exactly once and no other id: an id is listed exactly when it is stored, no id twice, and as many ids as sub-buckets |
| StateStore.BoltStateStore.UpdateInstance | agent/instance/state/bolt_store.go:169-207 | given a mapper that keeps the instance's id, as both callers' mappers do, it keeps both invariants; on a stored id with no fault, replaces the instance record by its image under `mapper`; on an absent id, returns no error and changes nothing; an encoding or write failure returns its error and changes nothing |
| StateStore.BoltStateStore.SetContainerId | agent/instance/state/bolt_store.go:149-154 | its new bucket is `ContainerIdSet` of the old one when it succeeds; no error and no change on an absent id; otherwise the error with no change |
| StateStore.BoltStateStore.SetStatus | agent/instance/state/bolt_store.go:156-167 | its new bucket is `StatusSet` of the old one at time `now` when it succeeds; no error and no change on an absent id; otherwise the error with no change |
| LegacyStore.BoltStore.constructor | agent/instance/store/bolt_store.go:26-32 | a new store over a freshly created bucket is empty and satisfies both invariants |
| LegacyStore.BoltStore.Add | agent/instance/store/bolt_store.go:34-65 | with no fault, both records are stored under `inst.Id`; an encoding failure or a failed transaction returns its error and leaves the bucket unchanged |
| LegacyStore.BoltStore.Remove | agent/instance/store/bolt_store.go:67-75 | deletes both records of `id`, stored or not, with no error; a failed transaction returns an error and changes nothing |
| LegacyStore.BoltStore.Get | agent/instance/store/bolt_store.go:77-100 | returns absent with no error exactly when `id` is not stored, otherwise that id's instance record, whose `Id` is `id` |
| LegacyStore.BoltStore.GetConfig | agent/instance/store/bolt_store.go:102-125 | returns absent with no error exactly when `id` is not stored, otherwise that id's config |

## Left out

- msgpack: treated as a codec that decodes what it encodes, so records are stored as
  values. The `Unmarshal` error branches of `Get`, `GetConfig` and `updateInstance` are
  unreachable in the model, because every sub-bucket holds what `Add` or `updateInstance`
  wrote. They are
  not modelled.
- Error values: Go's errors are reduced to `EncodeError` and `StorageError`. Their messages
  and wrapping are not kept.
- bolt internals: transactions, pages, file handling and the byte-sorted order of keys are
  not modelled. A transaction is a step that applies in full or not at all. `List` is not
  promised any order.
- `NewBoltStateStore` and `NewBoltStore` are modelled only on a database whose "instances"
  bucket they have just created. A database file that already holds records is not
  modelled, nor is the error of bucket creation.
- `Close`: plumbing; a closed database is covered only by the `TxFault` outcome.
- Concurrency: bolt runs one writer at a time, so the model performs one operation at a
  time.
- `Add` performs two `Put`s in one transaction. The model writes the pair in one step,
  because no reader can see the state between them.
- agent/instance/store/bolt_store.go refers to `instance.Instance` and `instance.Config`,
  which agent/instance/instances.go does not declare. The model gives that store the record
  types of agent/instance/state/instance.go.
- agent/instance/state/interface.go and agent/instance/store/interface.go hold signatures
  only. The HTTP layer (agent/api), the lifecycle manager and docker client
  (agent/instance/instances.go is a stub), and the bootstrap (agent/agent.go,
  cmd/agent/main.go) are not part of this model. The start/stop/remove state machine,
  per-instance locking and log streaming do not exist in the shown code.
- Strings are sequences of characters. Go's byte strings and UTF-8 play no part in what
  the store does with `DataDirectory`, `ServerJar`, `Args` or `ContainerId`.
- Instances.Status: only the four named constants are modelled. Go's `Status` is an open
  string type, and the store keeps any string it is given, so `SetStatus` with another
  string, such as "Stopped", has no counterpart in the model.
- StateStore.BoltStateStore.UpdateInstance: requires a mapper that keeps the instance's id.
  Go's `updateInstance` is unexported, and its only callers, `SetContainerId` and
  `SetStatus`, pass such mappers. A mapper that changed the id would leave a record under
  another id's key, which the model does not cover.
- Instances.WithStatusEffect: states that `StartTime` is set on `Starting` and is never
  cleared. It does not state the invariant in the field's comment (nil when not running),
  because the code does not keep it.
