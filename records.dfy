/** The "instances" bucket as a value, and what each store operation does to it.

    In bolt the bucket holds one sub-bucket per instance, named by the key of the instance's
    id, and each sub-bucket holds two entries: "instance", the msgpack encoding of the
    Instance, and "config", that of its Config. With msgpack taken as a codec that decodes
    what it encodes, a sub-bucket is the pair of records it encodes, so the bucket is a map
    from keys to such pairs. Both store files lay their data out this way. */
module Records {
  import opened Wrappers
  import opened Instances
  import opened Keys

  /** The contents of one instance's sub-bucket. */
  datatype Record = Record(instance: Instance, config: Config)

  /** The contents of the "instances" bucket. */
  type Table = map<Key, Record>

  /** What the foreign code an operation calls (msgpack and bolt) does on one call. The
      model runs neither, so the caller supplies the outcome. */
  datatype Fault =
    | NoFault      // every call succeeds
    | EncodeFault  // msgpack.Marshal reports an error
    | TxFault      // bolt reports an error when opening the transaction
    | WriteFault   // a bucket creation, a Put or the commit reports an error

  /** The errors a store operation returns. */
  datatype StoreError = EncodeError | StorageError

  /** Whether a read-write transaction fails, whether at its start or at a write. */
  predicate TxFails(f: Fault)
  {
    f == TxFault || f == WriteFault
  }

  /** Every key is the rendering of the id it parses to, as the keys `idToBytes` makes are. */
  ghost predicate CanonicalKeys(t: Table)
  {
    forall k :: k in t ==> IdToBytes(IdFromBytes(k)) == k
  }

  /** Every record's instance has the id its key parses to; with canonical keys, every record
      sits under the key of its own instance's id. */
  ghost predicate KeyedById(t: Table)
  {
    forall k :: k in t ==> t[k].instance.id == IdFromBytes(k)
  }

  /** A key of a bucket with canonical keys names exactly one id: the one it parses to. */
  lemma KeyNamesOneId(t: Table, k: Key)
    requires CanonicalKeys(t) && k in t
    ensures forall id :: IdToBytes(id) == k <==> id == IdFromBytes(k)
  {
    forall id ensures IdToBytes(id) == k ==> id == IdFromBytes(k) {
      IdToBytesInjective(id, IdFromBytes(k));
    }
  }

  /** The sub-bucket of instance `id`, if there is one. */
  function Lookup(t: Table, id: Uint32): Option<Record>
  {
    var k := IdToBytes(id);
    if k in t then Some(t[k]) else None
  }

  /** `Add`'s transaction: the sub-bucket of `inst.Id`, created if missing, receives both
      records. */
  function Stored(t: Table, inst: Instance, cfg: Config): Table
  {
    t[IdToBytes(inst.id) := Record(inst, cfg)]
  }

  /** `Remove`'s transaction: the sub-bucket of `id` is deleted, if there is one. */
  function Deleted(t: Table, id: Uint32): Table
  {
    t - {IdToBytes(id)}
  }

  /** `updateInstance`'s transaction: if instance `id` is stored, its instance record is
      replaced by what `mapper` makes of it; its config stays. */
  function Updated(t: Table, id: Uint32, mapper: Instance -> Instance): Table
  {
    var k := IdToBytes(id);
    if k in t then t[k := t[k].(instance := mapper(t[k].instance))] else t
  }

  /** `SetContainerId`'s transaction. */
  function ContainerIdSet(t: Table, id: Uint32, containerId: string): Table
  {
    Updated(t, id, (i: Instance) => WithContainerId(i, containerId))
  }

  /** `SetStatus`'s transaction, at time `now`. */
  function StatusSet(t: Table, id: Uint32, status: Status, now: Time): Table
  {
    Updated(t, id, (i: Instance) => WithStatus(i, status, now))
  }

  // ----- Lookups after each transaction -----

  /** A bucket just created holds no instance. */
  lemma LookupEmpty(id: Uint32)
    ensures Lookup(map[], id) == None
  {
  }

  /** After `Add`, the added instance's id finds exactly the two records added; every other
      id finds what it found before. */
  lemma LookupStored(t: Table, inst: Instance, cfg: Config, id: Uint32)
    ensures Lookup(Stored(t, inst, cfg), id)
         == if id == inst.id then Some(Record(inst, cfg)) else Lookup(t, id)
  {
    IdToBytesInjective(id, inst.id);
  }

  /** A second `Add` with the same id replaces both records of the first. */
  lemma StoredOverwrites(t: Table, first: Instance, firstCfg: Config, second: Instance, secondCfg: Config)
    requires first.id == second.id
    ensures Stored(Stored(t, first, firstCfg), second, secondCfg) == Stored(t, second, secondCfg)
  {
  }

  /** After `Remove`, the removed id finds nothing; every other id finds what it found before. */
  lemma LookupDeleted(t: Table, removed: Uint32, id: Uint32)
    ensures Lookup(Deleted(t, removed), id) == if id == removed then None else Lookup(t, id)
  {
    IdToBytesInjective(id, removed);
  }

  /** Removing an id that is not stored changes nothing. */
  lemma DeletedAbsent(t: Table, id: Uint32)
    requires Lookup(t, id).None?
    ensures Deleted(t, id) == t
  {
  }

  /** `Remove` undoes `Add` of an id that was not stored before. */
  lemma DeletedUndoesStored(t: Table, inst: Instance, cfg: Config)
    requires Lookup(t, inst.id).None?
    ensures Deleted(Stored(t, inst, cfg), inst.id) == t
  {
    assert Stored(t, inst, cfg).Keys - {IdToBytes(inst.id)} == t.Keys;
  }

  /** After `updateInstance`, the updated id, if it was stored, finds the mapped instance
      beside the unchanged config; every other id finds what it found before. */
  lemma LookupUpdated(t: Table, updated: Uint32, mapper: Instance -> Instance, id: Uint32)
    ensures Lookup(Updated(t, updated, mapper), id)
         == if id == updated && Lookup(t, id).Some?
            then Some(Record(mapper(Lookup(t, id).value.instance), Lookup(t, id).value.config))
            else Lookup(t, id)
  {
    IdToBytesInjective(id, updated);
  }

  /** `updateInstance` on an id that is not stored changes nothing. */
  lemma UpdatedAbsent(t: Table, id: Uint32, mapper: Instance -> Instance)
    requires Lookup(t, id).None?
    ensures Updated(t, id, mapper) == t
  {
  }

  /** `SetContainerId` changes the container id of its instance and nothing else: not that
      instance's id, status, start time or config, and no other id's records. */
  lemma ContainerIdSetEffect(t: Table, target: Uint32, containerId: string, id: Uint32)
    ensures var before, after := Lookup(t, id), Lookup(ContainerIdSet(t, target, containerId), id);
      && (after.Some? <==> before.Some?)
      && (id != target ==> after == before)
      && (id == target && before.Some? ==>
            && after.value.instance.containerId == containerId
            && after.value.instance.id == before.value.instance.id
            && after.value.instance.status == before.value.instance.status
            && after.value.instance.startTime == before.value.instance.startTime
            && after.value.config == before.value.config)
  {
    LookupUpdated(t, target, (i: Instance) => WithContainerId(i, containerId), id);
  }

  /** `SetStatus` sets the status of its instance, sets its start time to `now` exactly when the
      new status is `Starting` and leaves it alone otherwise; the instance's id, container id
      and config, and every other id's records, are unchanged. */
  lemma StatusSetEffect(t: Table, target: Uint32, status: Status, now: Time, id: Uint32)
    ensures var before, after := Lookup(t, id), Lookup(StatusSet(t, target, status, now), id);
      && (after.Some? <==> before.Some?)
      && (id != target ==> after == before)
      && (id == target && before.Some? ==>
            && after.value.instance.status == status
            && after.value.instance.startTime
               == (if status == Starting then Some(now) else before.value.instance.startTime)
            && after.value.instance.id == before.value.instance.id
            && after.value.instance.containerId == before.value.instance.containerId
            && after.value.config == before.value.config)
  {
    LookupUpdated(t, target, (i: Instance) => WithStatus(i, status, now), id);
  }

  /** After `SetStatus(Starting)` on a stored instance, its start time is present. */
  lemma StartingStampsStartTime(t: Table, id: Uint32, now: Time)
    requires Lookup(t, id).Some?
    ensures Lookup(StatusSet(t, id, Starting, now), id).Some?
    ensures Lookup(StatusSet(t, id, Starting, now), id).value.instance.startTime == Some(now)
  {
    StatusSetEffect(t, id, Starting, now, id);
  }

  // ----- The invariants each transaction keeps -----

  lemma StoredKeepsInvariants(t: Table, inst: Instance, cfg: Config)
    ensures CanonicalKeys(t) ==> CanonicalKeys(Stored(t, inst, cfg))
    ensures KeyedById(t) ==> KeyedById(Stored(t, inst, cfg))
    ensures Stored(t, inst, cfg).Keys == t.Keys + {IdToBytes(inst.id)}
  {
    IdFromBytesRoundTrip(inst.id);
  }

  lemma DeletedKeepsInvariants(t: Table, id: Uint32)
    ensures CanonicalKeys(t) ==> CanonicalKeys(Deleted(t, id))
    ensures KeyedById(t) ==> KeyedById(Deleted(t, id))
    ensures Deleted(t, id).Keys == t.Keys - {IdToBytes(id)}
  {
  }

  /** `updateInstance` keeps the keys; it keeps every record under its own id's key when the
      mapper does not change the id. */
  lemma UpdatedKeepsInvariants(t: Table, id: Uint32, mapper: Instance -> Instance)
    ensures Updated(t, id, mapper).Keys == t.Keys
    ensures CanonicalKeys(t) ==> CanonicalKeys(Updated(t, id, mapper))
    ensures KeyedById(t) && (forall i :: mapper(i).id == i.id) ==> KeyedById(Updated(t, id, mapper))
  {
  }
}
