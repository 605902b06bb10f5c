/** `BoltStateStore`: the instance record store over a bolt database. Each operation is one
    bolt transaction, so it either applies in full or leaves the bucket as it was. */
module StateStore {
  import opened Wrappers
  import opened Instances
  import opened Keys
  import opened Records

  class BoltStateStore {
    /** The contents of the database's "instances" bucket. */
    var instances: Table

    /** Every key in the bucket is one that `idToBytes` makes, and every record sits under
        the key of its own instance's id. */
    ghost predicate Valid()
      reads this
    {
      CanonicalKeys(instances) && KeyedById(instances)
    }

    /** `NewBoltStateStore` on a database whose "instances" bucket it has just created. */
    constructor ()
      ensures Valid()
      ensures instances == map[]
    {
      instances := map[];
    }

    /** Encodes both records, then writes them into the sub-bucket of `inst.Id` in one
        transaction, creating the sub-bucket or overwriting what it held. */
    method Add(inst: Instance, cfg: Config, fault: Fault) returns (err: Option<StoreError>)
      requires Valid()
      modifies this
      ensures Valid()
      ensures fault == NoFault ==> err == None && instances == Stored(old(instances), inst, cfg)
      ensures fault == EncodeFault ==> err == Some(EncodeError) && instances == old(instances)
      ensures TxFails(fault) ==> err == Some(StorageError) && instances == old(instances)
    {
      if fault == EncodeFault {
        // msgpack.Marshal failed before the transaction began
        return Some(EncodeError);
      }
      if TxFails(fault) {
        // the transaction did not open, or rolled back
        return Some(StorageError);
      }
      StoredKeepsInvariants(instances, inst, cfg);
      var k := IdToBytes(inst.id);
      instances := instances[k := Record(inst, cfg)];
      return None;
    }

    /** Deletes the sub-bucket of `id`; that the sub-bucket is missing is no error. */
    method Remove(id: Uint32, fault: Fault) returns (err: Option<StoreError>)
      requires Valid()
      modifies this
      ensures Valid()
      ensures !TxFails(fault) ==> err == None && instances == Deleted(old(instances), id)
      ensures TxFails(fault) ==> err == Some(StorageError) && instances == old(instances)
    {
      if TxFails(fault) {
        return Some(StorageError);
      }
      DeletedKeepsInvariants(instances, id);
      // the error DeleteBucket reports for a missing sub-bucket is ignored
      instances := instances - {IdToBytes(id)};
      return None;
    }

    /** The instance stored under `id`, or nothing, with no error, when there is none. */
    function Get(id: Uint32, fault: Fault): (r: Result<Option<Instance>, StoreError>)
      requires Valid()
      reads this
      ensures r.Err? <==> fault == TxFault
      ensures r.Err? ==> r.error == StorageError
      ensures r.Ok? ==> (r.value.Some? <==> Lookup(instances, id).Some?)
      ensures r.Ok? && r.value.Some? ==> r.value.value == Lookup(instances, id).value.instance
      ensures r.Ok? && r.value.Some? ==> r.value.value.id == id
    {
      if fault == TxFault then Err(StorageError)
      else
        var k := IdToBytes(id);
        if k !in instances then Ok(None)
        else
          IdToBytesInjective(id, instances[k].instance.id);
          Ok(Some(instances[k].instance))
    }

    /** The config stored under `id`, or nothing, with no error, when there is none. */
    function GetConfig(id: Uint32, fault: Fault): (r: Result<Option<Config>, StoreError>)
      reads this
      ensures r.Err? <==> fault == TxFault
      ensures r.Err? ==> r.error == StorageError
      ensures r.Ok? ==> (r.value.Some? <==> Lookup(instances, id).Some?)
      ensures r.Ok? && r.value.Some? ==> r.value.value == Lookup(instances, id).value.config
    {
      if fault == TxFault then Err(StorageError)
      else
        var k := IdToBytes(id);
        if k !in instances then Ok(None) else Ok(Some(instances[k].config))
    }

    /** Walks the bucket's keys with a cursor and parses each one into an id. The ids come out
        in the cursor's order, which the model leaves open. */
    method List(fault: Fault) returns (r: Result<seq<Uint32>, StoreError>)
      requires Valid()
      ensures r.Err? <==> fault == TxFault
      ensures r.Err? ==> r.error == StorageError
      ensures r.Ok? ==> forall id :: id in r.value <==> Lookup(instances, id).Some?
      ensures r.Ok? ==> forall i, j :: 0 <= i < j < |r.value| ==> r.value[i] != r.value[j]
      ensures r.Ok? ==> |r.value| == |instances|
    {
      if fault == TxFault {
        return Err(StorageError);
      }
      var ids: seq<Uint32> := [];
      var unvisited := instances.Keys;
      ghost var visited: set<Key> := {};
      while unvisited != {}
        invariant unvisited <= instances.Keys
        invariant visited == instances.Keys - unvisited
        invariant |ids| == |visited|
        invariant forall id :: id in ids <==> IdToBytes(id) in visited
        invariant forall i, j :: 0 <= i < j < |ids| ==> ids[i] != ids[j]
        decreases unvisited
      {
        var k :| k in unvisited;
        var id := IdFromBytes(k);
        KeyNamesOneId(instances, k);
        ids := ids + [id];
        unvisited := unvisited - {k};
        visited := visited + {k};
      }
      assert |instances.Keys| == |instances|;
      return Ok(ids);
    }

    /** Reads the instance record of `id`, applies `mapper` to it and writes it back, in one
        transaction. When `id` has no sub-bucket nothing is written and no error returned.
        Both callers pass a mapper that keeps the instance's id. */
    method UpdateInstance(id: Uint32, mapper: Instance -> Instance, fault: Fault)
      returns (err: Option<StoreError>)
      requires Valid()
      requires forall i :: mapper(i).id == i.id
      modifies this
      ensures Valid()
      ensures fault == TxFault ==> err == Some(StorageError) && instances == old(instances)
      ensures fault != TxFault && Lookup(old(instances), id).None? ==>
                err == None && instances == old(instances)
      ensures Lookup(old(instances), id).Some? ==>
                && (fault == NoFault ==> err == None && instances == Updated(old(instances), id, mapper))
                && (fault == EncodeFault ==> err == Some(EncodeError) && instances == old(instances))
                && (fault == WriteFault ==> err == Some(StorageError) && instances == old(instances))
    {
      if fault == TxFault {
        return Some(StorageError);
      }
      var k := IdToBytes(id);
      if k !in instances {
        // errNotFound is swallowed
        return None;
      }
      var i := instances[k].instance;
      i := mapper(i);
      if fault == EncodeFault {
        return Some(EncodeError);
      }
      if fault == WriteFault {
        return Some(StorageError);
      }
      UpdatedKeepsInvariants(instances, id, mapper);
      instances := instances[k := instances[k].(instance := i)];
      return None;
    }

    /** Replaces the container id of instance `id`. */
    method SetContainerId(id: Uint32, containerId: string, fault: Fault) returns (err: Option<StoreError>)
      requires Valid()
      modifies this
      ensures Valid()
      ensures fault == TxFault ==> err == Some(StorageError) && instances == old(instances)
      ensures fault != TxFault && Lookup(old(instances), id).None? ==>
                err == None && instances == old(instances)
      ensures Lookup(old(instances), id).Some? ==>
                && (fault == NoFault ==> err == None && instances == ContainerIdSet(old(instances), id, containerId))
                && (fault == EncodeFault ==> err == Some(EncodeError) && instances == old(instances))
                && (fault == WriteFault ==> err == Some(StorageError) && instances == old(instances))
    {
      err := UpdateInstance(id, (i: Instance) => WithContainerId(i, containerId), fault);
    }

    /** Replaces the status of instance `id` and, when the new status is `Starting`, sets its
        start time to `now`, the time the caller read from the clock. */
    method SetStatus(id: Uint32, status: Status, now: Time, fault: Fault) returns (err: Option<StoreError>)
      requires Valid()
      modifies this
      ensures Valid()
      ensures fault == TxFault ==> err == Some(StorageError) && instances == old(instances)
      ensures fault != TxFault && Lookup(old(instances), id).None? ==>
                err == None && instances == old(instances)
      ensures Lookup(old(instances), id).Some? ==>
                && (fault == NoFault ==> err == None && instances == StatusSet(old(instances), id, status, now))
                && (fault == EncodeFault ==> err == Some(EncodeError) && instances == old(instances))
                && (fault == WriteFault ==> err == Some(StorageError) && instances == old(instances))
    {
      err := UpdateInstance(id, (i: Instance) => WithStatus(i, status, now), fault);
    }
  }
}
