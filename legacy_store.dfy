/** `BoltStore`: the older copy of the instance record store, with `Add`, `Remove`, `Get` and
    `GetConfig` only. Its bucket layout, keys and transactions are those of `BoltStateStore`. */
module LegacyStore {
  import opened Wrappers
  import opened Instances
  import opened Keys
  import opened Records

  class BoltStore {
    /** The contents of the database's "instances" bucket. */
    var instances: Table

    /** Every key in the bucket is one that `idToBytes` makes, and every record sits under
        the key of its own instance's id. */
    ghost predicate Valid()
      reads this
    {
      CanonicalKeys(instances) && KeyedById(instances)
    }

    /** `NewBoltStore` on a database whose "instances" bucket it has just created. */
    constructor ()
      ensures Valid()
      ensures instances == map[]
    {
      instances := map[];
    }

    /** Encodes both records, then writes them into the sub-bucket of `inst.Id` in one
        transaction, creating the sub-bucket or overwriting what it held. */
    method Add(inst: Instance, cfg: Config, fault: Fault) returns (err: Option<StoreError>)
      requires Valid()
      modifies this
      ensures Valid()
      ensures fault == NoFault ==> err == None && instances == Stored(old(instances), inst, cfg)
      ensures fault == EncodeFault ==> err == Some(EncodeError) && instances == old(instances)
      ensures TxFails(fault) ==> err == Some(StorageError) && instances == old(instances)
    {
      if fault == EncodeFault {
        return Some(EncodeError);
      }
      if TxFails(fault) {
        return Some(StorageError);
      }
      StoredKeepsInvariants(instances, inst, cfg);
      instances := instances[IdToBytes(inst.id) := Record(inst, cfg)];
      return None;
    }

    /** Deletes the sub-bucket of `id`; that the sub-bucket is missing is no error. */
    method Remove(id: Uint32, fault: Fault) returns (err: Option<StoreError>)
      requires Valid()
      modifies this
      ensures Valid()
      ensures !TxFails(fault) ==> err == None && instances == Deleted(old(instances), id)
      ensures TxFails(fault) ==> err == Some(StorageError) && instances == old(instances)
    {
      if TxFails(fault) {
        return Some(StorageError);
      }
      DeletedKeepsInvariants(instances, id);
      instances := instances - {IdToBytes(id)};
      return None;
    }

    /** The instance stored under `id`, or nothing, with no error, when there is none. */
    function Get(id: Uint32, fault: Fault): (r: Result<Option<Instance>, StoreError>)
      requires Valid()
      reads this
      ensures r.Err? <==> fault == TxFault
      ensures r.Err? ==> r.error == StorageError
      ensures r.Ok? ==> (r.value.Some? <==> Lookup(instances, id).Some?)
      ensures r.Ok? && r.value.Some? ==> r.value.value == Lookup(instances, id).value.instance
      ensures r.Ok? && r.value.Some? ==> r.value.value.id == id
    {
      if fault == TxFault then Err(StorageError)
      else
        var k := IdToBytes(id);
        if k !in instances then Ok(None)
        else
          IdToBytesInjective(id, instances[k].instance.id);
          Ok(Some(instances[k].instance))
    }

    /** The config stored under `id`, or nothing, with no error, when there is none. */
    function GetConfig(id: Uint32, fault: Fault): (r: Result<Option<Config>, StoreError>)
      reads this
      ensures r.Err? <==> fault == TxFault
      ensures r.Err? ==> r.error == StorageError
      ensures r.Ok? ==> (r.value.Some? <==> Lookup(instances, id).Some?)
      ensures r.Ok? && r.value.Some? ==> r.value.value == Lookup(instances, id).value.config
    {
      if fault == TxFault then Err(StorageError)
      else
        var k := IdToBytes(id);
        if k !in instances then Ok(None) else Ok(Some(instances[k].config))
    }
  }
}
