/** The sequences of calls the two stores' test files make, extended with a few steps of
    their own, with what the stores' contracts let a caller conclude after each call. */
module Scenarios {
  import opened Wrappers
  import opened Instances
  import opened Records
  import StateStore
  import LegacyStore

  /** Lookups on a fresh store, then add, read back, change the container id and remove, as
      the test file does; beyond it, a status change and a status change on a removed id. */
  method StateStoreScenario()
  {
    var s := new StateStore.BoltStateStore();
    assert s.Get(1238, NoFault) == Ok(None);

    var inst := Instance(69, Starting, None, "uwuId");
    var cfg := Config("/wtf", "paper.jar", ["-help"], 2342);
    var err := s.Add(inst, cfg, NoFault);
    assert err == None;
    LookupStored(map[], inst, cfg, 69);
    assert s.Get(69, NoFault) == Ok(Some(inst));
    assert s.GetConfig(69, NoFault) == Ok(Some(cfg));
    assert s.GetConfig(69, NoFault).value.value.args == ["-help"];

    ghost var before := s.instances;
    err := s.SetContainerId(69, "UwuUpdated", NoFault);
    assert err == None;
    ContainerIdSetEffect(before, 69, "UwuUpdated", 69);
    assert s.Get(69, NoFault).value.value.containerId == "UwuUpdated";
    assert s.Get(69, NoFault).value.value.status == Starting;

    before := s.instances;
    err := s.SetStatus(69, Running, 1000, NoFault);
    assert err == None;
    StatusSetEffect(before, 69, Running, 1000, 69);
    assert s.Get(69, NoFault).value.value.status.Name() == "Online";
    assert s.Get(69, NoFault).value.value.startTime == None;

    before := s.instances;
    err := s.Remove(69, NoFault);
    assert err == None;
    LookupDeleted(before, 69, 69);
    assert s.Get(69, NoFault) == Ok(None);

    // on an id that is gone, the setters return no error and change nothing
    before := s.instances;
    err := s.SetStatus(69, Starting, 2000, NoFault);
    assert err == None && s.instances == before;
  }

  /** The test file's sequence on the older store, with an `Add` whose encoding fails
      added before the removal. */
  method LegacyStoreScenario()
  {
    var s := new LegacyStore.BoltStore();
    assert s.Get(1238, NoFault) == Ok(None);

    var inst := Instance(69, Starting, None, "uwuId");
    var cfg := Config("/wtf", "paper.jar", ["-help"], 2342);
    var err := s.Add(inst, cfg, NoFault);
    assert err == None;
    LookupStored(map[], inst, cfg, 69);
    assert s.Get(69, NoFault) == Ok(Some(inst));
    assert s.GetConfig(69, NoFault) == Ok(Some(cfg));

    // an encoding failure leaves the store as it was
    ghost var before := s.instances;
    err := s.Add(inst.(id := 7), cfg, EncodeFault);
    assert err == Some(EncodeError) && s.instances == before;

    err := s.Remove(69, NoFault);
    assert err == None;
    LookupDeleted(before, 69, 69);
    assert s.Get(69, NoFault) == Ok(None);
  }
}
