/** A worked example: a probe over a small tree whose root matches the
    table, with one non-matching and one matching child. */
module Scenario {
  import opened DeviceTree
  import opened OfPlatform
  import opened BusProofs
  import opened ProbeProofs

  const Uart0: Node := Node(2, "uart0", "serial", ["ns16550"], 5, [])
  const Dev0: Node := Node(4, "dev0", "", ["acme,widget"], 9, [])
  const Bridge: Node := Node(3, "bridge", "", ["simple-bus"], 7, [Dev0])
  const Soc: Node := Node(1, "soc", "soc", [], 0, [Uart0, Bridge])

  /** Matches nodes of type "soc" and nodes compatible with "simple-bus". */
  const BusIds: MatchTable := [MatchId("", "soc", ""), MatchId("", "", "simple-bus"), MatchId("", "", "")]

  const NoFailures: Oracle := Oracle({}, {})

  /** The registry the probe is expected to leave behind. */
  const Expected: seq<Device> := [PlatformDevice(Soc, NoParent), PlatformDevice(Uart0, Registered(0)),
                                  PlatformDevice(Bridge, Registered(0)), PlatformDevice(Dev0, Registered(2))]

  function SocRun(): Walk {
    Probe(NoFailures, [], Soc, Some(Soc), Table(BusIds), NoParent, State([], map[]))
  }

  lemma TableFacts()
    ensures Matches(BusIds, Soc) && Matches(BusIds, Bridge)
    ensures !Matches(BusIds, Uart0) && !Matches(BusIds, Dev0)
  {
    assert EntryMatches(BusIds[0], Soc);
    assert EntryMatches(BusIds[1..][0], Bridge);
    assert BusIds[1..][1..][0] == MatchId("", "", "");
  }

  lemma NothingFails()
    ensures ProbeOk(NoFailures, BusIds, Soc)
  {
    TableFacts();
    assert ChildOk(NoFailures, BusIds, Dev0);
    assert OkRange(NoFailures, BusIds, Bridge, 1, 1);
    assert OkRange(NoFailures, BusIds, Bridge, 0, 1);
    assert ChildOk(NoFailures, BusIds, Bridge);
    assert ChildOk(NoFailures, BusIds, Uart0);
    assert OkRange(NoFailures, BusIds, Soc, 1, 2);
    assert OkRange(NoFailures, BusIds, Soc, 0, 2);
  }

  /** Probing from /soc with nothing failing returns 0 and registers /soc,
      then both of its children hanging from it (uart0 although it does
      not match), then dev0 hanging from the bridge. */
  lemma SocProbeRegisters()
    ensures SocRun().rc == 0 && SocRun().st.registry == Expected
  {
    TableFacts();
    NothingFails();
    ProbeMaterializes(NoFailures, [], Soc, Some(Soc), Table(BusIds), BusIds, NoParent, State([], map[]));
    var dev0 := PlatformDevice(Dev0, Registered(2));
    assert Materialized(BusIds, Dev0, 0, 0, Registered(3), 4) == [];
    assert Share(BusIds, Dev0, Registered(2), 3) == [dev0];
    assert Materialized(BusIds, Bridge, 1, 1, Registered(2), 4) == [];
    assert Materialized(BusIds, Bridge, 0, 1, Registered(2), 3) == [dev0];
    assert Share(BusIds, Bridge, Registered(0), 2) == [PlatformDevice(Bridge, Registered(0)), dev0];
    assert Materialized(BusIds, Soc, 2, 2, Registered(0), 4) == [];
    assert Materialized(BusIds, Soc, 1, 2, Registered(0), 2) == [PlatformDevice(Bridge, Registered(0)), dev0];
    assert Share(BusIds, Uart0, Registered(0), 1) == [PlatformDevice(Uart0, Registered(0))];
    assert Materialized(BusIds, Soc, 0, 2, Registered(0), 1) == Expected[1..];
  }

  /** The phandle lookup finds the bridge's device for 7 and nothing for 42. */
  lemma SocLookups()
    ensures FindDeviceByPhandle(SocRun().st.registry, 7) == Some(2)
    ensures FindDeviceByPhandle(SocRun().st.registry, 42) == None
  {
    SocProbeRegisters();
  }

  /** Every node ends with exactly the one reference its device holds. */
  lemma SocReferences()
    ensures forall n :: Refs(SocRun().st.refs, n) == (if 1 <= n <= 4 then 1 else 0)
  {
    SocProbeRegisters();
    ProbeBalance(NoFailures, [], Soc, Some(Soc), Table(BusIds), NoParent, State([], map[]));
    forall n ensures Occ(Expected, n) == (if 1 <= n <= 4 then 1 else 0) {
      var e: seq<Device> := [];
      OccAppendOne(e, Expected[0], n);
      OccAppendOne(e + [Expected[0]], Expected[1], n);
      OccAppendOne(e + [Expected[0]] + [Expected[1]], Expected[2], n);
      OccAppendOne(e + [Expected[0]] + [Expected[1]] + [Expected[2]], Expected[3], n);
      assert e + [Expected[0]] + [Expected[1]] + [Expected[2]] + [Expected[3]] == Expected;
    }
  }
}
