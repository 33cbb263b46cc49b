/** Properties of the two lookups across registry growth: what a lookup
    finds keeps being found, and devices registered before a failed probe
    remain findable. */
module LookupProofs {
  import opened DeviceTree
  import opened OfPlatform
  import opened BusProofs
  import opened ProbeProofs

  /** Registering more devices never changes what a successful scan finds:
      the first match stays the first match. */
  lemma {:induction false} BusFindDeviceStable(reg: seq<Device>, ext: seq<Device>, found: Device -> bool, i: nat)
    requires reg <= ext
    requires i <= |reg|
    requires BusFindDevice(reg, found, i).Some?
    ensures BusFindDevice(ext, found, i) == BusFindDevice(reg, found, i)
    decreases |reg| - i
  {
    assert ext[i] == reg[i];
    if !(reg[i].bus == OfPlatformBus && found(reg[i])) {
      BusFindDeviceStable(reg, ext, found, i + 1);
    }
  }

  /** `of_find_device_by_node` keeps returning the same device as the
      registry grows. */
  lemma FindDeviceByNodeStable(reg: seq<Device>, ext: seq<Device>, np: NodeId)
    requires reg <= ext
    requires FindDeviceByNode(reg, np).Some?
    ensures FindDeviceByNode(ext, np) == FindDeviceByNode(reg, np)
  {
    BusFindDeviceStable(reg, ext, (d: Device) => d.ofNode == np, 0);
  }

  /** `of_find_device_by_phandle` keeps returning the same device as the
      registry grows. */
  lemma FindDevicePhandleStable(reg: seq<Device>, ext: seq<Device>, ph: Phandle)
    requires reg <= ext
    requires FindDeviceByPhandle(reg, ph).Some?
    ensures FindDeviceByPhandle(ext, ph) == FindDeviceByPhandle(reg, ph)
  {
    BusFindDeviceStable(reg, ext, (d: Device) => d.phandle == ph, 0);
  }

  /** A device found before any walk is found, unchanged, after it. */
  lemma ProbeKeepsLookups(o: Oracle, defaultIds: MatchTable, treeRoot: Node, root: Option<Node>,
                          matches: TableArg, parent: DevRef, st: State, np: NodeId)
    requires FindDeviceByNode(st.registry, np).Some?
    ensures FindDeviceByNode(Probe(o, defaultIds, treeRoot, root, matches, parent, st).st.registry, np)
         == FindDeviceByNode(st.registry, np)
  {
    FindDeviceByNodeStable(st.registry, Probe(o, defaultIds, treeRoot, root, matches, parent, st).st.registry, np);
  }

  /** Partial-failure persistence in the root-match branch: when the start
      node matches and gets its device, children 0..k-1 are handled
      without error and child k is not, the probe fails with -ENOMEM, yet
      every child before k has its device, hanging from the start node's
      device, and `of_find_device_by_node` finds one for it. */
  lemma ProbeEarlierChildrenFound(o: Oracle, defaultIds: MatchTable, treeRoot: Node, root: Option<Node>,
                                  matches: TableArg, t: MatchTable, parent: DevRef, st: State, k: nat, j: nat)
    requires ResolveTable(matches, defaultIds) == Table(t)
    requires Matches(t, StartNode(root, treeRoot)) && Creatable(o, StartNode(root, treeRoot))
    requires j < k < |StartNode(root, treeRoot).children|
    requires OkRange(o, t, StartNode(root, treeRoot), 0, k)
    requires !ChildOk(o, t, StartNode(root, treeRoot).children[k])
    ensures var r := Probe(o, defaultIds, treeRoot, root, matches, parent, st);
      var c := StartNode(root, treeRoot).children[j];
      && r.rc == -ENOMEM
      && PlatformDevice(c, Registered(|st.registry|)) in r.st.registry
      && FindDeviceByNode(r.st.registry, c.id).Some?
  {
    var start := StartNode(root, treeRoot);
    var st1 := SetRefs(st, NodeGet(st.refs, start.id));
    var made := DeviceCreate(o, st1, start, parent);
    var st0 := SetRefs(made.st, NextChild(made.st.refs, start, 0));
    BusLoopEarlierChildrenFound(o, t, start, Registered(|st.registry|), k, st0, j);
  }
}
