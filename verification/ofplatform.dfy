/** The platform-bus builder of arch/microblaze/kernel/of_platform.c:
    device creation, the recursive bus walk, the probe entry point and the
    two device lookups. Each operation is a pure function from a `State`
    (the registered devices and the node reference counts) to the state it
    leaves behind and the value it returns. */
module OfPlatform {
  import opened DeviceTree

  const ENOMEM: int := 12
  const EINVAL: int := 22

  /** The DMA mask every platform device starts with: the full 32-bit range. */
  const DMA_MASK_32: nat := 0xffff_ffff

  datatype Option<T> = None | Some(value: T)

  /** A `struct device *` used as a parent: NULL, a device this model does
      not create (a caller's own parent), or the device at an index of the
      registry. */
  datatype DevRef = NoParent | External(handle: nat) | Registered(index: nat)

  /** The bus a device is attached to: none yet (as `of_device_alloc`
      returns it), or `of_platform_bus_type`. */
  datatype BusKind = Unassigned | OfPlatformBus

  /** A `struct of_device`: its node, that node's phandle, its parent, its
      DMA mask and its bus. */
  datatype Device = Device(ofNode: NodeId, phandle: Phandle, parent: DevRef, dmaMask: nat, bus: BusKind)

  /** The registered devices, in registration order, and the node
      reference counts. */
  datatype State = State(registry: seq<Device>, refs: RefCounts)

  /** The outcome of allocation and registration, which this model cannot
      see into: the nodes for which `of_device_alloc` returns NULL, and
      those for which `of_device_register` fails. */
  datatype Oracle = Oracle(allocFails: set<NodeId>, registerFails: set<NodeId>)

  predicate Creatable(o: Oracle, n: Node) {
    n.id !in o.allocFails && n.id !in o.registerFails
  }

  /** What `of_platform_device_create` returns: the state after the call
      and the registry index of the new device, or None for NULL. */
  datatype Created = Created(st: State, dev: Option<nat>)

  /** The state after a walk and its return code. */
  datatype Walk = Walk(st: State, rc: int)

  /** The device a successful `of_platform_device_create(np, NULL, parent)`
      registers. */
  function PlatformDevice(np: Node, parent: DevRef): Device {
    Device(np.id, np.phandle, parent, DMA_MASK_32, OfPlatformBus)
  }

  /** `of_platform_device_create`. The device's reference on its node is
      taken by allocation and dropped again when an unregistered device is
      freed, so on failure nothing changes; on success the device, which
      keeps that reference, is appended to the registry. */
  function DeviceCreate(o: Oracle, st: State, np: Node, parent: DevRef): (r: Created)
    ensures r.dev.None? <==> !Creatable(o, np)
    ensures r.dev.None? ==> r.st == st
    ensures r.dev.Some? ==>
      && r.dev.value == |st.registry|
      && r.st.registry == st.registry + [PlatformDevice(np, parent)]
      && Refs(r.st.refs, np.id) == Refs(st.refs, np.id) + 1
      && forall n :: n != np.id ==> Refs(r.st.refs, n) == Refs(st.refs, n)
    ensures r.dev.Some? ==>
      var d := r.st.registry[|st.registry|];
      && d.ofNode == np.id && d.phandle == np.phandle && d.parent == parent
      && d.dmaMask == DMA_MASK_32 && d.bus == OfPlatformBus
  {
    if np.id in o.allocFails then
      Created(st, None)
    else
      var shell := Device(np.id, np.phandle, parent, 0, Unassigned);
      var dev := shell.(dmaMask := DMA_MASK_32, bus := OfPlatformBus);
      if np.id in o.registerFails then
        Created(st, None)
      else
        Created(State(st.registry + [dev], NodeGet(st.refs, np.id)), Some(|st.registry|))
  }

  function SetRefs(st: State, refs: RefCounts): State {
    st.(refs := refs)
  }

  /** `of_platform_bus_create(bus, t, parent)`: create a device for every
      child of `bus` and recurse into the children that match `t`. It
      never removes a registered device, and its return code is 0 or
      -ENOMEM. */
  function BusCreate(o: Oracle, t: MatchTable, bus: Node, parent: DevRef, st: State): (r: Walk)
    ensures st.registry <= r.st.registry
    ensures r.rc == 0 || r.rc == -ENOMEM
    decreases bus, 2
  {
    BusLoop(o, t, bus, parent, 0, SetRefs(st, NextChild(st.refs, bus, 0)))
  }

  /** The body of the `for_each_child_of_node` loop of
      `of_platform_bus_create` for the i-th child: the state it leaves and
      the value of `rc` at its end. */
  function BusChild(o: Oracle, t: MatchTable, bus: Node, parent: DevRef, i: nat, st: State): (r: Walk)
    requires i < |bus.children|
    ensures st.registry <= r.st.registry
    ensures r.rc == 0 || r.rc == -ENOMEM
    decreases bus, 0
  {
    var child := bus.children[i];
    var made := DeviceCreate(o, st, child, parent);
    if made.dev.None? then
      Walk(made.st, -ENOMEM)              // no match test, no recursion
    else if !Matches(t, child) then
      Walk(made.st, 0)                    // continue
    else
      BusCreate(o, t, child, Registered(made.dev.value), made.st)
  }

  /** The `for_each_child_of_node` loop of `of_platform_bus_create` from
      the i-th child on, entered holding the reference on that child. A
      nonzero `rc` drops that reference and breaks out; otherwise the loop
      advances to the next child. */
  function BusLoop(o: Oracle, t: MatchTable, bus: Node, parent: DevRef, i: nat, st: State): (r: Walk)
    requires i <= |bus.children|
    ensures st.registry <= r.st.registry
    ensures r.rc == 0 || r.rc == -ENOMEM
    decreases bus, 1, |bus.children| - i
  {
    if i == |bus.children| then
      Walk(st, 0)
    else
      var body := BusChild(o, t, bus, parent, i, st);
      if body.rc != 0 then
        Walk(SetRefs(body.st, NodePut(body.st.refs, bus.children[i].id)), body.rc)
      else
        BusLoop(o, t, bus, parent, i + 1, SetRefs(body.st, NextChild(body.st.refs, bus, i + 1)))
  }

  /** The `matches` argument of `of_platform_bus_probe`: NULL (use the
      default table), the `OF_NO_DEEP_PROBE` sentinel, or a table. */
  datatype TableArg = DefaultTable | NoDeepProbe | Table(entries: MatchTable)

  /** The body of the children-only loop of `of_platform_bus_probe` for
      the i-th child of `root`: a child that does not match is skipped;
      one that does gets a device and a bus walk below it. */
  function ProbeChild(o: Oracle, t: MatchTable, root: Node, parent: DevRef, i: nat, st: State): (r: Walk)
    requires i < |root.children|
    ensures st.registry <= r.st.registry
    ensures r.rc == 0 || r.rc == -ENOMEM
  {
    var child := root.children[i];
    if !Matches(t, child) then
      Walk(st, 0)                         // continue
    else
      var made := DeviceCreate(o, st, child, parent);
      if made.dev.None? then Walk(made.st, -ENOMEM)
      else BusCreate(o, t, child, Registered(made.dev.value), made.st)
  }

  /** The children-only loop of `of_platform_bus_probe`, from the i-th
      child of `root` on, entered holding the reference on that child. */
  function ProbeLoop(o: Oracle, t: MatchTable, root: Node, parent: DevRef, i: nat, st: State): (r: Walk)
    requires i <= |root.children|
    ensures st.registry <= r.st.registry
    ensures r.rc == 0 || r.rc == -ENOMEM
    decreases |root.children| - i
  {
    if i == |root.children| then
      Walk(st, 0)
    else
      var body := ProbeChild(o, t, root, parent, i, st);
      if body.rc != 0 then
        Walk(SetRefs(body.st, NodePut(body.st.refs, root.children[i].id)), body.rc)
      else
        ProbeLoop(o, t, root, parent, i + 1, SetRefs(body.st, NextChild(body.st.refs, root, i + 1)))
  }

  /** The table `of_platform_bus_probe` works with once NULL is replaced
      by the default table. */
  function ResolveTable(matches: TableArg, defaultIds: MatchTable): (r: TableArg)
    ensures r != DefaultTable
    ensures r.NoDeepProbe? <==> matches.NoDeepProbe?
    ensures matches.Table? ==> r == matches
    ensures matches.DefaultTable? ==> r.entries == defaultIds
  {
    if matches == DefaultTable then Table(defaultIds) else matches
  }

  /** The body of `of_platform_bus_probe` between taking the reference on
      `root` and the `bail` label. */
  function ProbeBody(o: Oracle, t: MatchTable, root: Node, parent: DevRef, st: State): (r: Walk)
    ensures st.registry <= r.st.registry
    ensures r.rc == 0 || r.rc == -ENOMEM
  {
    if Matches(t, root) then
      var made := DeviceCreate(o, st, root, parent);
      if made.dev.None? then Walk(made.st, -ENOMEM)
      else BusCreate(o, t, root, Registered(made.dev.value), made.st)
    else
      ProbeLoop(o, t, root, parent, 0, SetRefs(st, NextChild(st.refs, root, 0)))
  }

  /** The node the probe starts at: `root`, or the tree root for NULL. */
  function StartNode(root: Option<Node>, treeRoot: Node): Node {
    if root.Some? then root.value else treeRoot
  }

  /** `of_platform_bus_probe(root, matches, parent)`, where `treeRoot` is
      the node `of_find_node_by_path("/")` returns and `defaultIds` is
      `of_default_bus_ids`. The sentinel table fails with -EINVAL before
      anything is touched; otherwise one reference is taken on the root
      for the duration of the call and dropped at the end. */
  function Probe(o: Oracle, defaultIds: MatchTable, treeRoot: Node,
                 root: Option<Node>, matches: TableArg, parent: DevRef, st: State): (r: Walk)
    ensures r.rc == -EINVAL <==> matches == NoDeepProbe
    ensures r.rc == -EINVAL ==> r.st == st
    ensures r.rc == 0 || r.rc == -ENOMEM || r.rc == -EINVAL
    ensures st.registry <= r.st.registry
  {
    match ResolveTable(matches, defaultIds)
    case NoDeepProbe => Walk(st, -EINVAL)
    case Table(t) =>
      var start := StartNode(root, treeRoot);
      var body := ProbeBody(o, t, start, parent, SetRefs(st, NodeGet(st.refs, start.id)));
      Walk(SetRefs(body.st, NodePut(body.st.refs, start.id)), body.rc)
  }

  /** `bus_find_device(&of_platform_bus_type, NULL, data, found)` scanning
      the registry from index i: the first device on the platform bus that
      `found` accepts. */
  function BusFindDevice(reg: seq<Device>, found: Device -> bool, i: nat): (r: Option<nat>)
    requires i <= |reg|
    ensures r.Some? ==>
      && i <= r.value < |reg|
      && reg[r.value].bus == OfPlatformBus && found(reg[r.value])
      && forall j | i <= j < r.value :: !(reg[j].bus == OfPlatformBus && found(reg[j]))
    ensures r.None? <==> forall j | i <= j < |reg| :: !(reg[j].bus == OfPlatformBus && found(reg[j]))
    decreases |reg| - i
  {
    if i == |reg| then None
    else if reg[i].bus == OfPlatformBus && found(reg[i]) then Some(i)
    else BusFindDevice(reg, found, i + 1)
  }

  /** `of_find_device_by_node`: the first platform device whose node is
      `np`, or None when there is none. */
  function FindDeviceByNode(reg: seq<Device>, np: NodeId): (r: Option<nat>)
    ensures r.Some? ==>
      && r.value < |reg| && reg[r.value].bus == OfPlatformBus && reg[r.value].ofNode == np
      && forall j | 0 <= j < r.value :: !(reg[j].bus == OfPlatformBus && reg[j].ofNode == np)
    ensures r.None? <==> forall j | 0 <= j < |reg| :: !(reg[j].bus == OfPlatformBus && reg[j].ofNode == np)
  {
    BusFindDevice(reg, (d: Device) => d.ofNode == np, 0)
  }

  /** `of_find_device_by_phandle`: the first platform device whose node's
      phandle is `ph`, or None when there is none. */
  function FindDeviceByPhandle(reg: seq<Device>, ph: Phandle): (r: Option<nat>)
    ensures r.Some? ==>
      && r.value < |reg| && reg[r.value].bus == OfPlatformBus && reg[r.value].phandle == ph
      && forall j | 0 <= j < r.value :: !(reg[j].bus == OfPlatformBus && reg[j].phandle == ph)
    ensures r.None? <==> forall j | 0 <= j < |reg| :: !(reg[j].bus == OfPlatformBus && reg[j].phandle == ph)
  {
    BusFindDevice(reg, (d: Device) => d.phandle == ph, 0)
  }
}
