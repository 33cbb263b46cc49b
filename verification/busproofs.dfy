/** Properties of the platform-bus builder: reference balance, when a walk
    succeeds, what a failure-free walk registers, where a failing walk
    stops, and which nodes a walk can reach. The reference definitions
    here (`ChildOk`, `Share`, `Materialized`, `Descendants`, ...) describe
    outcomes without threading any state; each lemma ties the stateful
    functions of `OfPlatform` to them. */
module BusProofs {
  import opened DeviceTree
  import opened OfPlatform

  /** Moving a middle piece from the end of the left part to the front of
      the right part leaves the concatenation unchanged. */
  lemma ConcatShift<T>(before: seq<T>, after: seq<T>, head: seq<T>, tail: seq<T>, whole: seq<T>)
    requires after == before + head
    requires whole == head + tail
    ensures after + tail == before + whole
  {
    assert (before + head) + tail == before + (head + tail);
  }

  // ---------------------------------------------------------------------
  // Reference balance

  /** The number of registered devices whose node is `n`: each holds one
      reference on that node. */
  function Occ(reg: seq<Device>, n: NodeId): nat {
    if |reg| == 0 then 0
    else Occ(reg[..|reg| - 1], n) + (if reg[|reg| - 1].ofNode == n then 1 else 0)
  }

  lemma OccAppendOne(reg: seq<Device>, d: Device, n: NodeId)
    ensures Occ(reg + [d], n) == Occ(reg, n) + (if d.ofNode == n then 1 else 0)
  {
    assert (reg + [d])[..|reg|] == reg;
  }

  /** Between `before` and `after`, every change of a node's reference
      count is matched by a change in the number of devices holding that
      node: all other references taken in between were dropped again. */
  ghost predicate Balanced(before: State, after: State) {
    forall n :: Refs(after.refs, n) - Occ(after.registry, n) == Refs(before.refs, n) - Occ(before.registry, n)
  }

  /** `of_platform_device_create` changes a count only through the
      reference the new device holds. */
  lemma CreateBalance(o: Oracle, st: State, np: Node, parent: DevRef)
    ensures Balanced(st, DeviceCreate(o, st, np, parent).st)
  {
    var made := DeviceCreate(o, st, np, parent);
    if made.dev.Some? {
      forall n ensures Occ(made.st.registry, n) == Occ(st.registry, n) + (if n == np.id then 1 else 0) {
        OccAppendOne(st.registry, PlatformDevice(np, parent), n);
      }
    }
  }

  /** `of_platform_bus_create` leaves every node's count changed only by
      the devices it registered for that node. */
  lemma {:induction false} BusCreateBalance(o: Oracle, t: MatchTable, bus: Node, parent: DevRef, st: State)
    ensures Balanced(st, BusCreate(o, t, bus, parent, st).st)
    decreases bus, 2
  {
    BusLoopBalance(o, t, bus, parent, 0, SetRefs(st, NextChild(st.refs, bus, 0)));
  }

  /** The loop from child i on, entered holding the reference on child i,
      ends holding no child reference, whether it runs to the end or
      breaks out. */
  lemma {:induction false} BusLoopBalance(o: Oracle, t: MatchTable, bus: Node, parent: DevRef, i: nat, st: State)
    requires i <= |bus.children|
    ensures var r := BusLoop(o, t, bus, parent, i, st);
      forall n :: Refs(r.st.refs, n) - Occ(r.st.registry, n) == Refs(st.refs, n) - Occ(st.registry, n) - HeldChild(bus, i, n)
    decreases bus, 1, |bus.children| - i
  {
    if i < |bus.children| {
      var body := BusChild(o, t, bus, parent, i, st);
      BusChildBalance(o, t, bus, parent, i, st);
      if body.rc == 0 {
        BusLoopBalance(o, t, bus, parent, i + 1, SetRefs(body.st, NextChild(body.st.refs, bus, i + 1)));
      }
    }
  }

  lemma {:induction false} BusChildBalance(o: Oracle, t: MatchTable, bus: Node, parent: DevRef, i: nat, st: State)
    requires i < |bus.children|
    ensures Balanced(st, BusChild(o, t, bus, parent, i, st).st)
    decreases bus, 0
  {
    var child := bus.children[i];
    var made := DeviceCreate(o, st, child, parent);
    CreateBalance(o, st, child, parent);
    if made.dev.Some? && Matches(t, child) {
      BusCreateBalance(o, t, child, Registered(made.dev.value), made.st);
    }
  }

  lemma ProbeChildBalance(o: Oracle, t: MatchTable, root: Node, parent: DevRef, i: nat, st: State)
    requires i < |root.children|
    ensures Balanced(st, ProbeChild(o, t, root, parent, i, st).st)
  {
    var child := root.children[i];
    if Matches(t, child) {
      var made := DeviceCreate(o, st, child, parent);
      CreateBalance(o, st, child, parent);
      if made.dev.Some? {
        BusCreateBalance(o, t, child, Registered(made.dev.value), made.st);
      }
    }
  }

  lemma {:induction false} ProbeLoopBalance(o: Oracle, t: MatchTable, root: Node, parent: DevRef, i: nat, st: State)
    requires i <= |root.children|
    ensures var r := ProbeLoop(o, t, root, parent, i, st);
      forall n :: Refs(r.st.refs, n) - Occ(r.st.registry, n) == Refs(st.refs, n) - Occ(st.registry, n) - HeldChild(root, i, n)
    decreases |root.children| - i
  {
    if i < |root.children| {
      var body := ProbeChild(o, t, root, parent, i, st);
      ProbeChildBalance(o, t, root, parent, i, st);
      if body.rc == 0 {
        ProbeLoopBalance(o, t, root, parent, i + 1, SetRefs(body.st, NextChild(body.st.refs, root, i + 1)));
      }
    }
  }

  lemma ProbeBodyBalance(o: Oracle, t: MatchTable, root: Node, parent: DevRef, st: State)
    ensures Balanced(st, ProbeBody(o, t, root, parent, st).st)
  {
    if Matches(t, root) {
      var made := DeviceCreate(o, st, root, parent);
      CreateBalance(o, st, root, parent);
      if made.dev.Some? {
        BusCreateBalance(o, t, root, Registered(made.dev.value), made.st);
      }
    } else {
      var st0 := SetRefs(st, NextChild(st.refs, root, 0));
      ProbeLoopBalance(o, t, root, parent, 0, st0);
      var r := ProbeLoop(o, t, root, parent, 0, st0);
      forall n ensures Refs(r.st.refs, n) - Occ(r.st.registry, n) == Refs(st.refs, n) - Occ(st.registry, n) {
        assert Refs(st0.refs, n) == Refs(st.refs, n) + HeldChild(root, 0, n);
      }
    }
  }

  /** `of_platform_bus_probe` releases every reference it takes, on every
      path: the reference on the root, the iteration references, and the
      one on a child it breaks out at. Only the references the new devices
      hold remain. */
  lemma ProbeBalance(o: Oracle, defaultIds: MatchTable, treeRoot: Node,
                     root: Option<Node>, matches: TableArg, parent: DevRef, st: State)
    ensures Balanced(st, Probe(o, defaultIds, treeRoot, root, matches, parent, st).st)
  {
    match ResolveTable(matches, defaultIds)
    case NoDeepProbe =>
    case Table(t) =>
      var start := StartNode(root, treeRoot);
      var st1 := SetRefs(st, NodeGet(st.refs, start.id));
      var body := ProbeBody(o, t, start, parent, st1);
      ProbeBodyBalance(o, t, start, parent, st1);
      var fin := SetRefs(body.st, NodePut(body.st.refs, start.id));
      assert Probe(o, defaultIds, treeRoot, root, matches, parent, st).st == fin;
      forall n ensures Refs(fin.refs, n) - Occ(fin.registry, n) == Refs(st.refs, n) - Occ(st.registry, n) {
        assert Refs(body.st.refs, n) - Occ(body.st.registry, n) == Refs(st1.refs, n) - Occ(st1.registry, n);
      }
  }

  // ---------------------------------------------------------------------
  // When a walk succeeds

  /** A child of a bus is handled without error: its device can be
      created and, if it matches, the walk below it succeeds. */
  predicate ChildOk(o: Oracle, t: MatchTable, c: Node)
    decreases c, 1
  {
    Creatable(o, c) && (Matches(t, c) ==> OkRange(o, t, c, 0, |c.children|))
  }

  /** Children lo..hi-1 of `bus` are all handled without error. */
  predicate OkRange(o: Oracle, t: MatchTable, bus: Node, lo: nat, hi: nat)
    requires lo <= hi <= |bus.children|
    decreases bus, 0, hi - lo
  {
    lo == hi || (ChildOk(o, t, bus.children[lo]) && OkRange(o, t, bus, lo + 1, hi))
  }

  /** `of_platform_bus_create` returns 0 exactly when no device creation
      fails anywhere in the part of the tree it walks. */
  lemma {:induction false} BusCreateSucceedsIff(o: Oracle, t: MatchTable, bus: Node, parent: DevRef, st: State)
    ensures BusCreate(o, t, bus, parent, st).rc == 0 <==> OkRange(o, t, bus, 0, |bus.children|)
    decreases bus, 2
  {
    BusLoopSucceedsIff(o, t, bus, parent, 0, SetRefs(st, NextChild(st.refs, bus, 0)));
  }

  lemma {:induction false} BusLoopSucceedsIff(o: Oracle, t: MatchTable, bus: Node, parent: DevRef, i: nat, st: State)
    requires i <= |bus.children|
    ensures BusLoop(o, t, bus, parent, i, st).rc == 0 <==> OkRange(o, t, bus, i, |bus.children|)
    decreases bus, 1, |bus.children| - i
  {
    if i < |bus.children| {
      var body := BusChild(o, t, bus, parent, i, st);
      BusChildSucceedsIff(o, t, bus, parent, i, st);
      if body.rc == 0 {
        BusLoopSucceedsIff(o, t, bus, parent, i + 1, SetRefs(body.st, NextChild(body.st.refs, bus, i + 1)));
      }
    }
  }

  /** The loop body for a child ends with rc == 0 exactly when the child
      is handled without error. */
  lemma {:induction false} BusChildSucceedsIff(o: Oracle, t: MatchTable, bus: Node, parent: DevRef, i: nat, st: State)
    requires i < |bus.children|
    ensures BusChild(o, t, bus, parent, i, st).rc == 0 <==> ChildOk(o, t, bus.children[i])
    decreases bus, 0
  {
    var child := bus.children[i];
    var made := DeviceCreate(o, st, child, parent);
    if made.dev.Some? && Matches(t, child) {
      BusCreateSucceedsIff(o, t, child, Registered(made.dev.value), made.st);
    }
  }

  // ---------------------------------------------------------------------
  // What a failure-free walk registers

  /** The devices a failure-free walk registers for one child `c` of a
      bus, when the first lands at registry index `base`: the child's own
      device, parented at `parent`, followed, when the child matches, by
      the devices of its children, parented at it. */
  function Share(t: MatchTable, c: Node, parent: DevRef, base: nat): seq<Device>
    decreases c, 1
  {
    [PlatformDevice(c, parent)]
      + (if Matches(t, c) then Materialized(t, c, 0, |c.children|, Registered(base), base + 1) else [])
  }

  /** The devices a failure-free walk over children lo..hi-1 of `bus`
      registers, in order, when the first lands at registry index `base`. */
  function Materialized(t: MatchTable, bus: Node, lo: nat, hi: nat, parent: DevRef, base: nat): seq<Device>
    requires lo <= hi <= |bus.children|
    decreases bus, 0, hi - lo
  {
    if lo == hi then []
    else
      var head := Share(t, bus.children[lo], parent, base);
      head + Materialized(t, bus, lo + 1, hi, parent, base + |head|)
  }

  /** The state the loop of `of_platform_bus_create` is in when it reaches
      child k from child i, if every body in between ends with rc == 0. */
  function LoopStateAt(o: Oracle, t: MatchTable, bus: Node, parent: DevRef, i: nat, k: nat, st: State): State
    requires i <= k <= |bus.children|
    decreases k - i
  {
    if i == k then st
    else
      var body := BusChild(o, t, bus, parent, i, st);
      LoopStateAt(o, t, bus, parent, i + 1, k, SetRefs(body.st, NextChild(body.st.refs, bus, i + 1)))
  }

  /** When nothing fails, `of_platform_bus_create` registers exactly the
      devices `Materialized` lists (one per child, subtrees of matching
      children parented at that child's device) and returns 0. */
  lemma {:induction false} BusCreateMaterializes(o: Oracle, t: MatchTable, bus: Node, parent: DevRef, st: State)
    requires OkRange(o, t, bus, 0, |bus.children|)
    ensures var r := BusCreate(o, t, bus, parent, st);
      r.rc == 0 && r.st.registry == st.registry + Materialized(t, bus, 0, |bus.children|, parent, |st.registry|)
    decreases bus, 2
  {
    var st0 := SetRefs(st, NextChild(st.refs, bus, 0));
    BusLoopReaches(o, t, bus, parent, 0, |bus.children|, st0);
    LoopStateAtRegistry(o, t, bus, parent, 0, |bus.children|, st0);
  }

  /** The loop body for a child that is handled without error registers
      that child's `Share`. */
  lemma {:induction false} BusChildMaterializes(o: Oracle, t: MatchTable, bus: Node, parent: DevRef, i: nat, st: State)
    requires i < |bus.children|
    requires ChildOk(o, t, bus.children[i])
    ensures var r := BusChild(o, t, bus, parent, i, st);
      r.rc == 0 && r.st.registry == st.registry + Share(t, bus.children[i], parent, |st.registry|)
    decreases bus, 0
  {
    var child := bus.children[i];
    var base := |st.registry|;
    var made := DeviceCreate(o, st, child, parent);
    if Matches(t, child) {
      BusCreateMaterializes(o, t, child, Registered(base), made.st);
      var sub := Materialized(t, child, 0, |child.children|, Registered(base), base + 1);
      assert (st.registry + [PlatformDevice(child, parent)]) + sub == st.registry + ([PlatformDevice(child, parent)] + sub);
    } else {
      assert Share(t, child, parent, base) == [PlatformDevice(child, parent)] + [];
    }
  }

  /** From child i, a loop whose children up to k are handled without
      error arrives at child k in `LoopStateAt`. */
  lemma {:induction false} BusLoopReaches(o: Oracle, t: MatchTable, bus: Node, parent: DevRef, i: nat, k: nat, st: State)
    requires i <= k <= |bus.children|
    requires OkRange(o, t, bus, i, k)
    ensures BusLoop(o, t, bus, parent, i, st) == BusLoop(o, t, bus, parent, k, LoopStateAt(o, t, bus, parent, i, k, st))
    decreases bus, 1, |bus.children| - i
  {
    if i < k {
      var body := BusChild(o, t, bus, parent, i, st);
      BusChildSucceedsIff(o, t, bus, parent, i, st);
      BusLoopReaches(o, t, bus, parent, i + 1, k, SetRefs(body.st, NextChild(body.st.refs, bus, i + 1)));
    }
  }

  /** ... and by then has registered the `Materialized` devices of
      children i..k-1. */
  lemma {:induction false} LoopStateAtRegistry(o: Oracle, t: MatchTable, bus: Node, parent: DevRef, i: nat, k: nat, st: State)
    requires i <= k <= |bus.children|
    requires OkRange(o, t, bus, i, k)
    ensures LoopStateAt(o, t, bus, parent, i, k, st).registry == st.registry + Materialized(t, bus, i, k, parent, |st.registry|)
    decreases bus, 1, |bus.children| - i
  {
    if i < k {
      var body := BusChild(o, t, bus, parent, i, st);
      var next := SetRefs(body.st, NextChild(body.st.refs, bus, i + 1));
      var head := Share(t, bus.children[i], parent, |st.registry|);
      assert next.registry == st.registry + head by {
        BusChildMaterializes(o, t, bus, parent, i, st);
      }
      var tail := Materialized(t, bus, i + 1, k, parent, |next.registry|);
      assert Materialized(t, bus, i, k, parent, |st.registry|) == head + tail by {
        assert |next.registry| == |st.registry| + |head|;
      }
      LoopStateAtRegistry(o, t, bus, parent, i + 1, k, next);
      ConcatShift(st.registry, next.registry, head, tail, Materialized(t, bus, i, k, parent, |st.registry|));
    } else {
      assert Materialized(t, bus, i, k, parent, |st.registry|) == [];
    }
  }

  // ---------------------------------------------------------------------
  // Which nodes a walk can reach, and where a failing walk stops

  /** The ids of the children of `bus` from the i-th on and of all their
      descendants. */
  function Descendants(bus: Node, i: nat): set<NodeId>
    requires i <= |bus.children|
    decreases bus, |bus.children| - i
  {
    if i == |bus.children| then {}
    else {bus.children[i].id} + Descendants(bus.children[i], 0) + Descendants(bus, i + 1)
  }

  /** The ids of `c` and of every node below it. */
  function Subtree(c: Node): set<NodeId> {
    {c.id} + Descendants(c, 0)
  }

  /** All devices registered at index `from` or later belong to nodes in `ids`. */
  ghost predicate NodesWithin(reg: seq<Device>, from: nat, ids: set<NodeId>) {
    forall j | from <= j < |reg| :: reg[j].ofNode in ids
  }

  /** `of_platform_bus_create(bus, ...)` only creates devices for nodes
      below `bus`, whatever fails. */
  lemma {:induction false} BusCreateWithin(o: Oracle, t: MatchTable, bus: Node, parent: DevRef, st: State)
    ensures NodesWithin(BusCreate(o, t, bus, parent, st).st.registry, |st.registry|, Descendants(bus, 0))
    decreases bus, 2
  {
    BusLoopWithin(o, t, bus, parent, 0, SetRefs(st, NextChild(st.refs, bus, 0)));
  }

  lemma {:induction false} BusLoopWithin(o: Oracle, t: MatchTable, bus: Node, parent: DevRef, i: nat, st: State)
    requires i <= |bus.children|
    ensures NodesWithin(BusLoop(o, t, bus, parent, i, st).st.registry, |st.registry|, Descendants(bus, i))
    decreases bus, 1, |bus.children| - i
  {
    if i < |bus.children| {
      var body := BusChild(o, t, bus, parent, i, st);
      BusChildWithin(o, t, bus, parent, i, st);
      if body.rc == 0 {
        BusLoopWithin(o, t, bus, parent, i + 1, SetRefs(body.st, NextChild(body.st.refs, bus, i + 1)));
      }
    }
  }

  /** The body for a child creates devices only for that child and the
      nodes below it. */
  lemma {:induction false} BusChildWithin(o: Oracle, t: MatchTable, bus: Node, parent: DevRef, i: nat, st: State)
    requires i < |bus.children|
    ensures NodesWithin(BusChild(o, t, bus, parent, i, st).st.registry, |st.registry|,
                        Subtree(bus.children[i]))
    decreases bus, 0
  {
    var child := bus.children[i];
    var made := DeviceCreate(o, st, child, parent);
    if made.dev.Some? && Matches(t, child) {
      BusCreateWithin(o, t, child, Registered(made.dev.value), made.st);
    }
  }

  /** Early stop without rollback. If children i..k-1 of `bus` are handled
      without error and child k is not, the loop returns -ENOMEM; the
      devices of children i..k-1 and their subtrees stay registered, and
      every device registered after them belongs to child k or a node
      below it. The registry the loop leaves is the one child k's body
      leaves, so no later sibling is visited. When child k's own device
      could not be created, nothing at all is registered after them. */
  lemma BusLoopStopsAt(o: Oracle, t: MatchTable, bus: Node, parent: DevRef, i: nat, k: nat, st: State)
    requires i <= k < |bus.children|
    requires OkRange(o, t, bus, i, k)
    requires !ChildOk(o, t, bus.children[k])
    ensures var r := BusLoop(o, t, bus, parent, i, st);
      var kept := st.registry + Materialized(t, bus, i, k, parent, |st.registry|);
      && r.rc == -ENOMEM
      && kept <= r.st.registry
      && NodesWithin(r.st.registry, |kept|, Subtree(bus.children[k]))
      && r.st.registry == BusChild(o, t, bus, parent, k, LoopStateAt(o, t, bus, parent, i, k, st)).st.registry
      && (!Creatable(o, bus.children[k]) ==> r.st.registry == kept)
  {
    var last := LoopStateAt(o, t, bus, parent, i, k, st);
    BusLoopReaches(o, t, bus, parent, i, k, st);
    LoopStateAtRegistry(o, t, bus, parent, i, k, st);
    BusChildSucceedsIff(o, t, bus, parent, k, last);
    BusChildWithin(o, t, bus, parent, k, last);
  }

  // ---------------------------------------------------------------------
  // What every device a walk registers looks like

  /** Every device at index `from` or later is a platform device with the
      default DMA mask, whose parent is `parent` or an earlier device at
      index `from` or later. */
  ghost predicate FreshDevices(reg: seq<Device>, from: nat, parent: DevRef) {
    forall j | from <= j < |reg| ::
      && reg[j].dmaMask == DMA_MASK_32
      && reg[j].bus == OfPlatformBus
      && (reg[j].parent == parent || (reg[j].parent.Registered? && from <= reg[j].parent.index < j))
  }

  /** Whatever fails, every device `of_platform_bus_create` registers has
      the 32-bit DMA mask, sits on the platform bus, and hangs from the
      caller's parent or from a device the same walk registered before it. */
  lemma {:induction false} BusCreateFresh(o: Oracle, t: MatchTable, bus: Node, parent: DevRef, st: State)
    ensures FreshDevices(BusCreate(o, t, bus, parent, st).st.registry, |st.registry|, parent)
    decreases bus, 2
  {
    BusLoopFresh(o, t, bus, parent, 0, SetRefs(st, NextChild(st.refs, bus, 0)));
  }

  lemma {:induction false} BusLoopFresh(o: Oracle, t: MatchTable, bus: Node, parent: DevRef, i: nat, st: State)
    requires i <= |bus.children|
    ensures FreshDevices(BusLoop(o, t, bus, parent, i, st).st.registry, |st.registry|, parent)
    decreases bus, 1, |bus.children| - i
  {
    if i < |bus.children| {
      var body := BusChild(o, t, bus, parent, i, st);
      BusChildFresh(o, t, bus, parent, i, st);
      if body.rc == 0 {
        BusLoopFresh(o, t, bus, parent, i + 1, SetRefs(body.st, NextChild(body.st.refs, bus, i + 1)));
      }
    }
  }

  lemma {:induction false} BusChildFresh(o: Oracle, t: MatchTable, bus: Node, parent: DevRef, i: nat, st: State)
    requires i < |bus.children|
    ensures FreshDevices(BusChild(o, t, bus, parent, i, st).st.registry, |st.registry|, parent)
    decreases bus, 0
  {
    var child := bus.children[i];
    var made := DeviceCreate(o, st, child, parent);
    if made.dev.Some? && Matches(t, child) {
      BusCreateFresh(o, t, child, Registered(made.dev.value), made.st);
    }
  }

  // ---------------------------------------------------------------------
  // Every child is materialised

  /** Each child in lo..hi-1 has its device, parented at `parent`, among
      the devices a failure-free walk over that range registers, whether
      or not the child matches. */
  lemma {:induction false} MaterializedCovers(t: MatchTable, bus: Node, lo: nat, hi: nat, parent: DevRef, base: nat, j: nat)
    requires lo <= j < hi <= |bus.children|
    ensures PlatformDevice(bus.children[j], parent) in Materialized(t, bus, lo, hi, parent, base)
    decreases hi - lo
  {
    var head := Share(t, bus.children[lo], parent, base);
    assert head[0] == PlatformDevice(bus.children[lo], parent);
    if j > lo {
      MaterializedCovers(t, bus, lo + 1, hi, parent, base + |head|, j);
    }
  }

  /** After a successful `of_platform_bus_create(bus, ...)`, every child
      of `bus` can be looked up by its node and by its phandle (finding
      the first platform device for that node or phandle). */
  lemma BusCreateEveryChildFound(o: Oracle, t: MatchTable, bus: Node, parent: DevRef, st: State, j: nat)
    requires j < |bus.children|
    requires OkRange(o, t, bus, 0, |bus.children|)
    ensures var reg := BusCreate(o, t, bus, parent, st).st.registry;
      && PlatformDevice(bus.children[j], parent) in reg
      && FindDeviceByNode(reg, bus.children[j].id).Some?
      && FindDeviceByPhandle(reg, bus.children[j].phandle).Some?
  {
    var reg := BusCreate(o, t, bus, parent, st).st.registry;
    var m := Materialized(t, bus, 0, |bus.children|, parent, |st.registry|);
    BusCreateMaterializes(o, t, bus, parent, st);
    MaterializedCovers(t, bus, 0, |bus.children|, parent, |st.registry|, j);
    var p :| 0 <= p < |m| && m[p] == PlatformDevice(bus.children[j], parent);
    assert reg[|st.registry| + p] == m[p];
  }

  /** Devices registered before a failure stay findable: when child k of
      `bus` fails, every earlier child still has its device. */
  lemma BusLoopEarlierChildrenFound(o: Oracle, t: MatchTable, bus: Node, parent: DevRef, k: nat, st: State, j: nat)
    requires j < k < |bus.children|
    requires OkRange(o, t, bus, 0, k)
    requires !ChildOk(o, t, bus.children[k])
    ensures var r := BusLoop(o, t, bus, parent, 0, st);
      && r.rc == -ENOMEM
      && PlatformDevice(bus.children[j], parent) in r.st.registry
      && FindDeviceByNode(r.st.registry, bus.children[j].id).Some?
  {
    var r := BusLoop(o, t, bus, parent, 0, st);
    var m := Materialized(t, bus, 0, k, parent, |st.registry|);
    assert r.rc == -ENOMEM && st.registry + m <= r.st.registry by {
      BusLoopStopsAt(o, t, bus, parent, 0, k, st);
    }
    MaterializedCovers(t, bus, 0, k, parent, |st.registry|, j);
    var p :| 0 <= p < |m| && m[p] == PlatformDevice(bus.children[j], parent);
    assert r.st.registry[|st.registry| + p] == (st.registry + m)[|st.registry| + p];
  }
}
