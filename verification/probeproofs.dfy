/** Properties of `of_platform_bus_probe`: when it succeeds, what it
    registers in its two branches (the root matches the table, or only
    its children are examined), where it stops on failure, and what it
    never touches. */
module ProbeProofs {
  import opened DeviceTree
  import opened OfPlatform
  import opened BusProofs

  /** A direct child of the probe root is handled without error: it does
      not match and is skipped, or it matches and is handled like a child
      of a bus. */
  predicate ProbeChildOk(o: Oracle, t: MatchTable, c: Node) {
    Matches(t, c) ==> ChildOk(o, t, c)
  }

  /** Children lo..hi-1 of the probe root are all handled without error. */
  predicate ProbeOkRange(o: Oracle, t: MatchTable, root: Node, lo: nat, hi: nat)
    requires lo <= hi <= |root.children|
    decreases hi - lo
  {
    lo == hi || (ProbeChildOk(o, t, root.children[lo]) && ProbeOkRange(o, t, root, lo + 1, hi))
  }

  /** Nothing fails in a probe starting at `start`: a matching start is
      handled like a bus child; otherwise each of its children is. */
  predicate ProbeOk(o: Oracle, t: MatchTable, start: Node) {
    if Matches(t, start) then ChildOk(o, t, start) else ProbeOkRange(o, t, start, 0, |start.children|)
  }

  /** The devices a failure-free probe registers for one direct child:
      none if it does not match, else as for a bus child. */
  function ProbeShare(t: MatchTable, c: Node, parent: DevRef, base: nat): seq<Device> {
    if Matches(t, c) then Share(t, c, parent, base) else []
  }

  function ProbeMaterialized(t: MatchTable, root: Node, lo: nat, hi: nat, parent: DevRef, base: nat): seq<Device>
    requires lo <= hi <= |root.children|
    decreases hi - lo
  {
    if lo == hi then []
    else
      var head := ProbeShare(t, root.children[lo], parent, base);
      head + ProbeMaterialized(t, root, lo + 1, hi, parent, base + |head|)
  }

  /** The devices a failure-free probe from `start` registers. When the
      start node matches, that is its own device followed by the devices
      of all its children, parented at it; otherwise only the matching
      children and what lies below them. */
  function ProbeDevices(t: MatchTable, start: Node, parent: DevRef, base: nat): seq<Device> {
    if Matches(t, start) then Share(t, start, parent, base)
    else ProbeMaterialized(t, start, 0, |start.children|, parent, base)
  }

  /** The ids a probe from `root` may reach through children i and later:
      each matching child and all nodes below it. */
  function ProbeReach(t: MatchTable, root: Node, i: nat): set<NodeId>
    requires i <= |root.children|
    decreases |root.children| - i
  {
    if i == |root.children| then {}
    else
      var c := root.children[i];
      (if Matches(t, c) then Subtree(c) else {}) + ProbeReach(t, root, i + 1)
  }

  /** The state the children loop of the probe is in when it reaches
      child k from child i, if every body in between ends with rc == 0. */
  function ProbeStateAt(o: Oracle, t: MatchTable, root: Node, parent: DevRef, i: nat, k: nat, st: State): State
    requires i <= k <= |root.children|
    decreases k - i
  {
    if i == k then st
    else ProbeStateAt(o, t, root, parent, i + 1, k, ProbeAdvance(o, t, root, parent, i, st))
  }

  /** The state in which the children loop moves on from child i to the
      next child, if the body for child i ends with rc == 0. */
  function ProbeAdvance(o: Oracle, t: MatchTable, root: Node, parent: DevRef, i: nat, st: State): State
    requires i < |root.children|
  {
    var body := ProbeChild(o, t, root, parent, i, st);
    SetRefs(body.st, NextChild(body.st.refs, root, i + 1))
  }

  /** A matching direct child is handled exactly as `of_platform_bus_create`
      handles a child. */
  lemma ProbeChildIsBusChild(o: Oracle, t: MatchTable, root: Node, parent: DevRef, i: nat, st: State)
    requires i < |root.children|
    requires Matches(t, root.children[i])
    ensures ProbeChild(o, t, root, parent, i, st) == BusChild(o, t, root, parent, i, st)
  {
  }

  // ---------------------------------------------------------------------
  // The children loop

  lemma ProbeChildSucceedsIff(o: Oracle, t: MatchTable, root: Node, parent: DevRef, i: nat, st: State)
    requires i < |root.children|
    ensures ProbeChild(o, t, root, parent, i, st).rc == 0 <==> ProbeChildOk(o, t, root.children[i])
  {
    if Matches(t, root.children[i]) {
      ProbeChildIsBusChild(o, t, root, parent, i, st);
      BusChildSucceedsIff(o, t, root, parent, i, st);
    }
  }

  lemma {:induction false} ProbeLoopSucceedsIff(o: Oracle, t: MatchTable, root: Node, parent: DevRef, i: nat, st: State)
    requires i <= |root.children|
    ensures ProbeLoop(o, t, root, parent, i, st).rc == 0 <==> ProbeOkRange(o, t, root, i, |root.children|)
    decreases |root.children| - i
  {
    if i < |root.children| {
      var body := ProbeChild(o, t, root, parent, i, st);
      ProbeChildSucceedsIff(o, t, root, parent, i, st);
      if body.rc == 0 {
        ProbeLoopSucceedsIff(o, t, root, parent, i + 1, SetRefs(body.st, NextChild(body.st.refs, root, i + 1)));
      }
    }
  }

  lemma ProbeChildMaterializes(o: Oracle, t: MatchTable, root: Node, parent: DevRef, i: nat, st: State)
    requires i < |root.children|
    requires ProbeChildOk(o, t, root.children[i])
    ensures var r := ProbeChild(o, t, root, parent, i, st);
      r.rc == 0 && r.st.registry == st.registry + ProbeShare(t, root.children[i], parent, |st.registry|)
  {
    if Matches(t, root.children[i]) {
      ProbeChildIsBusChild(o, t, root, parent, i, st);
      BusChildMaterializes(o, t, root, parent, i, st);
    } else {
      assert st.registry + [] == st.registry;
    }
  }

  lemma {:induction false} ProbeLoopReaches(o: Oracle, t: MatchTable, root: Node, parent: DevRef, i: nat, k: nat, st: State)
    requires i <= k <= |root.children|
    requires ProbeOkRange(o, t, root, i, k)
    ensures ProbeLoop(o, t, root, parent, i, st) == ProbeLoop(o, t, root, parent, k, ProbeStateAt(o, t, root, parent, i, k, st))
    decreases k - i
  {
    if i < k {
      var next := ProbeAdvance(o, t, root, parent, i, st);
      assert ProbeChild(o, t, root, parent, i, st).rc == 0 by {
        ProbeChildSucceedsIff(o, t, root, parent, i, st);
      }
      assert ProbeLoop(o, t, root, parent, i, st) == ProbeLoop(o, t, root, parent, i + 1, next);
      assert ProbeStateAt(o, t, root, parent, i, k, st) == ProbeStateAt(o, t, root, parent, i + 1, k, next);
      ProbeLoopReaches(o, t, root, parent, i + 1, k, next);
    }
  }

  lemma ProbeMaterializedStep(t: MatchTable, root: Node, lo: nat, hi: nat, parent: DevRef, base: nat)
    requires lo < hi <= |root.children|
    ensures var head := ProbeShare(t, root.children[lo], parent, base);
      ProbeMaterialized(t, root, lo, hi, parent, base) == head + ProbeMaterialized(t, root, lo + 1, hi, parent, base + |head|)
  {
  }

  lemma {:induction false} ProbeStateAtRegistry(o: Oracle, t: MatchTable, root: Node, parent: DevRef, i: nat, k: nat, st: State)
    requires i <= k <= |root.children|
    requires ProbeOkRange(o, t, root, i, k)
    ensures ProbeStateAt(o, t, root, parent, i, k, st).registry == st.registry + ProbeMaterialized(t, root, i, k, parent, |st.registry|)
    decreases k - i
  {
    if i < k {
      ProbeStateAtRegistry(o, t, root, parent, i + 1, k, ProbeAdvance(o, t, root, parent, i, st));
      ProbeStateAtRegistryStep(o, t, root, parent, i, k, st);
    } else {
      assert st.registry + [] == st.registry;
    }
  }

  /** The inductive step of `ProbeStateAtRegistry`: what holds from the
      next child on extends to child i. */
  lemma ProbeStateAtRegistryStep(o: Oracle, t: MatchTable, root: Node, parent: DevRef, i: nat, k: nat, st: State)
    requires i < k <= |root.children|
    requires ProbeChildOk(o, t, root.children[i])
    requires var next := ProbeAdvance(o, t, root, parent, i, st);
      ProbeStateAt(o, t, root, parent, i + 1, k, next).registry
        == next.registry + ProbeMaterialized(t, root, i + 1, k, parent, |next.registry|)
    ensures ProbeStateAt(o, t, root, parent, i, k, st).registry == st.registry + ProbeMaterialized(t, root, i, k, parent, |st.registry|)
  {
    var next := ProbeAdvance(o, t, root, parent, i, st);
    assert next.registry == st.registry + ProbeShare(t, root.children[i], parent, |st.registry|) by {
      ProbeChildMaterializes(o, t, root, parent, i, st);
    }
    ProbeMaterializedPrepend(t, root, i, k, parent, st.registry, next.registry);
    assert ProbeStateAt(o, t, root, parent, i, k, st) == ProbeStateAt(o, t, root, parent, i + 1, k, next);
  }

  /** A registry extended by child i's share, followed by the devices of
      children i+1..k-1, is the original registry followed by the devices
      of children i..k-1. */
  lemma ProbeMaterializedPrepend(t: MatchTable, root: Node, i: nat, k: nat, parent: DevRef, before: seq<Device>, after: seq<Device>)
    requires i < k <= |root.children|
    requires after == before + ProbeShare(t, root.children[i], parent, |before|)
    ensures after + ProbeMaterialized(t, root, i + 1, k, parent, |after|)
         == before + ProbeMaterialized(t, root, i, k, parent, |before|)
  {
    var head := ProbeShare(t, root.children[i], parent, |before|);
    var tail := ProbeMaterialized(t, root, i + 1, k, parent, |after|);
    ProbeMaterializedStep(t, root, i, k, parent, |before|);
    ConcatShift(before, after, head, tail, ProbeMaterialized(t, root, i, k, parent, |before|));
  }

  lemma ProbeChildWithin(o: Oracle, t: MatchTable, root: Node, parent: DevRef, i: nat, st: State)
    requires i < |root.children|
    ensures var c := root.children[i];
      NodesWithin(ProbeChild(o, t, root, parent, i, st).st.registry, |st.registry|,
                  if Matches(t, c) then Subtree(c) else {})
  {
    if Matches(t, root.children[i]) {
      ProbeChildIsBusChild(o, t, root, parent, i, st);
      BusChildWithin(o, t, root, parent, i, st);
    }
  }

  lemma {:induction false} ProbeLoopWithin(o: Oracle, t: MatchTable, root: Node, parent: DevRef, i: nat, st: State)
    requires i <= |root.children|
    ensures NodesWithin(ProbeLoop(o, t, root, parent, i, st).st.registry, |st.registry|, ProbeReach(t, root, i))
    decreases |root.children| - i
  {
    if i < |root.children| {
      var body := ProbeChild(o, t, root, parent, i, st);
      ProbeChildWithin(o, t, root, parent, i, st);
      if body.rc == 0 {
        ProbeLoopWithin(o, t, root, parent, i + 1, SetRefs(body.st, NextChild(body.st.refs, root, i + 1)));
      }
    }
  }

  lemma ProbeChildFresh(o: Oracle, t: MatchTable, root: Node, parent: DevRef, i: nat, st: State)
    requires i < |root.children|
    ensures FreshDevices(ProbeChild(o, t, root, parent, i, st).st.registry, |st.registry|, parent)
  {
    if Matches(t, root.children[i]) {
      ProbeChildIsBusChild(o, t, root, parent, i, st);
      BusChildFresh(o, t, root, parent, i, st);
    }
  }

  lemma {:induction false} ProbeLoopFresh(o: Oracle, t: MatchTable, root: Node, parent: DevRef, i: nat, st: State)
    requires i <= |root.children|
    ensures FreshDevices(ProbeLoop(o, t, root, parent, i, st).st.registry, |st.registry|, parent)
    decreases |root.children| - i
  {
    if i < |root.children| {
      var body := ProbeChild(o, t, root, parent, i, st);
      ProbeChildFresh(o, t, root, parent, i, st);
      if body.rc == 0 {
        ProbeLoopFresh(o, t, root, parent, i + 1, SetRefs(body.st, NextChild(body.st.refs, root, i + 1)));
      }
    }
  }

  /** Early stop in the children loop: if children i..k-1 are handled
      without error and child k matches but fails, the loop returns
      -ENOMEM and keeps what it registered before child k. The registry
      it leaves is the one child k's body leaves, so no child after k is
      visited. */
  lemma ProbeLoopStopsAt(o: Oracle, t: MatchTable, root: Node, parent: DevRef, i: nat, k: nat, st: State)
    requires i <= k < |root.children|
    requires ProbeOkRange(o, t, root, i, k)
    requires !ProbeChildOk(o, t, root.children[k])
    ensures var r := ProbeLoop(o, t, root, parent, i, st);
      var kept := st.registry + ProbeMaterialized(t, root, i, k, parent, |st.registry|);
      && r.rc == -ENOMEM
      && kept <= r.st.registry
      && NodesWithin(r.st.registry, |kept|, Subtree(root.children[k]))
      && r.st.registry == ProbeChild(o, t, root, parent, k, ProbeStateAt(o, t, root, parent, i, k, st)).st.registry
      && (!Creatable(o, root.children[k]) ==> r.st.registry == kept)
  {
    var last := ProbeStateAt(o, t, root, parent, i, k, st);
    ProbeLoopReaches(o, t, root, parent, i, k, st);
    ProbeStateAtRegistry(o, t, root, parent, i, k, st);
    ProbeChildIsBusChild(o, t, root, parent, k, last);
    BusChildSucceedsIff(o, t, root, parent, k, last);
    BusChildWithin(o, t, root, parent, k, last);
  }

  // ---------------------------------------------------------------------
  // The whole probe

  /** Passing NULL for the table is the same as passing the default table. */
  lemma ProbeNullTable(o: Oracle, defaultIds: MatchTable, treeRoot: Node, root: Option<Node>, parent: DevRef, st: State)
    ensures Probe(o, defaultIds, treeRoot, root, DefaultTable, parent, st)
         == Probe(o, defaultIds, treeRoot, root, Table(defaultIds), parent, st)
  {
  }

  /** With a real table `t` (given, or the default one for NULL), the probe
      returns 0 exactly when nothing fails in `ProbeOk`'s sense, and
      -ENOMEM otherwise. */
  lemma ProbeSucceedsIff(o: Oracle, defaultIds: MatchTable, treeRoot: Node, root: Option<Node>,
                         matches: TableArg, t: MatchTable, parent: DevRef, st: State)
    requires ResolveTable(matches, defaultIds) == Table(t)
    ensures var r := Probe(o, defaultIds, treeRoot, root, matches, parent, st);
      && (r.rc == 0 <==> ProbeOk(o, t, StartNode(root, treeRoot)))
      && (r.rc != 0 ==> r.rc == -ENOMEM)
  {
    var start := StartNode(root, treeRoot);
    var st1 := SetRefs(st, NodeGet(st.refs, start.id));
    if Matches(t, start) {
      var made := DeviceCreate(o, st1, start, parent);
      if made.dev.Some? {
        BusCreateSucceedsIff(o, t, start, Registered(made.dev.value), made.st);
      }
    } else {
      ProbeLoopSucceedsIff(o, t, start, parent, 0, SetRefs(st1, NextChild(st1.refs, start, 0)));
    }
  }

  /** A probe in which nothing fails returns 0 and registers exactly
      `ProbeDevices`: for a matching start node, its device and then one
      device per child (subtrees of matching children below them), all
      hanging from the start node's device; otherwise, devices only for
      the matching children and their subtrees. */
  lemma ProbeMaterializes(o: Oracle, defaultIds: MatchTable, treeRoot: Node, root: Option<Node>,
                          matches: TableArg, t: MatchTable, parent: DevRef, st: State)
    requires ResolveTable(matches, defaultIds) == Table(t)
    requires ProbeOk(o, t, StartNode(root, treeRoot))
    ensures var r := Probe(o, defaultIds, treeRoot, root, matches, parent, st);
      r.rc == 0 && r.st.registry == st.registry + ProbeDevices(t, StartNode(root, treeRoot), parent, |st.registry|)
  {
    var start := StartNode(root, treeRoot);
    var st1 := SetRefs(st, NodeGet(st.refs, start.id));
    var base := |st.registry|;
    if Matches(t, start) {
      var made := DeviceCreate(o, st1, start, parent);
      BusCreateMaterializes(o, t, start, Registered(base), made.st);
      var sub := Materialized(t, start, 0, |start.children|, Registered(base), base + 1);
      assert (st.registry + [PlatformDevice(start, parent)]) + sub == st.registry + ([PlatformDevice(start, parent)] + sub);
    } else {
      var st0 := SetRefs(st1, NextChild(st1.refs, start, 0));
      ProbeLoopReaches(o, t, start, parent, 0, |start.children|, st0);
      ProbeStateAtRegistry(o, t, start, parent, 0, |start.children|, st0);
    }
  }

  /** The root-match branch, whatever fails. If the start node's own
      device cannot be created, the probe returns -ENOMEM with the registry
      and every reference count as they were. Otherwise that device is
      registered first and every later device belongs to a node below the
      start node and hangs from that device or from a later one. */
  lemma ProbeRootMatch(o: Oracle, defaultIds: MatchTable, treeRoot: Node, root: Option<Node>,
                       matches: TableArg, t: MatchTable, parent: DevRef, st: State)
    requires ResolveTable(matches, defaultIds) == Table(t)
    requires Matches(t, StartNode(root, treeRoot))
    ensures var r := Probe(o, defaultIds, treeRoot, root, matches, parent, st);
      var start := StartNode(root, treeRoot);
      && (!Creatable(o, start) ==>
            && r.rc == -ENOMEM
            && r.st.registry == st.registry
            && forall n :: Refs(r.st.refs, n) == Refs(st.refs, n))
      && (Creatable(o, start) ==>
            && |st.registry| < |r.st.registry|
            && r.st.registry[|st.registry|] == PlatformDevice(start, parent)
            && NodesWithin(r.st.registry, |st.registry| + 1, Descendants(start, 0))
            && FreshDevices(r.st.registry, |st.registry| + 1, Registered(|st.registry|)))
  {
    var start := StartNode(root, treeRoot);
    var st1 := SetRefs(st, NodeGet(st.refs, start.id));
    var made := DeviceCreate(o, st1, start, parent);
    if made.dev.Some? {
      BusCreateWithin(o, t, start, Registered(|st.registry|), made.st);
      BusCreateFresh(o, t, start, Registered(|st.registry|), made.st);
    }
  }

  /** The children-only branch, whatever fails: when the start node does
      not match, every new device belongs to a matching child of it or to
      a node below one, and hangs from the caller's parent or from an
      earlier new device. */
  lemma ProbeNoMatch(o: Oracle, defaultIds: MatchTable, treeRoot: Node, root: Option<Node>,
                     matches: TableArg, t: MatchTable, parent: DevRef, st: State)
    requires ResolveTable(matches, defaultIds) == Table(t)
    requires !Matches(t, StartNode(root, treeRoot))
    ensures var r := Probe(o, defaultIds, treeRoot, root, matches, parent, st);
      && NodesWithin(r.st.registry, |st.registry|, ProbeReach(t, StartNode(root, treeRoot), 0))
      && FreshDevices(r.st.registry, |st.registry|, parent)
  {
    var start := StartNode(root, treeRoot);
    var st1 := SetRefs(st, NodeGet(st.refs, start.id));
    var st0 := SetRefs(st1, NextChild(st1.refs, start, 0));
    ProbeLoopWithin(o, t, start, parent, 0, st0);
    ProbeLoopFresh(o, t, start, parent, 0, st0);
  }

  /** With a NULL root and a tree root that matches the table, the probe
      creates the tree root's device and then a device for every child of
      the tree root, matching or not, parented at the tree root's device.
      The comment above `of_platform_bus_probe` says children are created
      only when the given root matches "and is not NULL"; the code does
      not make that distinction, and neither does this model. */
  lemma ProbeNullRootCreatesChildren(o: Oracle, defaultIds: MatchTable, treeRoot: Node,
                                     matches: TableArg, t: MatchTable, parent: DevRef, st: State, j: nat)
    requires ResolveTable(matches, defaultIds) == Table(t)
    requires Matches(t, treeRoot)
    requires ProbeOk(o, t, treeRoot)
    requires j < |treeRoot.children|
    ensures var r := Probe(o, defaultIds, treeRoot, None, matches, parent, st);
      && r.rc == 0
      && PlatformDevice(treeRoot, parent) in r.st.registry
      && PlatformDevice(treeRoot.children[j], Registered(|st.registry|)) in r.st.registry
  {
    var base := |st.registry|;
    var sub := Materialized(t, treeRoot, 0, |treeRoot.children|, Registered(base), base + 1);
    ProbeMaterializes(o, defaultIds, treeRoot, None, matches, t, parent, st);
    assert ProbeDevices(t, treeRoot, parent, base) == [PlatformDevice(treeRoot, parent)] + sub;
    MaterializedCovers(t, treeRoot, 0, |treeRoot.children|, Registered(base), base + 1, j);
    var reg := Probe(o, defaultIds, treeRoot, None, matches, parent, st).st.registry;
    assert reg[base] == PlatformDevice(treeRoot, parent);
  }
}
