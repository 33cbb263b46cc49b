/** At most one device per node: when the node ids of a tree are unique,
    a single bus walk or probe never registers two devices for the same
    node, whatever fails along the way. */
module Uniqueness {
  import opened DeviceTree
  import opened OfPlatform
  import opened BusProofs
  import opened ProbeProofs

  /** No id occurs twice in the tree rooted at `n`. */
  predicate UniqueIds(n: Node)
    decreases n
  {
    && n.id !in Descendants(n, 0)
    && (forall i, j | 0 <= i < j < |n.children| :: Subtree(n.children[i]) !! Subtree(n.children[j]))
    && (forall i | 0 <= i < |n.children| :: UniqueIds(n.children[i]))
  }

  /** The devices registered at index `from` or later belong to pairwise
      different nodes. */
  ghost predicate DistinctFrom(reg: seq<Device>, from: nat) {
    forall p, q | from <= p < q < |reg| :: reg[p].ofNode != reg[q].ofNode
  }

  lemma {:induction false} SubtreeApart(bus: Node, i: nat, j: nat)
    requires UniqueIds(bus)
    requires i < j <= |bus.children|
    ensures Subtree(bus.children[i]) !! Descendants(bus, j)
    decreases |bus.children| - j
  {
    if j < |bus.children| {
      SubtreeApart(bus, i, j + 1);
    }
  }

  /** Devices registered in two stretches, each for pairwise different
      nodes drawn from two disjoint sets, are for pairwise different
      nodes altogether. */
  lemma DistinctGlue(x: seq<Device>, y: seq<Device>, from: nat, a: set<NodeId>, b: set<NodeId>)
    requires x <= y
    requires DistinctFrom(x, from) && NodesWithin(x, from, a)
    requires DistinctFrom(y, |x|) && NodesWithin(y, |x|, b)
    requires a !! b
    ensures DistinctFrom(y, from)
  {
    forall p, q | from <= p < q < |y| ensures y[p].ofNode != y[q].ofNode {
      if q < |x| {
        assert y[p] == x[p] && y[q] == x[q];
      } else if p < |x| {
        assert y[p] == x[p];
        assert y[p].ofNode in a && y[q].ofNode in b;
      }
    }
  }

  /** `of_platform_bus_create` on a tree with unique ids registers at most
      one device per node. */
  lemma {:induction false} BusCreateDistinct(o: Oracle, t: MatchTable, bus: Node, parent: DevRef, st: State)
    requires UniqueIds(bus)
    ensures DistinctFrom(BusCreate(o, t, bus, parent, st).st.registry, |st.registry|)
    decreases bus, 2
  {
    BusLoopDistinct(o, t, bus, parent, 0, SetRefs(st, NextChild(st.refs, bus, 0)));
  }

  lemma {:induction false} BusLoopDistinct(o: Oracle, t: MatchTable, bus: Node, parent: DevRef, i: nat, st: State)
    requires UniqueIds(bus)
    requires i <= |bus.children|
    ensures DistinctFrom(BusLoop(o, t, bus, parent, i, st).st.registry, |st.registry|)
    decreases bus, 1, |bus.children| - i
  {
    if i < |bus.children| {
      var body := BusChild(o, t, bus, parent, i, st);
      BusChildDistinct(o, t, bus, parent, i, st);
      BusChildWithin(o, t, bus, parent, i, st);
      if body.rc == 0 {
        var next := SetRefs(body.st, NextChild(body.st.refs, bus, i + 1));
        BusLoopDistinct(o, t, bus, parent, i + 1, next);
        BusLoopWithin(o, t, bus, parent, i + 1, next);
        SubtreeApart(bus, i, i + 1);
        DistinctGlue(body.st.registry, BusLoop(o, t, bus, parent, i + 1, next).st.registry, |st.registry|,
                     Subtree(bus.children[i]), Descendants(bus, i + 1));
      }
    }
  }

  lemma {:induction false} BusChildDistinct(o: Oracle, t: MatchTable, bus: Node, parent: DevRef, i: nat, st: State)
    requires UniqueIds(bus)
    requires i < |bus.children|
    ensures DistinctFrom(BusChild(o, t, bus, parent, i, st).st.registry, |st.registry|)
    decreases bus, 0
  {
    var child := bus.children[i];
    var made := DeviceCreate(o, st, child, parent);
    if made.dev.Some? && Matches(t, child) {
      assert UniqueIds(child);
      BusCreateDistinct(o, t, child, Registered(made.dev.value), made.st);
      BusCreateWithin(o, t, child, Registered(made.dev.value), made.st);
      DistinctGlue(made.st.registry, BusCreate(o, t, child, Registered(made.dev.value), made.st).st.registry,
                   |st.registry|, {child.id}, Descendants(child, 0));
    }
  }

  lemma {:induction false} ProbeReachWithin(t: MatchTable, root: Node, i: nat)
    requires i <= |root.children|
    ensures ProbeReach(t, root, i) <= Descendants(root, i)
    decreases |root.children| - i
  {
    if i < |root.children| {
      ProbeReachWithin(t, root, i + 1);
    }
  }

  lemma ProbeChildDistinct(o: Oracle, t: MatchTable, root: Node, parent: DevRef, i: nat, st: State)
    requires UniqueIds(root)
    requires i < |root.children|
    ensures DistinctFrom(ProbeChild(o, t, root, parent, i, st).st.registry, |st.registry|)
  {
    if Matches(t, root.children[i]) {
      ProbeChildIsBusChild(o, t, root, parent, i, st);
      BusChildDistinct(o, t, root, parent, i, st);
    }
  }

  lemma {:induction false} ProbeLoopDistinct(o: Oracle, t: MatchTable, root: Node, parent: DevRef, i: nat, st: State)
    requires UniqueIds(root)
    requires i <= |root.children|
    ensures DistinctFrom(ProbeLoop(o, t, root, parent, i, st).st.registry, |st.registry|)
    decreases |root.children| - i
  {
    if i < |root.children| {
      var body := ProbeChild(o, t, root, parent, i, st);
      ProbeChildDistinct(o, t, root, parent, i, st);
      ProbeChildWithin(o, t, root, parent, i, st);
      if body.rc == 0 {
        var next := SetRefs(body.st, NextChild(body.st.refs, root, i + 1));
        ProbeLoopDistinct(o, t, root, parent, i + 1, next);
        ProbeLoopWithin(o, t, root, parent, i + 1, next);
        ProbeReachWithin(t, root, i + 1);
        SubtreeApart(root, i, i + 1);
        assert NodesWithin(body.st.registry, |st.registry|, Subtree(root.children[i]));
        DistinctGlue(body.st.registry, ProbeLoop(o, t, root, parent, i + 1, next).st.registry, |st.registry|,
                     Subtree(root.children[i]), Descendants(root, i + 1));
      }
    }
  }

  /** `of_platform_bus_probe` over a tree with unique ids registers at most
      one device per node, in both branches and whatever fails. */
  lemma ProbeDistinct(o: Oracle, defaultIds: MatchTable, treeRoot: Node, root: Option<Node>,
                      matches: TableArg, parent: DevRef, st: State)
    requires UniqueIds(StartNode(root, treeRoot))
    ensures DistinctFrom(Probe(o, defaultIds, treeRoot, root, matches, parent, st).st.registry, |st.registry|)
  {
    match ResolveTable(matches, defaultIds)
    case NoDeepProbe =>
    case Table(t) =>
      var start := StartNode(root, treeRoot);
      var st1 := SetRefs(st, NodeGet(st.refs, start.id));
      if Matches(t, start) {
        var made := DeviceCreate(o, st1, start, parent);
        if made.dev.Some? {
          var sub := BusCreate(o, t, start, Registered(made.dev.value), made.st);
          BusCreateDistinct(o, t, start, Registered(made.dev.value), made.st);
          BusCreateWithin(o, t, start, Registered(made.dev.value), made.st);
          DistinctGlue(made.st.registry, sub.st.registry, |st.registry|, {start.id}, Descendants(start, 0));
        }
      } else {
        ProbeLoopDistinct(o, t, start, parent, 0, SetRefs(st1, NextChild(st1.refs, start, 0)));
      }
  }

  /** In the children-only branch on a tree with unique ids, the start node
      gets no device: every new device belongs to a node strictly below it. */
  lemma ProbeNoMatchSkipsStart(o: Oracle, defaultIds: MatchTable, treeRoot: Node, root: Option<Node>,
                               matches: TableArg, t: MatchTable, parent: DevRef, st: State)
    requires ResolveTable(matches, defaultIds) == Table(t)
    requires !Matches(t, StartNode(root, treeRoot))
    requires UniqueIds(StartNode(root, treeRoot))
    ensures var r := Probe(o, defaultIds, treeRoot, root, matches, parent, st);
      forall j | |st.registry| <= j < |r.st.registry| :: r.st.registry[j].ofNode != StartNode(root, treeRoot).id
  {
    var start := StartNode(root, treeRoot);
    ProbeNoMatch(o, defaultIds, treeRoot, root, matches, t, parent, st);
    ProbeReachWithin(t, start, 0);
  }
}
