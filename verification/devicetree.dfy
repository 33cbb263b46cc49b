/** The device-tree side of the platform-bus builder: nodes, match tables and
    node reference counts. These are the collaborators the builder consumes;
    they are modelled only as far as the builder observes them. */
module DeviceTree {

  /** Identity of a node (the `struct device_node *` pointer). */
  type NodeId = nat

  /** A node's phandle; 0 when the node has none. */
  type Phandle = nat

  /** A device-tree node with its ordered children. */
  datatype Node = Node(
    id: NodeId,
    name: string,
    devType: string,
    compatible: seq<string>,
    phandle: Phandle,
    children: seq<Node>)

  /** One entry of a match table (`struct of_device_id`); an empty field
      places no constraint on the node. */
  datatype MatchId = MatchId(name: string, devType: string, compatible: string)

  /** A match table as laid out in memory: entries up to and including an
      all-empty terminator. */
  type MatchTable = seq<MatchId>

  predicate IsTerminator(m: MatchId) {
    m.name == "" && m.devType == "" && m.compatible == ""
  }

  predicate EntryMatches(m: MatchId, n: Node) {
    && (m.name == "" || m.name == n.name)
    && (m.devType == "" || m.devType == n.devType)
    && (m.compatible == "" || m.compatible in n.compatible)
  }

  /** `of_match_node(t, n) != NULL`: some entry before the terminator
      matches the node. A pure test, with no effect on reference counts. */
  predicate Matches(t: MatchTable, n: Node)
    decreases |t|
  {
    |t| > 0 && !IsTerminator(t[0]) && (EntryMatches(t[0], n) || Matches(t[1..], n))
  }

  /** Node reference counts; a node absent from the map has count 0. */
  type RefCounts = map<NodeId, int>

  function Refs(m: RefCounts, n: NodeId): int {
    if n in m then m[n] else 0
  }

  /** `of_node_get`. */
  function NodeGet(m: RefCounts, n: NodeId): (m': RefCounts)
    ensures Refs(m', n) == Refs(m, n) + 1
    ensures forall k :: k != n ==> Refs(m', k) == Refs(m, k)
  {
    m[n := Refs(m, n) + 1]
  }

  /** `of_node_put`. */
  function NodePut(m: RefCounts, n: NodeId): (m': RefCounts)
    ensures Refs(m', n) == Refs(m, n) - 1
    ensures forall k :: k != n ==> Refs(m', k) == Refs(m, k)
  {
    m[n := Refs(m, n) - 1]
  }

  /** 1 when `n` is the id of `bus`'s i-th child, else 0. */
  function HeldChild(bus: Node, i: nat, n: NodeId): int {
    if i < |bus.children| && bus.children[i].id == n then 1 else 0
  }

  /** `of_get_next_child(bus, prev)` where `prev` is the (i-1)-th child, or
      NULL when i == 0: it takes a reference on the i-th child, if there is
      one, and drops the reference on `prev`. `for_each_child_of_node` is
      a sequence of these calls, so a loop that runs to the end holds no
      child reference, and one that breaks out at child i still holds it. */
  function NextChild(m: RefCounts, bus: Node, i: nat): (m': RefCounts)
    requires i <= |bus.children|
    ensures forall n :: Refs(m', n) == Refs(m, n) + HeldChild(bus, i, n) - (if i > 0 then HeldChild(bus, i - 1, n) else 0)
  {
    var held := if i < |bus.children| then NodeGet(m, bus.children[i].id) else m;
    if i > 0 then NodePut(held, bus.children[i - 1].id) else held
  }
}
