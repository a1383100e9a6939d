/**
 * The onion-service directory ring (`_onion/hsdir.py`): relays sit on a circle by their index, and each replica of a
 * descriptor takes the next few relays clockwise that no earlier replica took.
 * Standard: rend-spec-v3, WHERE-HSDESC.
 */
module HsDirRing {
  import opened Bytes

  /** Both indices are 32-byte digests compared as unsigned big-endian numbers. */
  const RING := 0x1_0000000000000000_0000000000000000_0000000000000000_0000000000000000

  type Point = p: nat | p < RING

  datatype Node = Node(edIdentity: bytes, router: nat)

  /** The two index functions for one descriptor and one period; both are hashes, hence unknown. */
  datatype Ring = Ring(position: bytes -> Point, target: nat -> Point) {
    function At(n: Node): Point {
      position(n.edIdentity)
    }
  }

  // --- the library calls: a stable sort and bisect_left ----------------------------

  function Insert(ring: Ring, x: Node, sorted: seq<Node>): seq<Node> {
    if sorted == [] || ring.At(x) <= ring.At(sorted[0]) then [x] + sorted
    else [sorted[0]] + Insert(ring, x, sorted[1..])
  }

  function Sort(ring: Ring, nodes: seq<Node>): seq<Node> {
    if nodes == [] then [] else Insert(ring, nodes[0], Sort(ring, nodes[1..]))
  }

  predicate Ordered(ring: Ring, s: seq<Node>) {
    forall i, j :: 0 <= i < j < |s| ==> ring.At(s[i]) <= ring.At(s[j])
  }

  lemma OrderedCons(ring: Ring, x: Node, s: seq<Node>)
    requires Ordered(ring, s) && forall y :: y in s ==> ring.At(x) <= ring.At(y)
    ensures Ordered(ring, [x] + s)
  {
  }

  lemma {:induction false} InsertKeeps(ring: Ring, x: Node, s: seq<Node>)
    ensures multiset(Insert(ring, x, s)) == multiset(s) + multiset{x}
  {
    if s == [] || ring.At(x) <= ring.At(s[0]) {
      assert multiset([x] + s) == multiset{x} + multiset(s);
    } else {
      InsertKeeps(ring, x, s[1..]);
      assert s == [s[0]] + s[1..];
      assert multiset([s[0]] + Insert(ring, x, s[1..])) == multiset{s[0]} + multiset(Insert(ring, x, s[1..]));
    }
  }

  lemma {:induction false} InsertOrdered(ring: Ring, x: Node, s: seq<Node>)
    requires Ordered(ring, s)
    ensures Ordered(ring, Insert(ring, x, s))
  {
    if s == [] || ring.At(x) <= ring.At(s[0]) {
      OrderedCons(ring, x, s);
    } else {
      var t := Insert(ring, x, s[1..]);
      InsertOrdered(ring, x, s[1..]);
      InsertKeeps(ring, x, s[1..]);
      forall y | y in t ensures ring.At(s[0]) <= ring.At(y) {
        assert y in multiset(t);
        assert y in s[1..] || y == x;
      }
      OrderedCons(ring, s[0], t);
    }
  }

  lemma {:induction false} SortOrdered(ring: Ring, nodes: seq<Node>)
    ensures Ordered(ring, Sort(ring, nodes)) && multiset(Sort(ring, nodes)) == multiset(nodes)
  {
    if nodes != [] {
      SortOrdered(ring, nodes[1..]);
      InsertOrdered(ring, nodes[0], Sort(ring, nodes[1..]));
      InsertKeeps(ring, nodes[0], Sort(ring, nodes[1..]));
      assert nodes == [nodes[0]] + nodes[1..];
    }
  }

  /** `bisect_left`: how many leading nodes lie before the target. */
  function LowerBound(ring: Ring, s: seq<Node>, target: Point): (i: nat)
    ensures i <= |s|
    ensures forall k :: 0 <= k < i ==> ring.At(s[k]) < target
    ensures i < |s| ==> ring.At(s[i]) >= target
  {
    if s == [] || ring.At(s[0]) >= target then 0 else 1 + LowerBound(ring, s[1..], target)
  }

  // --- the walk ----------------------------------------------------------------------

  /** One lap of the ring from the first node at or after the target. */
  function Lap(ring: Ring, ordered: seq<Node>, target: Point): (lap: seq<Node>)
    ensures |lap| == |ordered|
  {
    var i := LowerBound(ring, ordered, target);
    var start := if i == |ordered| then 0 else i;
    ordered[start..] + ordered[..start]
  }

  function Ids(nodes: seq<Node>): set<bytes> {
    set n | n in nodes :: n.edIdentity
  }

  /** The first `k` nodes of a lap whose identities are not yet chosen. */
  function Take(lap: seq<Node>, chosen: set<bytes>, k: int): seq<Node>
    decreases |lap|
  {
    if lap == [] || k <= 0 then []
    else if lap[0].edIdentity in chosen then Take(lap[1..], chosen, k)
    else [lap[0]] + Take(lap[1..], chosen + {lap[0].edIdentity}, k - 1)
  }

  /** The selection after `replicas` replicas. */
  function Responsible(ring: Ring, ordered: seq<Node>, replicas: nat, spread: int): seq<Node> {
    if replicas == 0 then []
    else
      var earlier := Responsible(ring, ordered, replicas - 1, spread);
      earlier + Take(Lap(ring, ordered, ring.target(replicas)), Ids(earlier), spread)
  }

  lemma IdsSnoc(nodes: seq<Node>, n: Node)
    ensures Ids(nodes + [n]) == Ids(nodes) + {n.edIdentity}
  {
    forall m | m in nodes + [n] ensures m in nodes || m == n {
    }
    assert n in nodes + [n];
    forall m | m in nodes ensures m in nodes + [n] {
    }
  }

  lemma TakeStep(lap: seq<Node>, i: nat, chosen: set<bytes>, k: int)
    requires i < |lap| && k > 0
    ensures Take(lap[i..], chosen, k)
         == if lap[i].edIdentity in chosen then Take(lap[i + 1..], chosen, k)
            else [lap[i]] + Take(lap[i + 1..], chosen + {lap[i].edIdentity}, k - 1)
  {
    assert lap[i..][1..] == lap[i + 1..];
  }

  /** Where the walk stands after `visited` steps round the ring. */
  function Position(start: nat, visited: nat, total: nat): nat
    requires start < total && visited <= total
  {
    if start + visited < total then start + visited else start + visited - total
  }

  lemma LapAt(ring: Ring, ordered: seq<Node>, target: Point, start: nat, visited: nat)
    requires visited < |ordered|
    requires start == if LowerBound(ring, ordered, target) == |ordered| then 0 else LowerBound(ring, ordered, target)
    ensures ordered[Position(start, visited, |ordered|)] == Lap(ring, ordered, target)[visited]
  {
  }

  /** One replica's circular walk: forward from the target, wrapping, until enough are taken or the lap is over. */
  method Walk(ring: Ring, ordered: seq<Node>, target: Point, spreadFetch: int, chosen0: set<bytes>,
      selected0: seq<Node>)
    returns (chosen: set<bytes>, selected: seq<Node>)
    requires ordered != [] && chosen0 == Ids(selected0)
    ensures chosen == Ids(selected)
    ensures selected == selected0 + Take(Lap(ring, ordered, target), Ids(selected0), spreadFetch)
  {
    hide Lap, Take, Ids;
    chosen, selected := chosen0, selected0;
    var total := |ordered|;
    var start := LowerBound(ring, ordered, target);
    if start == total {
      start := 0;
    }
    ghost var lap := Lap(ring, ordered, target);
    ghost var result := selected + Take(lap, chosen, spreadFetch);
    ghost var visited := 0;
    var pos, added := start, 0;
    assert lap[0..] == lap;
    while added < spreadFetch
      invariant 0 <= visited < total && pos == Position(start, visited, total)
      invariant chosen == Ids(selected)
      invariant selected + Take(lap[visited..], chosen, spreadFetch - added) == result
      decreases total - visited
    {
      var node := ordered[pos];
      LapAt(ring, ordered, target, start, visited);
      TakeStep(lap, visited, chosen, spreadFetch - added);
      if node.edIdentity !in chosen {
        IdsSnoc(selected, node);
        chosen := chosen + {node.edIdentity};
        selected := selected + [node];
        added := added + 1;
      }
      pos := pos + 1;
      if pos == total {
        pos := 0;
      }
      visited := visited + 1;
      if pos == start {
        break;
      }
    }
    TakeNothing(lap[visited..], chosen, spreadFetch - added);
  }

  /** The selection, replica by replica, in fetch order. */
  method ResponsibleHsdirs(ring: Ring, nodes: seq<Node>, nReplicas: int, spreadFetch: int) returns (selected: seq<Node>)
    ensures selected == Responsible(ring, Sort(ring, nodes), if nReplicas < 0 then 0 else nReplicas, spreadFetch)
  {
    hide Lap, Take, Sort;
    if nodes == [] {
      NothingToSelect(ring, if nReplicas < 0 then 0 else nReplicas, spreadFetch);
      return [];
    }
    var ordered := Sort(ring, nodes);
    SortOrdered(ring, nodes);
    assert ordered != [] by { assert nodes[0] in multiset(ordered); }
    selected := [];
    var chosen: set<bytes> := {};
    var replica := 1;
    while replica <= nReplicas
      invariant 1 <= replica && (nReplicas >= 0 ==> replica <= nReplicas + 1) && (nReplicas < 0 ==> replica == 1)
      invariant chosen == Ids(selected)
      invariant selected == Responsible(ring, ordered, replica - 1, spreadFetch)
    {
      chosen, selected := Walk(ring, ordered, ring.target(replica), spreadFetch, chosen, selected);
      replica := replica + 1;
    }
  }

  lemma TakeNothing(lap: seq<Node>, chosen: set<bytes>, k: int)
    requires lap == [] || k <= 0
    ensures Take(lap, chosen, k) == []
  {
  }

  lemma {:induction false} NothingToSelect(ring: Ring, replicas: nat, spread: int)
    ensures Responsible(ring, [], replicas, spread) == [] == Responsible(ring, Sort(ring, []), replicas, spread)
  {
    if replicas > 0 {
      NothingToSelect(ring, replicas - 1, spread);
    }
  }

  // --- a declarative reading of the ring ----------------------------------------------

  /** How far clockwise from `from` a point lies. */
  function Clockwise(from: Point, p: Point): Point {
    if p >= from then p - from else p + RING - from
  }

  function Distance(ring: Ring, target: Point, n: Node): Point {
    Clockwise(target, ring.At(n))
  }

  /** The nodes of `free` strictly nearer, clockwise, than `x`. */
  function Nearer(ring: Ring, target: Point, free: set<Node>, x: Node): set<Node> {
    set y | y in free && Distance(ring, target, y) < Distance(ring, target, x)
  }

  /** The `k` nearest free nodes: those with fewer than `k` others nearer. */
  function Nearest(ring: Ring, target: Point, free: set<Node>, k: int): set<Node> {
    set x | x in free && |Nearer(ring, target, free, x)| < k
  }

  /** The responsible set, without sorting or walking: each replica adds its nearest nodes that are still free. */
  function ResponsibleSet(ring: Ring, nodes: set<Node>, replicas: nat, spread: int): set<Node> {
    if replicas == 0 then {}
    else
      var earlier := ResponsibleSet(ring, nodes, replicas - 1, spread);
      earlier + Nearest(ring, ring.target(replicas), nodes - earlier, spread)
  }

  predicate DistinctIdentities(nodes: seq<Node>) {
    forall i, j :: 0 <= i < j < |nodes| ==> nodes[i].edIdentity != nodes[j].edIdentity
  }

  predicate DistinctPositions(ring: Ring, nodes: seq<Node>) {
    forall i, j :: 0 <= i < j < |nodes| ==> ring.At(nodes[i]) != ring.At(nodes[j])
  }

  function Elements<T>(s: seq<T>): set<T> {
    set x | x in s
  }
}
