/** What the directory ring guarantees: it refines its declarative reading, and it is stable. */
module HsDirTheorems {
  import opened Bytes
  import opened FiniteSets
  import opened HsDirRing

  // --- the walk refines the declarative reading -------------------------------------

  predicate Strict(ring: Ring, s: seq<Node>) {
    forall i, j :: 0 <= i < j < |s| ==> ring.At(s[i]) < ring.At(s[j])
  }

  lemma StrictCons(ring: Ring, x: Node, s: seq<Node>)
    requires Strict(ring, s) && forall y :: y in s ==> ring.At(x) < ring.At(y)
    ensures Strict(ring, [x] + s)
  {
  }

  lemma {:induction false} InsertStrict(ring: Ring, x: Node, s: seq<Node>)
    requires Strict(ring, s) && forall y :: y in s ==> ring.At(y) != ring.At(x)
    ensures Strict(ring, Insert(ring, x, s))
  {
    if s == [] || ring.At(x) <= ring.At(s[0]) {
      forall y | y in s ensures ring.At(x) < ring.At(y) {
        assert ring.At(s[0]) <= ring.At(y);
      }
      StrictCons(ring, x, s);
    } else {
      var t := Insert(ring, x, s[1..]);
      InsertStrict(ring, x, s[1..]);
      InsertKeeps(ring, x, s[1..]);
      forall y | y in t ensures ring.At(s[0]) < ring.At(y) {
        assert y in multiset(t);
        assert y in s[1..] || y == x;
      }
      StrictCons(ring, s[0], t);
    }
  }

  lemma {:induction false} SortStrict(ring: Ring, nodes: seq<Node>)
    requires DistinctPositions(ring, nodes)
    ensures Strict(ring, Sort(ring, nodes))
  {
    if nodes != [] {
      SortStrict(ring, nodes[1..]);
      SortOrdered(ring, nodes[1..]);
      var t := Sort(ring, nodes[1..]);
      forall y | y in t ensures ring.At(y) != ring.At(nodes[0]) {
        assert y in multiset(t);
        assert y in nodes[1..];
      }
      InsertStrict(ring, nodes[0], t);
    }
  }

  /** A lap meets the nodes in clockwise order from the target. */
  predicate ByDistance(ring: Ring, target: Point, lap: seq<Node>) {
    forall i, j :: 0 <= i < j < |lap| ==> Distance(ring, target, lap[i]) < Distance(ring, target, lap[j])
  }

  lemma ClockwiseOrder(from: Point, p: Point, q: Point)
    requires (p < q && (from <= p || q < from)) || q < from <= p
    ensures Clockwise(from, p) < Clockwise(from, q)
  {
  }

  lemma LapByDistance(ring: Ring, ordered: seq<Node>, target: Point)
    requires Strict(ring, ordered)
    ensures ByDistance(ring, target, Lap(ring, ordered, target))
    ensures Elements(Lap(ring, ordered, target)) == Elements(ordered)
  {
    hide Clockwise, Lap, LowerBound;
    var bound := LowerBound(ring, ordered, target);
    var start := if bound == |ordered| then 0 else bound;
    var lap := Lap(ring, ordered, target);
    forall i, j | 0 <= i < j < |lap| ensures Distance(ring, target, lap[i]) < Distance(ring, target, lap[j]) {
      var a, b := Position(start, i, |lap|), Position(start, j, |lap|);
      LapAt(ring, ordered, target, start, i);
      LapAt(ring, ordered, target, start, j);
      if a < b {
        assert b < bound || bound == |ordered| || bound <= a by {
          assert start <= a || b < start;
        }
        assert a >= bound ==> ring.At(ordered[bound]) <= ring.At(ordered[a]);
      } else {
        assert b < start <= a;
        assert ring.At(ordered[bound]) <= ring.At(ordered[a]);
      }
      ClockwiseOrder(target, ring.At(ordered[a]), ring.At(ordered[b]));
    }
    LapElements(ring, ordered, target);
  }

  lemma LapElements(ring: Ring, ordered: seq<Node>, target: Point)
    ensures Elements(Lap(ring, ordered, target)) == Elements(ordered)
  {
    var bound := LowerBound(ring, ordered, target);
    var start := if bound == |ordered| then 0 else bound;
    assert ordered == ordered[..start] + ordered[start..];
    forall x ensures x in Lap(ring, ordered, target) <==> x in ordered {
    }
  }

  function Fresh(lap: seq<Node>, chosen: set<bytes>): set<Node> {
    set x | x in lap && x.edIdentity !in chosen
  }

  lemma NearestHead(ring: Ring, target: Point, free: set<Node>, head: Node, k: int)
    requires head !in free && k > 0
    requires forall y :: y in free ==> Distance(ring, target, head) < Distance(ring, target, y)
    ensures Nearest(ring, target, free + {head}, k) == {head} + Nearest(ring, target, free, k - 1)
  {
    assert Nearer(ring, target, free + {head}, head) == {};
    forall x | x in free
      ensures |Nearer(ring, target, free + {head}, x)| == 1 + |Nearer(ring, target, free, x)|
    {
      assert Nearer(ring, target, free + {head}, x) == Nearer(ring, target, free, x) + {head};
    }
  }

  lemma {:induction false} TakeIsNearest(ring: Ring, target: Point, lap: seq<Node>, chosen: set<bytes>, k: int)
    requires ByDistance(ring, target, lap)
    ensures Elements(Take(lap, chosen, k)) == Nearest(ring, target, Fresh(lap, chosen), k)
    decreases |lap|
  {
    hide Fresh, Nearer;
    if lap != [] && k > 0 {
      var head, rest := lap[0], lap[1..];
      assert lap == [head] + rest;
      assert forall y :: y in rest ==> Distance(ring, target, head) < Distance(ring, target, y);
      FreshWithin(rest, chosen);
      FreshHead(head, rest, chosen);
      if head.edIdentity in chosen {
        TakeIsNearest(ring, target, rest, chosen, k);
      } else {
        var t := Take(rest, chosen + {head.edIdentity}, k - 1);
        TakeIsNearest(ring, target, rest, chosen + {head.edIdentity}, k - 1);
        NearestHead(ring, target, Fresh(rest, chosen), head, k);
        ElementsAppend([head], t);
      }
    } else {
      FreshWithin(lap, chosen);
      assert k <= 0 || Fresh(lap, chosen) == {};
    }
  }

  lemma FreshWithin(lap: seq<Node>, chosen: set<bytes>)
    ensures forall y :: y in Fresh(lap, chosen) ==> y in lap
  {
  }

  lemma FreshHead(head: Node, rest: seq<Node>, chosen: set<bytes>)
    requires forall y :: y in rest ==> y.edIdentity != head.edIdentity
    ensures Fresh([head] + rest, chosen)
         == if head.edIdentity in chosen then Fresh(rest, chosen) else Fresh(rest, chosen) + {head}
    ensures Fresh(rest, chosen + {head.edIdentity}) == Fresh(rest, chosen)
    ensures head !in Fresh(rest, chosen)
  {
  }

  predicate DistinctOn(ring: Ring, nodes: set<Node>) {
    forall x, y :: x in nodes && y in nodes && ring.At(x) == ring.At(y) ==> x == y
  }

  lemma SortElements(ring: Ring, nodes: seq<Node>)
    ensures Elements(Sort(ring, nodes)) == Elements(nodes) && |Sort(ring, nodes)| == |nodes|
  {
    SortOrdered(ring, nodes);
    var s := Sort(ring, nodes);
    forall x ensures x in s <==> x in nodes {
      assert x in multiset(s) <==> x in multiset(nodes);
    }
    assert |multiset(s)| == |s| && |multiset(nodes)| == |nodes|;
  }

  /**
   * The walk refines the declarative reading: with distinct indices, the list the loops build holds exactly the
   * relays that have, for some replica, fewer than `spread` still-free relays nearer clockwise.
   */
  lemma {:induction false} WalkRefinesRing(ring: Ring, nodes: seq<Node>, replicas: nat, spread: int)
    requires DistinctPositions(ring, nodes)
    ensures Elements(Responsible(ring, Sort(ring, nodes), replicas, spread))
         == ResponsibleSet(ring, Elements(nodes), replicas, spread)
    ensures ResponsibleSet(ring, Elements(nodes), replicas, spread) <= Elements(nodes)
  {
    hide Sort, Lap, Take, Nearest, Ids, Fresh, Strict, ByDistance, DistinctPositions;
    if replicas > 0 {
      WalkRefinesRing(ring, nodes, replicas - 1, spread);
      var ordered, target := Sort(ring, nodes), ring.target(replicas);
      var earlier := Responsible(ring, ordered, replicas - 1, spread);
      var lap := Lap(ring, ordered, target);
      SortStrict(ring, nodes);
      SortElements(ring, nodes);
      LapByDistance(ring, ordered, target);
      TakeIsNearest(ring, target, lap, Ids(earlier), spread);
      FreshIsFree(ring, nodes, lap, earlier);
      NearestWithin(ring, target, Elements(nodes) - Elements(earlier), spread);
      var t := Take(lap, Ids(earlier), spread);
      ElementsAppend(earlier, t);
    }
  }

  lemma ElementsAppend<T>(a: seq<T>, b: seq<T>)
    ensures Elements(a + b) == Elements(a) + Elements(b)
  {
  }

  lemma FreshIsFree(ring: Ring, nodes: seq<Node>, lap: seq<Node>, earlier: seq<Node>)
    requires DistinctPositions(ring, nodes)
    requires Elements(lap) == Elements(nodes) && Elements(earlier) <= Elements(nodes)
    ensures Fresh(lap, Ids(earlier)) == Elements(nodes) - Elements(earlier)
  {
    forall x | x in Elements(nodes) ensures x.edIdentity in Ids(earlier) <==> x in earlier {
      if x.edIdentity in Ids(earlier) {
        var y :| y in earlier && y.edIdentity == x.edIdentity;
        assert y in Elements(earlier);
        assert x in nodes && y in nodes;
      }
    }
    forall x ensures x in Fresh(lap, Ids(earlier)) <==> x in Elements(nodes) - Elements(earlier) {
      assert x in lap <==> x in Elements(lap);
    }
  }

  // --- size and order -------------------------------------------------------------------

  lemma {:induction false} IdsCount(s: seq<Node>)
    ensures |Ids(s)| <= |s|
  {
    if s == [] {
      assert Ids(s) == {};
    } else {
      IdsCount(s[..|s| - 1]);
      IdsSnoc(s[..|s| - 1], s[|s| - 1]);
      assert s == s[..|s| - 1] + [s[|s| - 1]];
    }
  }

  lemma IdsAppend(a: seq<Node>, b: seq<Node>)
    ensures Ids(a + b) == Ids(a) + Ids(b)
  {
    forall x ensures x in a + b <==> x in a || x in b {
    }
  }

  function Min(a: int, b: int): int {
    if a < b then a else b
  }

  /** Identities counted with and without repetition agree exactly when there is none. */
  predicate AllDistinct(s: seq<Node>) {
    |Ids(s)| == |s|
  }

  lemma NotInIds(s: seq<Node>, id: bytes)
    requires forall y :: y in s ==> y.edIdentity != id
    ensures id !in Ids(s)
  {
  }

  lemma {:induction false} DistinctCounts(s: seq<Node>)
    requires DistinctIdentities(s)
    ensures AllDistinct(s)
  {
    hide Ids;
    if s == [] {
      IdsBasics(Node([], 0));
    } else {
      var t, x := s[..|s| - 1], s[|s| - 1];
      DistinctCounts(t);
      NotInIds(t, x.edIdentity);
      IdsSnoc(t, x);
      assert s == t + [x];
    }
  }

  lemma IdsBasics(x: Node)
    ensures Ids([]) == {} && Ids([x]) == {x.edIdentity}
  {
    assert x in [x];
  }

  lemma IdsHead(s: seq<Node>)
    requires s != [] && AllDistinct(s)
    ensures s[0].edIdentity !in Ids(s[1..]) && AllDistinct(s[1..]) && Ids(s) == Ids(s[1..]) + {s[0].edIdentity}
  {
    assert s == [s[0]] + s[1..];
    IdsAppend([s[0]], s[1..]);
    IdsBasics(s[0]);
    IdsCount(s[1..]);
  }

  lemma {:induction false} TakeCount(lap: seq<Node>, chosen: set<bytes>, k: nat)
    requires AllDistinct(lap)
    ensures var t := Take(lap, chosen, k);
            && Ids(t) <= Ids(lap) - chosen && AllDistinct(t)
            && |t| == Min(k, |Ids(lap) - chosen|)
    decreases |lap|
  {
    hide Ids, Take;
    TakeUnfolds(lap, chosen, k);
    if lap == [] || k == 0 {
      IdsBasics(Node([], 0));
    } else {
      IdsHead(lap);
      var id, rest := lap[0].edIdentity, lap[1..];
      if id in chosen {
        TakeCount(rest, chosen, k);
        SkipChosen(Ids(rest), id, chosen);
      } else {
        TakeCount(rest, chosen + {id}, k - 1);
        TakeOneMore(lap[0], Take(rest, chosen + {id}, k - 1), Ids(rest), chosen, k);
      }
    }
  }

  lemma TakeUnfolds(lap: seq<Node>, chosen: set<bytes>, k: int)
    ensures Take(lap, chosen, k)
         == if lap == [] || k <= 0 then []
            else if lap[0].edIdentity in chosen then Take(lap[1..], chosen, k)
            else [lap[0]] + Take(lap[1..], chosen + {lap[0].edIdentity}, k - 1)
  {
  }

  lemma SkipChosen(ids: set<bytes>, id: bytes, chosen: set<bytes>)
    requires id in chosen
    ensures (ids + {id}) - chosen == ids - chosen
  {
  }

  lemma TakeOneMore(head: Node, t: seq<Node>, rest: set<bytes>, chosen: set<bytes>, k: nat)
    requires k > 0 && head.edIdentity !in chosen && head.edIdentity !in rest
    requires Ids(t) <= rest - (chosen + {head.edIdentity}) && AllDistinct(t)
    requires |t| == Min(k - 1, |rest - (chosen + {head.edIdentity})|)
    ensures var all := (rest + {head.edIdentity}) - chosen;
            Ids([head] + t) <= all && AllDistinct([head] + t) && |[head] + t| == Min(k, |all|)
  {
    hide Ids;
    IdsBasics(head);
    IdsAppend([head], t);
    assert (rest + {head.edIdentity}) - chosen == (rest - (chosen + {head.edIdentity})) + {head.edIdentity};
  }

  /** With distinct identities the selection repeats nobody and has min(|nodes|, replicas * spread) members. */
  lemma {:induction false} SelectionSize(ring: Ring, nodes: seq<Node>, replicas: nat, spread: nat)
    requires DistinctIdentities(nodes)
    ensures var r := Responsible(ring, Sort(ring, nodes), replicas, spread);
            && AllDistinct(r) && Ids(r) <= Ids(nodes) && |r| == Min(|nodes|, replicas * spread)
  {
    hide Ids, Sort, Lap, Take;
    if replicas == 0 {
      IdsBasics(Node([], 0));
    } else {
      SelectionSize(ring, nodes, replicas - 1, spread);
      var ordered := Sort(ring, nodes);
      var earlier, lap := Responsible(ring, ordered, replicas - 1, spread), Lap(ring, ordered, ring.target(replicas));
      DistinctCounts(nodes);
      LapIds(ring, nodes, ring.target(replicas));
      TakeCount(lap, Ids(earlier), spread);
      AddRound(earlier, Take(lap, Ids(earlier), spread), Ids(nodes), replicas, spread);
    }
  }

  lemma LapIds(ring: Ring, nodes: seq<Node>, target: Point)
    ensures var lap := Lap(ring, Sort(ring, nodes), target);
            Ids(lap) == Ids(nodes) && |lap| == |nodes|
  {
    SortElements(ring, nodes);
    RotationIds(ring, Sort(ring, nodes), target);
    forall x ensures x in Sort(ring, nodes) <==> x in nodes {
      assert x in Elements(Sort(ring, nodes)) <==> x in Elements(nodes);
    }
  }

  lemma AddRound(earlier: seq<Node>, t: seq<Node>, all: set<bytes>, replicas: nat, spread: nat)
    requires replicas > 0 && AllDistinct(earlier) && AllDistinct(t)
    requires Ids(earlier) <= all && Ids(t) <= all - Ids(earlier)
    requires |earlier| == Min(|all|, (replicas - 1) * spread) && |t| == Min(spread, |all - Ids(earlier)|)
    ensures AllDistinct(earlier + t) && Ids(earlier + t) <= all && |earlier + t| == Min(|all|, replicas * spread)
  {
    hide Ids;
    IdsAppend(earlier, t);
    assert |all - Ids(earlier)| == |all| - |earlier|;
    assert |Ids(earlier) + Ids(t)| == |Ids(earlier)| + |Ids(t)|;
    assert replicas * spread == (replicas - 1) * spread + spread;
  }

  lemma RotationIds(ring: Ring, ordered: seq<Node>, target: Point)
    ensures Ids(Lap(ring, ordered, target)) == Ids(ordered)
  {
    var bound := LowerBound(ring, ordered, target);
    var start := if bound == |ordered| then 0 else bound;
    IdsAppend(ordered[start..], ordered[..start]);
    IdsAppend(ordered[..start], ordered[start..]);
    assert ordered == ordered[..start] + ordered[start..];
  }

  lemma {:induction false} StrictUnique(ring: Ring, a: seq<Node>, b: seq<Node>)
    requires Strict(ring, a) && Strict(ring, b) && Elements(a) == Elements(b)
    ensures a == b
  {
    forall x ensures x in a <==> x in b {
      assert x in Elements(a) <==> x in Elements(b);
    }
    assert (a != [] ==> a[0] in b) && (b != [] ==> b[0] in a);
    if a != [] {
      assert a[0] == b[0];
      forall x ensures x in a[1..] <==> x in b[1..] {
        assert x in a[1..] ==> x in a && x != a[0];
        assert x in b[1..] ==> x in b && x != b[0];
      }
      assert Elements(a[1..]) == Elements(b[1..]);
      StrictUnique(ring, a[1..], b[1..]);
      assert a == [a[0]] + a[1..] && b == [b[0]] + b[1..];
    }
  }

  /** With distinct indices the whole result, order included, does not depend on the order of the input. */
  lemma InputOrderIrrelevant(ring: Ring, a: seq<Node>, b: seq<Node>, replicas: nat, spread: int)
    requires DistinctPositions(ring, a) && DistinctPositions(ring, b) && Elements(a) == Elements(b)
    ensures Responsible(ring, Sort(ring, a), replicas, spread) == Responsible(ring, Sort(ring, b), replicas, spread)
  {
    SortStrict(ring, a);
    SortStrict(ring, b);
    SortElements(ring, a);
    SortElements(ring, b);
    StrictUnique(ring, Sort(ring, a), Sort(ring, b));
  }

  // --- stability ---------------------------------------------------------------------------

  /**
   * A smaller spread asks only relays that a larger one chooses, replica after replica, however the skipping falls:
   * a client fetching with 3 asks only relays that a service storing with 4 uploaded to.
   */
  lemma {:induction false} SmallerSpreadContained(ring: Ring, nodes: set<Node>, replicas: nat, small: int, large: int)
    requires small <= large
    ensures ResponsibleSet(ring, nodes, replicas, small) <= ResponsibleSet(ring, nodes, replicas, large)
  {
    if replicas > 0 {
      SmallerSpreadContained(ring, nodes, replicas - 1, small, large);
      var few := ResponsibleSet(ring, nodes, replicas - 1, small);
      var many := ResponsibleSet(ring, nodes, replicas - 1, large);
      var t := ring.target(replicas);
      forall x | x in Nearest(ring, t, nodes - few, small) && x !in many
        ensures x in Nearest(ring, t, nodes - many, large)
      {
        SubsetCount(Nearer(ring, t, nodes - many, x), Nearer(ring, t, nodes - few, x));
      }
    }
  }

  /** The same, of the lists that the walk returns. */
  lemma FetchWithinStore(ring: Ring, nodes: seq<Node>, replicas: nat, fetch: int, store: int)
    requires DistinctPositions(ring, nodes) && fetch <= store
    ensures forall n :: n in Responsible(ring, Sort(ring, nodes), replicas, fetch) ==>
              n in Responsible(ring, Sort(ring, nodes), replicas, store)
  {
    WalkRefinesRing(ring, nodes, replicas, fetch);
    WalkRefinesRing(ring, nodes, replicas, store);
    SmallerSpreadContained(ring, Elements(nodes), replicas, fetch, store);
    forall n | n in Responsible(ring, Sort(ring, nodes), replicas, fetch)
      ensures n in Responsible(ring, Sort(ring, nodes), replicas, store)
    {
      assert n in Elements(Responsible(ring, Sort(ring, nodes), replicas, fetch));
      assert n in Elements(Responsible(ring, Sort(ring, nodes), replicas, store));
    }
  }

  lemma RankInsert(ring: Ring, target: Point, free: set<Node>, e: Node, x: Node)
    requires e !in free
    ensures |Nearer(ring, target, free + {e}, x)|
         == |Nearer(ring, target, free, x)| + (if Distance(ring, target, e) < Distance(ring, target, x) then 1 else 0)
  {
    assert Nearer(ring, target, free + {e}, x)
        == Nearer(ring, target, free, x) + (if Distance(ring, target, e) < Distance(ring, target, x) then {e} else {});
  }

  /** Whoever a newcomer pushes out was the last of the nearest `k`, and the newcomer got in. */
  lemma PushedOut(ring: Ring, target: Point, free: set<Node>, e: Node, k: int, x: Node)
    requires e !in free
    requires x in Nearest(ring, target, free, k) && x !in Nearest(ring, target, free + {e}, k)
    ensures e in Nearest(ring, target, free + {e}, k) && |Nearer(ring, target, free, x)| == k - 1
  {
    RankInsert(ring, target, free, e, x);
    RankInsert(ring, target, free, e, e);
    SubsetCount(Nearer(ring, target, free, e), Nearer(ring, target, free, x));
  }

  lemma DistinctDistance(ring: Ring, target: Point, nodes: set<Node>, x: Node, y: Node)
    requires DistinctOn(ring, nodes) && x in nodes && y in nodes && x != y
    ensures Distance(ring, target, x) != Distance(ring, target, y)
  {
  }

  /** One more free relay can push out at most the last of the nearest `k`, and only by getting in itself. */
  lemma NearestInsert(ring: Ring, target: Point, free: set<Node>, e: Node, k: int)
    requires e !in free && DistinctOn(ring, free + {e})
    ensures var was := Nearest(ring, target, free, k);
            var now := Nearest(ring, target, free + {e}, k);
            && now <= was + {e}
            && (was - now != {} ==> e in now)
            && |was - now| <= 1
  {
    var was, now := Nearest(ring, target, free, k), Nearest(ring, target, free + {e}, k);
    forall x | x in now && x != e ensures x in was {
      RankInsert(ring, target, free, e, x);
    }
    if x :| x in was - now {
      PushedOut(ring, target, free, e, k, x);
      forall y | y in was - now ensures y == x {
        OnlyOnePushedOut(ring, target, free, e, k, x, y);
      }
      assert was - now == {x};
    }
  }

  lemma OnlyOnePushedOut(ring: Ring, target: Point, free: set<Node>, e: Node, k: int, x: Node, y: Node)
    requires e !in free && DistinctOn(ring, free + {e})
    requires x in Nearest(ring, target, free, k) && x !in Nearest(ring, target, free + {e}, k)
    requires y in Nearest(ring, target, free, k) && y !in Nearest(ring, target, free + {e}, k)
    ensures x == y
  {
    PushedOut(ring, target, free, e, k, x);
    PushedOut(ring, target, free, e, k, y);
    if x != y {
      DistinctDistance(ring, target, free + {e}, x, y);
      if Distance(ring, target, x) < Distance(ring, target, y) {
        RankGrows(ring, target, free, x, y);
      } else {
        RankGrows(ring, target, free, y, x);
      }
    }
  }

  lemma RankGrows(ring: Ring, target: Point, free: set<Node>, x: Node, y: Node)
    requires x in free && Distance(ring, target, x) < Distance(ring, target, y)
    ensures |Nearer(ring, target, free, x)| < |Nearer(ring, target, free, y)|
  {
    SubsetCount(Nearer(ring, target, free, x) + {x}, Nearer(ring, target, free, y));
  }

  /**
   * Adding one relay to the ring displaces at most one member of the responsible set, brings in nobody but itself, and
   * displaces only if it is itself chosen, for any number of replicas with skipping. Read backwards, the same bounds
   * what one departing relay changes.
   */
  lemma {:induction false} OneRelayDisplacesOne(ring: Ring, nodes: set<Node>, z: Node, replicas: nat, spread: int)
    requires z !in nodes && DistinctOn(ring, nodes + {z})
    ensures var before := ResponsibleSet(ring, nodes, replicas, spread);
            var after := ResponsibleSet(ring, nodes + {z}, replicas, spread);
            && before <= nodes && after <= before + {z}
            && |before - after| <= 1
            && (before - after != {} ==> z in after)
  {
    hide Nearest, DistinctOn;
    if replicas > 0 {
      OneRelayDisplacesOne(ring, nodes, z, replicas - 1, spread);
      OneMoreReplica(ring, nodes, z, ring.target(replicas), ResponsibleSet(ring, nodes, replicas - 1, spread),
                     ResponsibleSet(ring, nodes + {z}, replicas - 1, spread), spread);
    }
  }

  lemma OneMoreReplica(ring: Ring, nodes: set<Node>, z: Node, t: Point, c: set<Node>, c': set<Node>, spread: int)
    requires z !in nodes && DistinctOn(ring, nodes + {z})
    requires c <= nodes && c' <= c + {z} && |c - c'| <= 1 && (c - c' != {} ==> z in c')
    ensures var before := c + Nearest(ring, t, nodes - c, spread);
            var after := c' + Nearest(ring, t, (nodes + {z}) - c', spread);
            && before <= nodes && after <= before + {z}
            && |before - after| <= 1
            && (before - after != {} ==> z in after)
  {
    hide Nearest, DistinctOn;
    var free := nodes - c;
    NearestWithin(ring, t, free, spread);
    if y :| y in c - c' {
      SingletonOf(c - c', y);
      assert (nodes + {z}) - c' == free + {y};
      DistinctWithin(ring, nodes + {z}, free + {y});
      NearestInsert(ring, t, free, y, spread);
      OneReplica(c, c', Nearest(ring, t, free, spread), Nearest(ring, t, free + {y}, spread), y, z);
    } else if z in c' {
      assert (nodes + {z}) - c' == free && c' == c + {z};
    } else {
      assert c' == c && (nodes + {z}) - c' == free + {z};
      DistinctWithin(ring, nodes + {z}, free + {z});
      NearestInsert(ring, t, free, z, spread);
      FirstArrival(c, Nearest(ring, t, free, spread), Nearest(ring, t, free + {z}, spread), z);
    }
  }

  lemma DistinctWithin(ring: Ring, all: set<Node>, some: set<Node>)
    requires DistinctOn(ring, all) && some <= all
    ensures DistinctOn(ring, some)
  {
  }

  lemma NearestWithin(ring: Ring, target: Point, free: set<Node>, k: int)
    ensures Nearest(ring, target, free, k) <= free
  {
  }

  lemma FirstArrival<T>(c: set<T>, top: set<T>, top': set<T>, z: T)
    requires top !! c && top' <= top + {z} && |top - top'| <= 1
    ensures |(c + top) - (c + top')| <= 1 && c + top' <= (c + top) + {z}
  {
    assert (c + top) - (c + top') == top - top';
  }

  lemma SingletonOf<T>(s: set<T>, y: T)
    requires |s| <= 1 && y in s
    ensures s == {y}
  {
    assert |s - {y}| == 0;
    assert s == (s - {y}) + {y};
  }

  lemma OneReplica<T>(c: set<T>, c': set<T>, top: set<T>, top': set<T>, y: T, z: T)
    requires c - c' == {y} && c' <= c + {z} && z in c'
    requires top !! c && z !in top && top' <= top + {y} && |top - top'| <= 1 && (top - top' != {} ==> y in top')
    ensures |(c + top) - (c' + top')| <= 1 && c' + top' <= (c + top) + {z}
  {
    if y in top' {
      assert (c + top) - (c' + top') == top - top';
    } else {
      assert (c + top) - (c' + top') == {y};
    }
  }

  /** The same, of the lists that the walk returns. */
  lemma NewRelayDisplacesOne(ring: Ring, nodes: seq<Node>, z: Node, replicas: nat, spread: int)
    requires DistinctPositions(ring, nodes + [z])
    ensures var before := Elements(Responsible(ring, Sort(ring, nodes), replicas, spread));
            var after := Elements(Responsible(ring, Sort(ring, nodes + [z]), replicas, spread));
            && |before - after| <= 1 && after <= before + {z} && (before - after != {} ==> z in after)
  {
    hide Sort, Responsible, ResponsibleSet;
    forall i, j | 0 <= i < j < |nodes| ensures ring.At(nodes[i]) != ring.At(nodes[j]) {
      assert (nodes + [z])[i] == nodes[i] && (nodes + [z])[j] == nodes[j];
    }
    assert (nodes + [z])[|nodes|] == z;
    forall i | 0 <= i < |nodes| ensures ring.At(nodes[i]) != ring.At(z) {
      assert (nodes + [z])[i] == nodes[i];
    }
    WalkRefinesRing(ring, nodes, replicas, spread);
    WalkRefinesRing(ring, nodes + [z], replicas, spread);
    ElementsAppend(nodes, [z]);
    assert Elements(nodes + [z]) == Elements(nodes) + {z};
    OneRelayDisplacesOne(ring, Elements(nodes), z, replicas, spread);
  }
}
