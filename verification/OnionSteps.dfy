/** Every step of a lane keeps its invariant. */
module OnionSteps {
  import opened Bytes
  import opened RelayCells
  import opened RelayCryptos
  import opened Onions
  import opened OnionLanes

  lemma HopFrame(dir: Direction, l: Lane, l': Lane, j: nat)
    requires l.Shaped() && l'.Shaped() && j < |l.client| && j < |l'.client|
    requires HopOk(dir, l, j)
    requires l'.client[j] == l.client[j] && l'.relay[j] == l.relay[j]
    requires l'.sent[j] == l.sent[j] && l'.got[j] == l.got[j]
    requires Pipe(dir, l'.links, j, 0) == Pipe(dir, l.links, j, 0)
    ensures HopOk(dir, l', j)
  {
  }

  /** A packet joins hop `j`'s pipe at the producer's end. */
  lemma HopPush(dir: Direction, l: Lane, l': Lane, j: nat, e: Entry)
    requires l.Shaped() && l'.Shaped() && j < |l.client| && j < |l'.client|
    requires HopOk(dir, l, j)
    requires Pipe(dir, l'.links, j, 0) == Pipe(dir, l.links, j, 0) + [e]
    requires e.at == Producer(dir, l)[j] && Producer(dir, l')[j] == Next(e.at, e)
    requires Consumer(dir, l')[j] == Consumer(dir, l)[j]
    requires l'.got[j] == l.got[j]
    requires l'.sent[j] == if e.mine then l.sent[j] + [e.cell.Meaning()] else l.sent[j]
    ensures HopOk(dir, l', j)
  {
    hide Absorbed, Pipe, Chain;
    ChainSnoc(Consumer(dir, l)[j], Pipe(dir, l.links, j, 0), Producer(dir, l)[j], e);
    OwnedAppend(Pipe(dir, l.links, j, 0), [e]);
    assert Owned([e]) == if e.mine then [e.cell.Meaning()] else [];
  }

  /** The oldest packet leaves hop `j`'s pipe at the consumer's end. */
  lemma HopPop(dir: Direction, l: Lane, l': Lane, j: nat, e: Entry)
    requires l.Shaped() && l'.Shaped() && j < |l.client| && j < |l'.client|
    requires HopOk(dir, l, j)
    requires Pipe(dir, l.links, j, 0) == [e] + Pipe(dir, l'.links, j, 0)
    requires Consumer(dir, l')[j] == Next(Consumer(dir, l)[j], e)
    requires Producer(dir, l')[j] == Producer(dir, l)[j]
    requires l'.sent[j] == l.sent[j]
    requires l'.got[j] == if e.mine then l.got[j] + [e.cell.Meaning()] else l.got[j]
    ensures HopOk(dir, l', j)
  {
    hide Absorbed, Pipe, Chain;
    ChainHead(Consumer(dir, l)[j], e, Pipe(dir, l'.links, j, 0), Producer(dir, l)[j]);
    OwnedAppend([e], Pipe(dir, l'.links, j, 0));
    assert Owned([e]) == if e.mine then [e.cell.Meaning()] else [];
  }

  // --- growth ------------------------------------------------------------------

  lemma RelayJoinsOk(dir: Direction, ps: seq<Profile>, starts: seq<Ctx>, l: Lane, p: Profile, start: Ctx)
    requires LaneOk(dir, ps, starts, l) && |l.client| == |l.relay|
    ensures LaneOk(dir, ps + [p], starts + [start], RelayJoins(l, start))
  {
    var l' := RelayJoins(l, start);
    forall h | 0 <= h < |ps| + 1 ensures LinkOk(ps + [p], |l'.client|, h, l'.links[h]) {
      forall x | x in l'.links[h] ensures PacketOk(ps + [p], |l'.client|, h, x) {
        LayersAgree(ps, ps + [p], x.ctxs, x.ctxs, h, x.end, Wire(x.cell));
      }
    }
    forall j | 0 <= j < |l'.client| ensures HopOk(dir, l', j) {
      PipeFrame(dir, l.links, l'.links, j, 0);
      HopFrame(dir, l, l', j);
    }
  }

  lemma {:induction false} DueEmpty(ps: seq<Profile>, n: nat, h: nat, j: nat, link: seq<Packet>)
    requires n <= |ps| && LinkOk(ps, n, h, link) && j >= n
    ensures Due(j, link) == []
  {
    if link != [] {
      assert link[0] in link;
      DueEmpty(ps, n, h, j, link[1..]);
    }
  }

  lemma {:induction false} PipeEmpty(dir: Direction, links: seq<seq<Packet>>, j: nat, k: nat)
    requires j < |links|
    requires forall i :: k <= i <= j ==> Due(j, links[i]) == []
    ensures Pipe(dir, links, j, k) == []
    decreases j + 1 - k
  {
    if k <= j {
      PipeEmpty(dir, links, j, k + 1);
    }
  }

  lemma ClientJoinsOk(dir: Direction, ps: seq<Profile>, starts: seq<Ctx>, l: Lane)
    requires LaneOk(dir, ps, starts, l) && |l.client| < |l.relay|
    ensures LaneOk(dir, ps, starts, ClientJoins(l, starts[|l.client|]))
  {
    var n := |l.client|;
    var l' := ClientJoins(l, starts[n]);
    forall h | 0 <= h < |ps| ensures LinkOk(ps, n + 1, h, l'.links[h]) {
      assert LinkOk(ps, n, h, l.links[h]);
    }
    forall j | 0 <= j < n + 1 ensures HopOk(dir, l', j) {
      if j < n {
        HopFrame(dir, l, l', j);
      } else {
        forall i | 0 <= i <= j ensures Due(j, l.links[i]) == [] {
          DueEmpty(ps, n, i, j, l.links[i]);
        }
        PipeEmpty(dir, l.links, j, 0);
      }
    }
  }

  // --- forward steps -------------------------------------------------------------

  lemma ClientSendsOk(ps: seq<Profile>, starts: seq<Ctx>, l: Lane, cell: RelayCell)
    requires LaneOk(Forward, ps, starts, l) && |l.client| > 0
    requires cell.WellFormed() && cell.recognized == 0
    ensures LaneOk(Forward, ps, starts, ClientSends(ps, l, cell))
  {
    hide Wire, Absorbed, Crypt, HopOk;
    var l' := ClientSends(ps, l, cell);
    var n, t := |l.client|, |l.client| - 1;
    var x := l'.links[0][|l.links[0]|];
    assert PacketOk(ps, n, 0, x);
    forall h | 0 <= h < |ps| ensures LinkOk(ps, n, h, l'.links[h]) {
      assert LinkOk(ps, n, h, l.links[h]);
    }
    forall j | 0 <= j < n ensures HopOk(Forward, l', j) {
      PipePush(Forward, l.links, j, 0, 0, x);
      var e := Entry(l.client[j], t == j, x.cell);
      assert Due(j, [x]) == [e] by { assert [x][1..] == []; }
      HopPush(Forward, l, l', j, e);
    }
  }

  /** What relay `h` sees when it has removed its own layer. */
  function Unwrapped(ps: seq<Profile>, l: Lane, h: nat): (r: bytes)
    requires l.Shaped() && |ps| == |l.relay| && h < |ps| && l.links[h] != []
    ensures |r| == CELL_PAYLOAD_LEN
  {
    Crypt(ps[h], l.relay[h].position, l.links[h][0].body)
  }

  /** The head of a link was encrypted where this relay now stands. */
  lemma ForwardHead(ps: seq<Profile>, starts: seq<Ctx>, l: Lane, h: nat)
    requires LaneOk(Forward, ps, starts, l) && h < |ps| && l.links[h] != []
    ensures PacketOk(ps, |l.client|, h, l.links[h][0]) && h < |l.client|
    ensures l.links[h][0].ctxs[h] == l.relay[h]
    ensures Unwrapped(ps, l, h) == Layers(ps, l.links[h][0].ctxs, h + 1, l.links[h][0].end, Wire(l.links[h][0].cell))
  {
    var x := l.links[h][0];
    assert LinkOk(ps, |l.client|, h, l.links[h]);
    assert x in l.links[h];
    PipePop(Forward, l.links, h, 0, h);
    assert Due(h, l.links[h][..1]) == [Entry(x.ctxs[h], x.end == h, x.cell)] by {
      assert l.links[h][..1][1..] == [];
    }
    assert HopOk(Forward, l, h);
    LayersPeel(ps, x.ctxs, h, x.end, Wire(x.cell));
  }

  /**
   * The relay at the head of a link keeps the cell exactly when it is the cell's target, provided it does not mistake
   * someone else's cell for its own.
   */
  lemma RelayReceivesOk(ps: seq<Profile>, starts: seq<Ctx>, l: Lane, h: nat)
    requires LaneOk(Forward, ps, starts, l) && h < |ps| && l.links[h] != []
    requires l.links[h][0].end != h ==> Recognized(ps[h], l.relay[h].history, Unwrapped(ps, l, h)) == NotMine
    ensures RelayReceives(ps, l, h).Some?
    ensures LaneOk(Forward, ps, starts, RelayReceives(ps, l, h).value)
    ensures RelayReceives(ps, l, h).value.got
         == if l.links[h][0].end == h then l.got[h := l.got[h] + [l.links[h][0].cell.Meaning()]] else l.got
  {
    hide Wire, Absorbed, Crypt, HopOk;
    ForwardHead(ps, starts, l, h);
    var x := l.links[h][0];
    var n := |l.client|;
    if x.end == h {
      StampedIsRecognized(ps[h], l.relay[h].history, x.cell);
    }
    var l' := RelayReceives(ps, l, h).value;
    RelayReceivesLinks(ps, l, l', h);
    forall j | 0 <= j < n ensures HopOk(Forward, l', j) {
      RelayReceivesHop(ps, l, l', h, j);
    }
  }

  lemma RelayReceivesHop(ps: seq<Profile>, l: Lane, l': Lane, h: nat, j: nat)
    requires l.Shaped() && |ps| == |l.relay| && j < |l.client| && h < |l.client| && l.links[h] != []
    requires RelayReceives(ps, l, h) == Some(l') && HopOk(Forward, l, j)
    requires var x := l.links[h][0];
             var r := Recognized(ps[h], l.relay[h].history, Unwrapped(ps, l, h));
             && h <= x.end
             && (x.end != h ==> r == NotMine)
             && (x.end == h ==> r == Mine(x.cell) && ZeroDigest(Unwrapped(ps, l, h)) == Absorbed(x.cell))
    ensures HopOk(Forward, l', j)
  {
    hide Wire, Absorbed, Crypt, Recognized, ZeroDigest, HopOk, Pipe;
    var x := l.links[h][0];
    if j < h {
      PipeFrame(Forward, l.links, l'.links, j, 0);
      HopFrame(Forward, l, l', j);
    } else if j == h {
      DueOne(h, x);
      assert l.links[h][..1] == [x];
      PipePop(Forward, l.links, h, 0, h);
      PipeFrame(Forward, l.links[h := l.links[h][1..]], l'.links, h, 0);
      HopPop(Forward, l, l', h, Entry(x.ctxs[h], x.end == h, x.cell));
    } else {
      var moved := if x.end == h then None else Some(l'.links[h + 1][|l.links[h + 1]|]);
      LeavesFor(l.links, l'.links, h, j, moved);
      HopFrame(Forward, l, l', j);
    }
  }

  lemma DueOne(j: nat, x: Packet)
    ensures Due(j, [x]) == if x.end >= j then [Entry(x.ctxs[j], x.end == j, x.cell)] else []
  {
    assert [x][1..] == [];
  }

  /** Behind hop `h`, a packet that moves on keeps its place and one that stays was never counted. */
  lemma LeavesFor(links: seq<seq<Packet>>, links': seq<seq<Packet>>, h: nat, j: nat, moved: Option<Packet>)
    requires h < j < |links| && links[h] != []
    requires match moved
             case Some(y) => y.end == links[h][0].end && y.ctxs == links[h][0].ctxs && y.cell == links[h][0].cell
                             && links' == links[h := links[h][1..]][h + 1 := links[h + 1] + [y]]
             case None => links[h][0].end == h && links' == links[h := links[h][1..]]
    ensures Pipe(Forward, links', j, 0) == Pipe(Forward, links, j, 0)
  {
    hide Due, Pipe;
    var x := links[h][0];
    DuePop(j, links[h]);
    assert links[h][..1] == [x];
    DueOne(j, x);
    match moved
    case Some(y) =>
      DueOne(j, y);
      DueAppend(j, links[h + 1], [y]);
      PipeMove(Forward, links, links', j, 0, h, Due(j, [y]));
    case None =>
      PipeFrame(Forward, links, links', j, 0);
  }

  lemma RelayReceivesLinks(ps: seq<Profile>, l: Lane, l': Lane, h: nat)
    requires l.Shaped() && |ps| == |l.relay| && h < |l.client| && l.links[h] != []
    requires RelayReceives(ps, l, h) == Some(l')
    requires forall i :: 0 <= i < |ps| ==> LinkOk(ps, |l.client|, i, l.links[i])
    requires l.links[h][0].end < |ps|
    requires Unwrapped(ps, l, h) == Layers(ps, l.links[h][0].ctxs, h + 1, l.links[h][0].end, Wire(l.links[h][0].cell))
    requires l.links[h][0].end != h ==> Recognized(ps[h], l.relay[h].history, Unwrapped(ps, l, h)) == NotMine
    requires l.links[h][0].end == h ==> Recognized(ps[h], l.relay[h].history, Unwrapped(ps, l, h)).Mine?
    ensures forall i :: 0 <= i < |ps| ==> LinkOk(ps, |l.client|, i, l'.links[i])
  {
    hide Wire, Absorbed, Crypt, Recognized, ZeroDigest, HopOk, Stamped;
    var n, x := |l.client|, l.links[h][0];
    assert LinkOk(ps, n, h, l.links[h]);
    assert x in l.links[h];
    forall i | 0 <= i < |ps| ensures LinkOk(ps, n, i, l'.links[i]) {
      assert LinkOk(ps, n, i, l.links[i]);
      if i == h + 1 && x.end != h {
        assert PacketOk(ps, n, h + 1, x.(body := Unwrapped(ps, l, h)));
      }
    }
  }

  // --- backward steps --------------------------------------------------------------

  lemma RelaySendsOk(ps: seq<Profile>, starts: seq<Ctx>, l: Lane, h: nat, cell: RelayCell)
    requires LaneOk(Backward, ps, starts, l) && h < |l.client|
    requires cell.WellFormed() && cell.recognized == 0
    ensures LaneOk(Backward, ps, starts, RelaySends(ps, l, h, cell))
  {
    hide Wire, Absorbed, Crypt, HopOk;
    var l' := RelaySends(ps, l, h, cell);
    var n := |l.client|;
    var x := l'.links[h][|l.links[h]|];
    assert PacketOk(ps, n, h, x) by {
      assert Layers(ps, x.ctxs, h + 1, h, Wire(x.cell)) == Wire(x.cell);
    }
    forall i | 0 <= i < |ps| ensures LinkOk(ps, n, i, l'.links[i]) {
      assert LinkOk(ps, n, i, l.links[i]);
    }
    forall j | 0 <= j < n ensures HopOk(Backward, l', j) {
      assert HopOk(Backward, l, j);
      assert [x][1..] == [];
      if j == h {
        PipePush(Backward, l.links, h, 0, h, x);
        HopPush(Backward, l, l', h, Entry(l.relay[h], true, x.cell));
      } else {
        DueAppend(j, l.links[h], [x]);
        PipeFrame(Backward, l.links, l'.links, j, 0);
        HopFrame(Backward, l, l', j);
      }
    }
  }

  lemma RelayPassesOk(ps: seq<Profile>, starts: seq<Ctx>, l: Lane, h: nat)
    requires LaneOk(Backward, ps, starts, l) && h + 1 < |ps| && l.links[h + 1] != []
    ensures LaneOk(Backward, ps, starts, RelayPasses(ps, l, h))
  {
    hide Wire, Absorbed, Crypt, HopOk;
    var l' := RelayPasses(ps, l, h);
    var n, x := |l.client|, l.links[h + 1][0];
    assert LinkOk(ps, n, h + 1, l.links[h + 1]);
    assert x in l.links[h + 1];
    RelayPassesPacket(ps, l, h);
    forall i | 0 <= i < |ps| ensures LinkOk(ps, n, i, l'.links[i]) {
      assert LinkOk(ps, n, i, l.links[i]);
    }
    forall j | 0 <= j < n ensures HopOk(Backward, l', j) {
      assert HopOk(Backward, l, j);
      RelayPassesHop(ps, l, l', h, j);
    }
  }

  lemma RelayPassesPacket(ps: seq<Profile>, l: Lane, h: nat)
    requires l.Shaped() && |ps| == |l.relay| && h + 1 < |ps| && l.links[h + 1] != []
    requires PacketOk(ps, |l.client|, h + 1, l.links[h + 1][0])
    ensures PacketOk(ps, |l.client|, h, RelayPasses(ps, l, h).links[h][|l.links[h]|])
  {
    hide Wire, Absorbed, Crypt;
    var x, x' := l.links[h + 1][0], RelayPasses(ps, l, h).links[h][|l.links[h]|];
    LayersAgree(ps, ps, x.ctxs, x'.ctxs, h + 1, x.end, Wire(x.cell));
  }

  lemma RelayPassesHop(ps: seq<Profile>, l: Lane, l': Lane, h: nat, j: nat)
    requires l.Shaped() && |ps| == |l.relay| && h + 1 < |ps| && l.links[h + 1] != [] && j < |l.client|
    requires l.links[h + 1][0].end >= h + 1
    requires l' == RelayPasses(ps, l, h) && HopOk(Backward, l, j)
    ensures HopOk(Backward, l', j)
  {
    hide Due, Pipe, HopOk, Crypt;
    var x, x' := l.links[h + 1][0], l'.links[h][|l.links[h]|];
    assert l.links[h + 1][..1] == [x];
    DueOne(j, x);
    DueOne(j, x');
    if j < h {
      PipeFrame(Backward, l.links, l'.links, j, 0);
      HopFrame(Backward, l, l', j);
    } else if j == h {
      PipePush(Backward, l.links, h, 0, h, x');
      PipeFrame(Backward, l.links[h := l.links[h] + [x']], l'.links, h, 0);
      HopPush(Backward, l, l', h, Entry(l.relay[h], false, x.cell));
    } else {
      DuePop(j, l.links[h + 1]);
      DueAppend(j, l.links[h], [x']);
      PipeMove(Backward, l.links, l'.links, j, 0, h, Due(j, [x']));
      HopFrame(Backward, l, l', j);
    }
  }

  /** The head of the client's link was encrypted, layer by layer, where the client now stands. */
  lemma BackwardHead(ps: seq<Profile>, starts: seq<Ctx>, l: Lane, k: nat)
    requires LaneOk(Backward, ps, starts, l) && |ps| > 0 && l.links[0] != [] && k <= l.links[0][0].end
    ensures PacketOk(ps, |l.client|, 0, l.links[0][0])
    ensures l.links[0][0].ctxs[k] == l.client[k]
  {
    var x := l.links[0][0];
    assert LinkOk(ps, |l.client|, 0, l.links[0]);
    assert x in l.links[0];
    assert HopOk(Backward, l, k);
    assert l.links[0][..1][1..] == [];
    PipePop(Backward, l.links, k, 0, 0);
  }

  lemma ClientHead(ps: seq<Profile>, starts: seq<Ctx>, l: Lane)
    requires LaneOk(Backward, ps, starts, l) && |ps| > 0 && l.links[0] != []
    ensures var x := l.links[0][0];
            && PacketOk(ps, |l.client|, 0, x)
            && x.ctxs == l.client[..x.end + 1]
            && x.body == Layers(ps[..|l.client|], x.ctxs, 0, x.end, Wire(x.cell))
  {
    var x, n := l.links[0][0], |l.client|;
    BackwardHead(ps, starts, l, 0);
    forall k: nat | k <= x.end ensures x.ctxs[k] == l.client[k] {
      BackwardHead(ps, starts, l, k);
    }
    LayersAgree(ps, ps[..n], x.ctxs, x.ctxs, 0, x.end, Wire(x.cell));
  }

  lemma ClientPeels(ps: seq<Profile>, starts: seq<Ctx>, l: Lane)
    requires LaneOk(Backward, ps, starts, l) && |ps| > 0 && l.links[0] != []
    requires NoneEarlier(ps[..|l.client|], l.client, l.links[0][0].end, l.links[0][0].body)
    ensures var x := l.links[0][0];
            && PacketOk(ps, |l.client|, 0, x)
            && Peel(ps[..|l.client|], l.client, 0, x.body)
            == Routed(Moved(l.client, x.end + 1)[x.end := Ctx(l.client[x.end].position + CELL_PAYLOAD_LEN,
                                                              l.client[x.end].history + Absorbed(x.cell))],
                      x.cell, x.end)
  {
    hide Wire, Absorbed, Crypt, HopOk, Peel, Stamped, Layers;
    ClientHead(ps, starts, l);
    var x := l.links[0][0];
    PeelRoutes(ps[..|l.client|], l.client, x.end, x.cell, x.body);
  }

  /** The client routes the cell to exactly the hop that sent it. */
  lemma ClientReceivesOk(ps: seq<Profile>, starts: seq<Ctx>, l: Lane)
    requires LaneOk(Backward, ps, starts, l) && |ps| > 0 && l.links[0] != []
    requires NoneEarlier(ps[..|l.client|], l.client, l.links[0][0].end, l.links[0][0].body)
    ensures ClientReceives(ps, l).Some?
    ensures LaneOk(Backward, ps, starts, ClientReceives(ps, l).value)
    ensures var x := l.links[0][0];
            x.end < |ps| && ClientReceives(ps, l).value.got == l.got[x.end := l.got[x.end] + [x.cell.Meaning()]]
  {
    hide Wire, Absorbed, Crypt, HopOk, Peel, Stamped;
    ClientPeels(ps, starts, l);
    var x, n := l.links[0][0], |l.client|;
    var l' := ClientReceives(ps, l).value;
    forall i | 0 <= i < |ps| ensures LinkOk(ps, n, i, l'.links[i]) {
      assert LinkOk(ps, n, i, l.links[i]);
    }
    forall j | 0 <= j < n ensures HopOk(Backward, l', j) {
      assert HopOk(Backward, l, j);
      assert l.links[0][..1][1..] == [];
      PipePop(Backward, l.links, j, 0, 0);
      if j <= x.end {
        HopPop(Backward, l, l', j, Entry(x.ctxs[j], x.end == j, x.cell));
      } else {
        HopFrame(Backward, l, l', j);
      }
    }
  }
}
