/**
 * One direction of a circuit, as the network sees it: the client's contexts, the relays' contexts, and a FIFO link
 * in front of every relay. Link `h` joins relay `h` to its neighbour on the client's side.
 *
 * A packet carries its wire body together with history variables that no step reads to decide anything: the hop at
 * its far end, the stamped cell, and the context at which each hop encrypted it.
 */
module OnionLanes {
  import opened Bytes
  import opened RelayCells
  import opened RelayCryptos
  import opened Onions

  datatype Packet0 = Packet(body: bytes, end: nat, cell: RelayCell, ctxs: seq<Ctx>)

  type Packet = p: Packet0 | |p.body| == CELL_PAYLOAD_LEN && p.cell.WellFormed() && |p.ctxs| == p.end + 1
    witness Packet(Zeros(CELL_PAYLOAD_LEN), 0, RelayCell(0, 0, [], 0, ZERO_DIGEST, Zeros(RELAY_PAYLOAD_LEN)),
        [Ctx(0, [])])

  /** `sent[h]` and `got[h]` log what was stamped for, and recognized at, hop `h` (or from hop `h`, backward). */
  datatype Lane = Lane(
    client: seq<Ctx>, relay: seq<Ctx>, links: seq<seq<Packet>>,
    sent: seq<seq<Message>>, got: seq<seq<Message>>)
  {
    predicate Shaped() {
      && |client| <= |relay| <= |client| + 1
      && |relay| == |links| == |sent| == |got|
    }
  }

  datatype Direction = Forward | Backward

  /** The end that removes hop `j`'s layer, and the end that adds it. */
  function Consumer(dir: Direction, l: Lane): seq<Ctx> {
    if dir.Forward? then l.relay else l.client
  }

  function Producer(dir: Direction, l: Lane): seq<Ctx> {
    if dir.Forward? then l.client else l.relay
  }

  // --- steps -------------------------------------------------------------------

  /** A relay that has just learned its keys, ahead of the client. */
  function RelayJoins(l: Lane, start: Ctx): Lane {
    Lane(l.client, l.relay + [start], l.links + [[]], l.sent + [[]], l.got + [[]])
  }

  function ClientJoins(l: Lane, start: Ctx): Lane {
    l.(client := l.client + [start])
  }

  /** The client stamps for its last hop and wraps from that hop inward. */
  function ClientSends(ps: seq<Profile>, l: Lane, cell: RelayCell): Lane
    requires l.Shaped() && |ps| == |l.relay| && |l.client| > 0 && cell.WellFormed()
  {
    var t := |l.client| - 1;
    var packet := Packet(Wrapped(ps, l.client, cell), t, Stamped(ps[t], l.client[t].history, cell), l.client);
    l.(client := AfterSending(l.client, cell),
       links := l.links[0 := l.links[0] + [packet]],
       sent := l.sent[t := l.sent[t] + [cell.Meaning()]])
  }

  /** A relay unwraps one cell and keeps it, passes it on, or fails (`None`). */
  function RelayReceives(ps: seq<Profile>, l: Lane, h: nat): Option<Lane>
    requires l.Shaped() && |ps| == |l.relay| && h < |ps| && l.links[h] != []
  {
    var p := l.links[h][0];
    var inner := Crypt(ps[h], l.relay[h].position, p.body);
    var moved := Ctx(l.relay[h].position + |p.body|, l.relay[h].history);
    match Recognized(ps[h], l.relay[h].history, inner)
    case Mine(cell) =>
      Some(l.(relay := l.relay[h := moved.(history := moved.history + ZeroDigest(inner))],
              links := l.links[h := l.links[h][1..]],
              got := l.got[h := l.got[h] + [cell.Meaning()]]))
    case NotMine =>
      if h + 1 == |ps| then None
      else Some(l.(relay := l.relay[h := moved],
                   links := l.links[h := l.links[h][1..]][h + 1 := l.links[h + 1] + [p.(body := inner)]]))
    case Malformed(_) => None
  }

  /** A relay originates a backward cell. */
  function RelaySends(ps: seq<Profile>, l: Lane, h: nat, cell: RelayCell): Lane
    requires l.Shaped() && |ps| == |l.relay| && h < |ps| && cell.WellFormed()
  {
    var stamped := Stamped(ps[h], l.relay[h].history, cell);
    var packet := Packet(Crypt(ps[h], l.relay[h].position, Wire(stamped)), h, stamped, l.relay[..h + 1]);
    l.(relay := l.relay[h := Ctx(l.relay[h].position + CELL_PAYLOAD_LEN, l.relay[h].history + Absorbed(cell))],
       links := l.links[h := l.links[h] + [packet]],
       sent := l.sent[h := l.sent[h] + [cell.Meaning()]])
  }

  /** A relay adds its layer to a backward cell from behind it. */
  function RelayPasses(ps: seq<Profile>, l: Lane, h: nat): Lane
    requires l.Shaped() && |ps| == |l.relay| && h + 1 < |ps| && l.links[h + 1] != []
  {
    var p := l.links[h + 1][0];
    var packet := p.(body := Crypt(ps[h], l.relay[h].position, p.body),
                     ctxs := if h <= p.end then p.ctxs[h := l.relay[h]] else p.ctxs);
    l.(relay := l.relay[h := Ctx(l.relay[h].position + |p.body|, l.relay[h].history)],
       links := l.links[h + 1 := l.links[h + 1][1..]][h := l.links[h] + [packet]])
  }

  /** The client unwraps hop by hop until one hop recognizes the cell, or fails (`None`). */
  function ClientReceives(ps: seq<Profile>, l: Lane): Option<Lane>
    requires l.Shaped() && |ps| == |l.relay| && |ps| > 0 && l.links[0] != []
  {
    match Peel(ps[..|l.client|], l.client, 0, l.links[0][0].body)
    case Routed(ctxs, cell, origin) =>
      Some(l.(client := ctxs,
              links := l.links[0 := l.links[0][1..]],
              got := l.got[origin := l.got[origin] + [cell.Meaning()]]))
    case _ => None
  }

  // --- the cells in flight between the two ends of a hop's layer -----------------

  datatype Entry0 = Entry(at: Ctx, mine: bool, cell: RelayCell)

  type Entry = e: Entry0 | e.cell.WellFormed()
    witness Entry(Ctx(0, []), false, RelayCell(0, 0, [], 0, ZERO_DIGEST, Zeros(RELAY_PAYLOAD_LEN)))

  /** The packets of a link that carry, or will carry, hop `j`'s layer. */
  function Due(j: nat, link: seq<Packet>): seq<Entry> {
    if link == [] then []
    else (if link[0].end >= j then [Entry(link[0].ctxs[j], link[0].end == j, link[0].cell)] else [])
         + Due(j, link[1..])
  }

  lemma {:induction false} DueAppend(j: nat, a: seq<Packet>, b: seq<Packet>)
    ensures Due(j, a + b) == Due(j, a) + Due(j, b)
  {
    if a == [] {
      assert a + b == b;
    } else {
      assert (a + b)[1..] == a[1..] + b;
      DueAppend(j, a[1..], b);
    }
  }

  lemma DuePop(j: nat, link: seq<Packet>)
    requires link != []
    ensures Due(j, link) == Due(j, link[..1]) + Due(j, link[1..])
  {
    assert link[..1] + link[1..] == link;
    DueAppend(j, link[..1], link[1..]);
  }

  /** Hop `j`'s packets on links `k..j`, oldest first. */
  function Pipe(dir: Direction, links: seq<seq<Packet>>, j: nat, k: nat): seq<Entry>
    requires j < |links|
    decreases j + 1 - k
  {
    if k > j then []
    else if dir.Forward? then Pipe(dir, links, j, k + 1) + Due(j, links[k])
    else Due(j, links[k]) + Pipe(dir, links, j, k + 1)
  }

  lemma {:induction false} PipeFrame(dir: Direction, links: seq<seq<Packet>>, links': seq<seq<Packet>>, j: nat, k: nat)
    requires j < |links| && j < |links'|
    requires forall i :: k <= i <= j ==> Due(j, links[i]) == Due(j, links'[i])
    ensures Pipe(dir, links, j, k) == Pipe(dir, links', j, k)
    decreases j + 1 - k
  {
    if k <= j {
      PipeFrame(dir, links, links', j, k + 1);
    }
  }

  /** A packet put on the producer's end of the pipe joins at the back. */
  lemma {:induction false} PipePush(dir: Direction, links: seq<seq<Packet>>, j: nat, k: nat, h: nat, x: Packet)
    requires j < |links| && k <= h <= j
    requires if dir.Forward? then h == k else h == j
    ensures Pipe(dir, links[h := links[h] + [x]], j, k) == Pipe(dir, links, j, k) + Due(j, [x])
    decreases j + 1 - k
  {
    hide Due;
    var links' := links[h := links[h] + [x]];
    DueAppend(j, links[h], [x]);
    if k == h {
      PipeFrame(dir, links, links', j, k + 1);
    } else {
      PipePush(dir, links, j, k + 1, h, x);
    }
  }

  /** A packet taken off the consumer's end of the pipe leaves from the front. */
  lemma {:induction false} PipePop(dir: Direction, links: seq<seq<Packet>>, j: nat, k: nat, h: nat)
    requires j < |links| && k <= h <= j && links[h] != []
    requires if dir.Forward? then h == j else h == k
    ensures Pipe(dir, links, j, k) == Due(j, links[h][..1]) + Pipe(dir, links[h := links[h][1..]], j, k)
    decreases j + 1 - k
  {
    hide Due;
    var links' := links[h := links[h][1..]];
    DuePop(j, links[h]);
    if k == h {
      PipeFrame(dir, links, links', j, k + 1);
    } else {
      PipePop(dir, links, j, k + 1, h);
    }
  }

  lemma Reassociate<T>(a: seq<T>, b: seq<T>, c: seq<T>, d: seq<T>)
    ensures (a + b) + (c + d) == (a + (b + c)) + d
    ensures b + ((c + d) + a) == (b + c) + (d + a)
  {
  }

  lemma PipeMoveHere(dir: Direction, links: seq<seq<Packet>>, links': seq<seq<Packet>>, j: nat, h: nat, x: seq<Entry>)
    requires h + 1 <= j < |links| == |links'|
    requires forall i :: h + 2 <= i <= j ==> Due(j, links[i]) == Due(j, links'[i])
    requires dir.Forward? ==> Due(j, links[h]) == x + Due(j, links'[h])
                              && Due(j, links'[h + 1]) == Due(j, links[h + 1]) + x
    requires dir.Backward? ==> Due(j, links[h + 1]) == x + Due(j, links'[h + 1])
                               && Due(j, links'[h]) == Due(j, links[h]) + x
    ensures Pipe(dir, links', j, h) == Pipe(dir, links, j, h)
  {
    hide Due;
    PipeFrame(dir, links, links', j, h + 2);
    PipeTwo(dir, links, j, h);
    PipeTwo(dir, links', j, h);
    var rest := Pipe(dir, links, j, h + 2);
    if dir.Forward? {
      Reassociate(rest, Due(j, links[h + 1]), x, Due(j, links'[h]));
    } else {
      Reassociate(rest, Due(j, links[h]), x, Due(j, links'[h + 1]));
    }
  }

  lemma PipeTwo(dir: Direction, links: seq<seq<Packet>>, j: nat, h: nat)
    requires h + 1 <= j < |links|
    ensures var rest := Pipe(dir, links, j, h + 2);
            Pipe(dir, links, j, h) == if dir.Forward? then (rest + Due(j, links[h + 1])) + Due(j, links[h])
                                      else Due(j, links[h]) + (Due(j, links[h + 1]) + rest)
  {
    assert Pipe(dir, links, j, h + 1) == if dir.Forward? then Pipe(dir, links, j, h + 2) + Due(j, links[h + 1])
                                         else Due(j, links[h + 1]) + Pipe(dir, links, j, h + 2);
  }

  /** A packet moving between two links inside the pipe keeps its place. */
  lemma {:induction false} PipeMove(dir: Direction, links: seq<seq<Packet>>, links': seq<seq<Packet>>, j: nat, k: nat,
                                    h: nat, x: seq<Entry>)
    requires h + 1 <= j < |links| == |links'| && k <= h
    requires forall i :: k <= i <= j && i != h && i != h + 1 ==> Due(j, links[i]) == Due(j, links'[i])
    requires dir.Forward? ==> Due(j, links[h]) == x + Due(j, links'[h])
                              && Due(j, links'[h + 1]) == Due(j, links[h + 1]) + x
    requires dir.Backward? ==> Due(j, links[h + 1]) == x + Due(j, links'[h + 1])
                               && Due(j, links'[h]) == Due(j, links[h]) + x
    ensures Pipe(dir, links', j, k) == Pipe(dir, links, j, k)
    decreases h - k
  {
    hide Due;
    if k == h {
      PipeMoveHere(dir, links, links', j, h, x);
    } else {
      PipeMove(dir, links, links', j, k + 1, h, x);
    }
  }

  // --- how contexts advance along the pipe ---------------------------------------

  /** Every hop's keystream advances over a cell; only the hop it is for absorbs it. */
  function Next(c: Ctx, e: Entry): Ctx {
    Ctx(c.position + CELL_PAYLOAD_LEN, if e.mine then c.history + Absorbed(e.cell) else c.history)
  }

  /** Following the entries from `start`, each was encrypted exactly where it will be decrypted. */
  predicate Chain(start: Ctx, es: seq<Entry>, finish: Ctx)
    decreases |es|
  {
    if es == [] then start == finish
    else es[0].at == start && Chain(Next(start, es[0]), es[1..], finish)
  }

  lemma {:induction false} ChainSnoc(start: Ctx, es: seq<Entry>, middle: Ctx, e: Entry)
    requires Chain(start, es, middle) && e.at == middle
    ensures Chain(start, es + [e], Next(middle, e))
    decreases |es|
  {
    if es == [] {
      assert es + [e] == [e];
      assert [e][1..] == [];
    } else {
      assert (es + [e])[1..] == es[1..] + [e];
      ChainSnoc(Next(start, es[0]), es[1..], middle, e);
    }
  }

  lemma ChainHead(start: Ctx, e: Entry, es: seq<Entry>, finish: Ctx)
    requires Chain(start, [e] + es, finish)
    ensures e.at == start && Chain(Next(start, e), es, finish)
  {
    assert ([e] + es)[1..] == es;
  }

  /** The messages among the entries that are for this hop. */
  function Owned(es: seq<Entry>): seq<Message> {
    if es == [] then []
    else (if es[0].mine then [es[0].cell.Meaning()] else []) + Owned(es[1..])
  }

  lemma {:induction false} OwnedAppend(a: seq<Entry>, b: seq<Entry>)
    ensures Owned(a + b) == Owned(a) + Owned(b)
  {
    hide RelayCell.Meaning;
    if a == [] {
      assert a + b == b;
    } else {
      assert (a + b)[1..] == a[1..] + b;
      OwnedAppend(a[1..], b);
    }
  }

  // --- the invariant ---------------------------------------------------------------

  predicate PacketOk(ps: seq<Profile>, n: nat, h: nat, p: Packet)
    requires n <= |ps|
  {
    && h <= p.end < n
    && p.cell.recognized == 0
    && p.cell == Stamped(ps[p.end], p.ctxs[p.end].history, p.cell)
    && p.body == Layers(ps, p.ctxs, h, p.end, Wire(p.cell))
  }

  ghost predicate LinkOk(ps: seq<Profile>, n: nat, h: nat, link: seq<Packet>)
    requires n <= |ps|
  {
    forall p :: p in link ==> PacketOk(ps, n, h, p)
  }

  /** Hop `j`'s two ends are one pipe apart, and its logs differ by exactly what is in the pipe. */
  ghost predicate HopOk(dir: Direction, l: Lane, j: nat)
    requires l.Shaped() && j < |l.client|
  {
    && Chain(Consumer(dir, l)[j], Pipe(dir, l.links, j, 0), Producer(dir, l)[j])
    && l.got[j] + Owned(Pipe(dir, l.links, j, 0)) == l.sent[j]
  }

  ghost predicate LaneOk(dir: Direction, ps: seq<Profile>, starts: seq<Ctx>, l: Lane) {
    && l.Shaped() && |ps| == |starts| == |l.relay|
    && (forall h :: 0 <= h < |ps| ==> LinkOk(ps, |l.client|, h, l.links[h]))
    && (forall j :: 0 <= j < |l.client| ==> HopOk(dir, l, j))
    && (forall j :: |l.client| <= j < |ps| ==> l.relay[j] == starts[j] && l.sent[j] == l.got[j] == [])
  }
}
