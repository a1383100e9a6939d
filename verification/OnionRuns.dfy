/**
 * Whole runs of a circuit: it grows, cells travel both ways over FIFO links, and cells from different hops interleave.
 * Standard: "Relay cells" and "Routing relay cells" of tor-spec.
 */
module OnionRuns {
  import opened Bytes
  import opened RelayCells
  import opened RelayCryptos
  import opened Onions
  import opened OnionLanes
  import opened OnionSteps
  import opened Sequences

  datatype Hop = Hop(fwd: Profile, bwd: Profile, fwdSeed: bytes, bwdSeed: bytes)

  datatype State = Open(hops: seq<Hop>, fwd: Lane, bwd: Lane) | TornDown

  datatype Event =
    | RelayLearnsKeys(hop: Hop)               // a relay finished its half of a handshake
    | ClientLearnsKeys                        // the client finished the other half
    | Send(cell: RelayCell)                   // the client sends to its last hop
    | Deliver(h: nat)                         // relay h takes a cell off its forward link
    | Originate(h: nat, cell: RelayCell)      // relay h sends a cell of its own to the client
    | Pass(h: nat)                            // relay h adds its layer to a backward cell
    | Receive                                 // the client takes a backward cell off its link

  function Fwds(hops: seq<Hop>): (ps: seq<Profile>)
    ensures |ps| == |hops| && forall i :: 0 <= i < |ps| ==> ps[i] == hops[i].fwd
  {
    seq(|hops|, i requires 0 <= i < |hops| => hops[i].fwd)
  }

  function Bwds(hops: seq<Hop>): (ps: seq<Profile>)
    ensures |ps| == |hops| && forall i :: 0 <= i < |ps| ==> ps[i] == hops[i].bwd
  {
    seq(|hops|, i requires 0 <= i < |hops| => hops[i].bwd)
  }

  function FwdStarts(hops: seq<Hop>): (cs: seq<Ctx>)
    ensures |cs| == |hops| && forall i :: 0 <= i < |cs| ==> cs[i] == Ctx(0, hops[i].fwdSeed)
  {
    seq(|hops|, i requires 0 <= i < |hops| => Ctx(0, hops[i].fwdSeed))
  }

  function BwdStarts(hops: seq<Hop>): (cs: seq<Ctx>)
    ensures |cs| == |hops| && forall i :: 0 <= i < |cs| ==> cs[i] == Ctx(0, hops[i].bwdSeed)
  {
    seq(|hops|, i requires 0 <= i < |hops| => Ctx(0, hops[i].bwdSeed))
  }

  predicate Shaped(s: State) {
    s.Open? && s.fwd.Shaped() && s.bwd.Shaped()
    && |s.hops| == |s.fwd.relay| == |s.bwd.relay| && |s.fwd.client| == |s.bwd.client|
  }

  predicate Enabled(s: State, e: Event) {
    Shaped(s)
    && match e
       case RelayLearnsKeys(_) => |s.fwd.client| == |s.hops|
       case ClientLearnsKeys => |s.fwd.client| < |s.hops|
       case Send(cell) => |s.fwd.client| > 0 && cell.WellFormed() && cell.recognized == 0
       case Deliver(h) => h < |s.hops| && s.fwd.links[h] != []
       case Originate(h, cell) => h < |s.fwd.client| && cell.WellFormed() && cell.recognized == 0
       case Pass(h) => h + 1 < |s.hops| && s.bwd.links[h + 1] != []
       case Receive => |s.hops| > 0 && s.bwd.links[0] != []
  }

  /** Nobody takes a cell meant for another hop for its own: a 4-byte digest collision does not happen on this step. */
  ghost predicate NoFalseRecognition(s: State, e: Event)
    requires Enabled(s, e)
  {
    match e
    case Deliver(h) =>
      s.fwd.links[h][0].end != h ==>
        Recognized(s.hops[h].fwd, s.fwd.relay[h].history, Unwrapped(Fwds(s.hops), s.fwd, h)) == NotMine
    case Receive =>
      NoneEarlier(Bwds(s.hops)[..|s.bwd.client|], s.bwd.client, s.bwd.links[0][0].end, s.bwd.links[0][0].body)
    case _ => true
  }

  function Step(s: State, e: Event): State
    requires Enabled(s, e)
  {
    var n := |s.fwd.client|;
    match e
    case RelayLearnsKeys(hop) =>
      Open(s.hops + [hop], RelayJoins(s.fwd, Ctx(0, hop.fwdSeed)), RelayJoins(s.bwd, Ctx(0, hop.bwdSeed)))
    case ClientLearnsKeys =>
      s.(fwd := ClientJoins(s.fwd, Ctx(0, s.hops[n].fwdSeed)), bwd := ClientJoins(s.bwd, Ctx(0, s.hops[n].bwdSeed)))
    case Send(cell) => s.(fwd := ClientSends(Fwds(s.hops), s.fwd, cell))
    case Deliver(h) =>
      (match RelayReceives(Fwds(s.hops), s.fwd, h)
       case Some(l) => s.(fwd := l)
       case None => TornDown)
    case Originate(h, cell) => s.(bwd := RelaySends(Bwds(s.hops), s.bwd, h, cell))
    case Pass(h) => s.(bwd := RelayPasses(Bwds(s.hops), s.bwd, h))
    case Receive =>
      match ClientReceives(Bwds(s.hops), s.bwd)
      case Some(l) => s.(bwd := l)
      case None => TornDown
  }

  const NEW_CIRCUIT := Open([], Lane([], [], [], [], []), Lane([], [], [], [], []))

  ghost predicate Run(states: seq<State>, events: seq<Event>) {
    && |states| == |events| + 1
    && states[0] == NEW_CIRCUIT
    && forall i :: 0 <= i < |events| ==>
         && Enabled(states[i], events[i])
         && NoFalseRecognition(states[i], events[i])
         && states[i + 1] == Step(states[i], events[i])
  }

  // --- what a run keeps ------------------------------------------------------------

  ghost predicate Inv(s: State) {
    && Shaped(s)
    && LaneOk(Forward, Fwds(s.hops), FwdStarts(s.hops), s.fwd)
    && LaneOk(Backward, Bwds(s.hops), BwdStarts(s.hops), s.bwd)
  }

  lemma GrowthKeepsInv(s: State, e: Event)
    requires Inv(s) && Enabled(s, e) && (e.RelayLearnsKeys? || e.ClientLearnsKeys?)
    ensures Inv(Step(s, e))
  {
    hide HopOk, LinkOk;
    var s' := Step(s, e);
    match e
    case RelayLearnsKeys(hop) =>
      assert Fwds(s'.hops) == Fwds(s.hops) + [hop.fwd];
      assert Bwds(s'.hops) == Bwds(s.hops) + [hop.bwd];
      assert FwdStarts(s'.hops) == FwdStarts(s.hops) + [Ctx(0, hop.fwdSeed)];
      assert BwdStarts(s'.hops) == BwdStarts(s.hops) + [Ctx(0, hop.bwdSeed)];
      RelayJoinsOk(Forward, Fwds(s.hops), FwdStarts(s.hops), s.fwd, hop.fwd, Ctx(0, hop.fwdSeed));
      RelayJoinsOk(Backward, Bwds(s.hops), BwdStarts(s.hops), s.bwd, hop.bwd, Ctx(0, hop.bwdSeed));
    case ClientLearnsKeys =>
      ClientJoinsOk(Forward, Fwds(s.hops), FwdStarts(s.hops), s.fwd);
      ClientJoinsOk(Backward, Bwds(s.hops), BwdStarts(s.hops), s.bwd);
  }

  lemma TrafficKeepsInv(s: State, e: Event)
    requires Inv(s) && Enabled(s, e) && NoFalseRecognition(s, e)
    requires !e.RelayLearnsKeys? && !e.ClientLearnsKeys?
    ensures Inv(Step(s, e))
  {
    hide Crypt, Wire, Absorbed, Layers, Peel, Moved, HopOk, LinkOk, Stamped, Recognized;
    match e
    case Send(cell) => ClientSendsOk(Fwds(s.hops), FwdStarts(s.hops), s.fwd, cell);
    case Deliver(h) => RelayReceivesOk(Fwds(s.hops), FwdStarts(s.hops), s.fwd, h);
    case Originate(h, cell) => RelaySendsOk(Bwds(s.hops), BwdStarts(s.hops), s.bwd, h, cell);
    case Pass(h) => RelayPassesOk(Bwds(s.hops), BwdStarts(s.hops), s.bwd, h);
    case Receive => ClientReceivesOk(Bwds(s.hops), BwdStarts(s.hops), s.bwd);
  }

  lemma {:induction false} RunKeepsInv(states: seq<State>, events: seq<Event>, i: nat)
    requires Run(states, events) && i < |states|
    ensures Inv(states[i])
  {
    if i == 0 {
      assert Fwds([]) == [] && Bwds([]) == [];
    } else {
      RunKeepsInv(states, events, i - 1);
      var s, e := states[i - 1], events[i - 1];
      if e.RelayLearnsKeys? || e.ClientLearnsKeys? {
        GrowthKeepsInv(s, e);
      } else {
        TrafficKeepsInv(s, e);
      }
    }
  }

  // --- the main results --------------------------------------------------------------

  function AbsorbedAll(es: seq<Entry>): bytes {
    if es == [] then [] else (if es[0].mine then Absorbed(es[0].cell) else []) + AbsorbedAll(es[1..])
  }

  lemma {:induction false} ChainPositions(start: Ctx, es: seq<Entry>, finish: Ctx)
    requires Chain(start, es, finish)
    ensures finish.position == start.position + CELL_PAYLOAD_LEN * |es|
    decreases |es|
  {
    if es != [] {
      ChainPositions(Next(start, es[0]), es[1..], finish);
    }
  }

  lemma {:induction false} ChainHistory(start: Ctx, es: seq<Entry>, finish: Ctx)
    requires Chain(start, es, finish)
    ensures finish.history == start.history + AbsorbedAll(es)
    decreases |es|
  {
    if es != [] {
      ChainHistory(Next(start, es[0]), es[1..], finish);
      if es[0].mine {
        Associative(start.history, Absorbed(es[0].cell), AbsorbedAll(es[1..]));
      } else {
        assert [] + AbsorbedAll(es[1..]) == AbsorbedAll(es[1..]);
      }
    }
  }

  /**
   * Hop `j`'s two ends agree once what is in flight for it is accounted for: the adding end's keystream is ahead by
   * one cell per packet, its digest by the packets that are hop `j`'s own, and its log by those packets' messages, in
   * order.
   */
  ghost predicate InStep(dir: Direction, l: Lane, j: nat)
    requires l.Shaped() && j < |l.client|
  {
    var flying := Pipe(dir, l.links, j, 0);
    && Producer(dir, l)[j].position == Consumer(dir, l)[j].position + CELL_PAYLOAD_LEN * |flying|
    && Producer(dir, l)[j].history == Consumer(dir, l)[j].history + AbsorbedAll(flying)
    && l.sent[j] == l.got[j] + Owned(flying)
  }

  /**
   * Onion synchrony. In every state of every run without a false recognition the circuit is up; both ends of every
   * hop are in step in both directions; and what each relay has recognized, and what the client has recognized as
   * coming from each hop, is a prefix of what was sent, with the same commands, stream ids and data. So nothing is
   * lost, altered, reordered, or delivered to the wrong hop.
   */
  lemma Synchrony(states: seq<State>, events: seq<Event>, i: nat)
    requires Run(states, events) && i < |states|
    ensures Shaped(states[i])
    ensures forall j :: 0 <= j < |states[i].fwd.client| ==>
              InStep(Forward, states[i].fwd, j) && InStep(Backward, states[i].bwd, j)
    ensures forall h :: 0 <= h < |states[i].hops| ==>
              states[i].fwd.got[h] <= states[i].fwd.sent[h] && states[i].bwd.got[h] <= states[i].bwd.sent[h]
  {
    RunKeepsInv(states, events, i);
    var s := states[i];
    forall j | 0 <= j < |s.fwd.client| ensures InStep(Forward, s.fwd, j) && InStep(Backward, s.bwd, j) {
      assert HopOk(Forward, s.fwd, j) && HopOk(Backward, s.bwd, j);
      ChainPositions(s.fwd.relay[j], Pipe(Forward, s.fwd.links, j, 0), s.fwd.client[j]);
      ChainHistory(s.fwd.relay[j], Pipe(Forward, s.fwd.links, j, 0), s.fwd.client[j]);
      ChainPositions(s.bwd.client[j], Pipe(Backward, s.bwd.links, j, 0), s.bwd.relay[j]);
      ChainHistory(s.bwd.client[j], Pipe(Backward, s.bwd.links, j, 0), s.bwd.relay[j]);
    }
    forall h | 0 <= h < |s.hops| ensures s.fwd.got[h] <= s.fwd.sent[h] && s.bwd.got[h] <= s.bwd.sent[h] {
      if h < |s.fwd.client| {
        assert InStep(Forward, s.fwd, h) && InStep(Backward, s.bwd, h);
      }
    }
  }

  /** When nothing is in flight, both ends hold equal contexts and everything sent has been recognized. */
  lemma QuietMeansEqual(states: seq<State>, events: seq<Event>, i: nat)
    requires Run(states, events) && i < |states|
    requires Shaped(states[i])
    requires forall h :: 0 <= h < |states[i].hops| ==> states[i].fwd.links[h] == [] && states[i].bwd.links[h] == []
    ensures var s := states[i];
            && s.fwd.client == s.fwd.relay[..|s.fwd.client|] && s.bwd.client == s.bwd.relay[..|s.bwd.client|]
            && s.fwd.got == s.fwd.sent && s.bwd.got == s.bwd.sent
  {
    hide Pipe, Wire, Absorbed, PacketOk;
    RunKeepsInv(states, events, i);
    var s := states[i];
    forall j | 0 <= j < |s.fwd.client|
      ensures s.fwd.client[j] == s.fwd.relay[j] && s.fwd.got[j] == s.fwd.sent[j]
      ensures s.bwd.client[j] == s.bwd.relay[j] && s.bwd.got[j] == s.bwd.sent[j]
    {
      assert HopOk(Forward, s.fwd, j) && HopOk(Backward, s.bwd, j);
      PipeEmpty(Forward, s.fwd.links, j, 0);
      PipeEmpty(Backward, s.bwd.links, j, 0);
    }
  }

  /** A forward cell is recognized exactly at the hop it is for, with what it was sent with. */
  lemma RecognizedExactlyAtTarget(states: seq<State>, events: seq<Event>, i: nat)
    requires Run(states, events) && i < |events| && events[i].Deliver?
    ensures var s, h := states[i], events[i].h;
            var p := s.fwd.links[h][0];
            && Recognized(s.hops[h].fwd, s.fwd.relay[h].history, Unwrapped(Fwds(s.hops), s.fwd, h))
               == (if p.end == h then Mine(p.cell) else NotMine)
            && (p.end != h ==> h < p.end < |s.hops|)
  {
    hide Crypt, Absorbed, Pipe, Chain, HopOk;
    RunKeepsInv(states, events, i);
    var s, h := states[i], events[i].h;
    ForwardHead(Fwds(s.hops), FwdStarts(s.hops), s.fwd, h);
    var p := s.fwd.links[h][0];
    if p.end == h {
      StampedIsRecognized(s.hops[h].fwd, s.fwd.relay[h].history, p.cell);
    }
  }

  /** A backward cell is routed to exactly the hop it came from, with what it was sent with. */
  lemma RoutedExactlyToOrigin(states: seq<State>, events: seq<Event>, i: nat)
    requires Run(states, events) && i < |events| && events[i].Receive?
    ensures var s := states[i];
            var p := s.bwd.links[0][0];
            var r := Peel(Bwds(s.hops)[..|s.bwd.client|], s.bwd.client, 0, p.body);
            r.Routed? && r.origin == p.end && r.cell == p.cell
  {
    hide Peel, Crypt, Wire, Absorbed, Layers, Pipe, Chain, HopOk;
    RunKeepsInv(states, events, i);
    ClientPeels(Bwds(states[i].hops), BwdStarts(states[i].hops), states[i].bwd);
  }

  // --- history variables decide nothing --------------------------------------------

  predicate SameWire(a: seq<seq<Packet>>, b: seq<seq<Packet>>) {
    |a| == |b| && forall h :: 0 <= h < |a| ==> SameBodies(a[h], b[h])
  }

  predicate SameBodies(a: seq<Packet>, b: seq<Packet>) {
    |a| == |b| && forall i :: 0 <= i < |a| ==> a[i].body == b[i].body
  }

  predicate SameLane(a: Lane, b: Lane) {
    a.client == b.client && a.relay == b.relay && a.got == b.got && a.sent == b.sent && SameWire(a.links, b.links)
  }

  lemma SameWirePut(a: seq<seq<Packet>>, b: seq<seq<Packet>>, h: nat, x: seq<Packet>, y: seq<Packet>)
    requires SameWire(a, b) && h < |a| && SameBodies(x, y)
    ensures SameWire(a[h := x], b[h := y])
  {
  }

  lemma DeliverIsInert(ps: seq<Profile>, a: Lane, b: Lane, h: nat)
    requires SameLane(a, b) && a.Shaped() && |ps| == |a.relay| && h < |ps| && a.links[h] != []
    ensures b.Shaped() && b.links[h] != []
    ensures match RelayReceives(ps, a, h)
            case None => RelayReceives(ps, b, h) == None
            case Some(a') => RelayReceives(ps, b, h).Some? && SameLane(a', RelayReceives(ps, b, h).value)
  {
    hide Crypt, Recognized, ZeroDigest;
    assert SameBodies(a.links[h], b.links[h]);
    SameWirePut(a.links, b.links, h, a.links[h][1..], b.links[h][1..]);
    if h + 1 < |ps| {
      assert SameBodies(a.links[h + 1], b.links[h + 1]);
    }
  }

  lemma ReceiveIsInert(ps: seq<Profile>, a: Lane, b: Lane)
    requires SameLane(a, b) && a.Shaped() && |ps| == |a.relay| > 0 && a.links[0] != []
    ensures b.Shaped() && b.links[0] != []
    ensures match ClientReceives(ps, a)
            case None => ClientReceives(ps, b) == None
            case Some(a') => ClientReceives(ps, b).Some? && SameLane(a', ClientReceives(ps, b).value)
  {
    assert SameBodies(a.links[0], b.links[0]);
    SameWirePut(a.links, b.links, 0, a.links[0][1..], b.links[0][1..]);
  }

  lemma PassIsInert(ps: seq<Profile>, a: Lane, b: Lane, h: nat)
    requires SameLane(a, b) && a.Shaped() && |ps| == |a.relay| && h + 1 < |ps| && a.links[h + 1] != []
    ensures b.Shaped() && b.links[h + 1] != [] && SameLane(RelayPasses(ps, a, h), RelayPasses(ps, b, h))
  {
    assert SameBodies(a.links[h], b.links[h]) && SameBodies(a.links[h + 1], b.links[h + 1]);
    SameWirePut(a.links, b.links, h + 1, a.links[h + 1][1..], b.links[h + 1][1..]);
  }

  lemma SendsAreInert(ps: seq<Profile>, a: Lane, b: Lane, h: nat, cell: RelayCell)
    requires SameLane(a, b) && a.Shaped() && |ps| == |a.relay| && h < |ps| && cell.WellFormed()
    ensures b.Shaped() && SameLane(RelaySends(ps, a, h, cell), RelaySends(ps, b, h, cell))
    ensures |a.client| > 0 ==> SameLane(ClientSends(ps, a, cell), ClientSends(ps, b, cell))
  {
    assert SameBodies(a.links[h], b.links[h]) && SameBodies(a.links[0], b.links[0]);
  }

  ghost predicate SameNetwork(a: State, b: State) {
    if a.TornDown? then b.TornDown?
    else b.Open? && a.hops == b.hops && SameLane(a.fwd, b.fwd) && SameLane(a.bwd, b.bwd)
  }

  /** Two states that differ only in what packets remember about themselves take the same steps. */
  lemma HistoryIsInert(a: State, b: State, e: Event)
    requires SameNetwork(a, b) && Enabled(a, e)
    ensures Enabled(b, e) && SameNetwork(Step(a, e), Step(b, e))
  {
    hide Crypt, Wire, Absorbed, Layers, Peel, Moved, Stamped, Recognized;
    match e
    case Deliver(h) => DeliverIsInert(Fwds(a.hops), a.fwd, b.fwd, h);
    case Pass(h) => PassIsInert(Bwds(a.hops), a.bwd, b.bwd, h);
    case Receive => ReceiveIsInert(Bwds(a.hops), a.bwd, b.bwd);
    case Originate(h, cell) => SendsAreInert(Bwds(a.hops), a.bwd, b.bwd, h, cell);
    case Send(cell) => SendsAreInert(Fwds(a.hops), a.fwd, b.fwd, 0, cell);
    case _ =>
  }
}
