/**
 * The circuit of `_net/circuit.py` plays the flow-control protocol: whatever is done to it, in whatever order, its
 * window and its tracker move as `CircuitFlow` lets them, so what holds of every run there holds of every circuit.
 */
module FlowRefinement {
  import opened Bytes
  import opened RelayCells
  import opened RelayCryptos
  import opened Onions
  import opened OnionLanes
  import opened FlowControl
  import opened Registries
  import opened Circuits
  import opened CircuitLaws
  import Flow = CircuitFlow

  /** A circuit, and how many senders have taken a unit of its window and not yet stamped their cell. */
  datatype State = State(v: Standing, holding: nat)

  /** `open` says whether the channel takes what is sent. */
  datatype Op =
    | TakeUnit                                            // the wait of send_relay
    | SendData(cell: RelayCell, open: bool)               // the rest of send_relay for DATA
    | SendOther(cell: RelayCell, early: bool, open: bool)
    | Receive(m: Message, ack: RelayCell, open: bool)     // _route_relay
    | TearDown
    | Reregister(registry: Registry)                      // any change of who is registered

  predicate Started(s: State, ps: seq<Profile>) {
    && s.holding == 0 && !s.v.registry.destroyed && s.v.window == Window(CIRCUIT_WINDOW_INITIAL, false)
    && s.v.tracker == Tracker(0, []) && Sized(s, ps)
  }

  predicate Sized(s: State, ps: seq<Profile>) {
    s.v.forward != [] && |ps| == |s.v.forward|
  }

  predicate Enabled(s: State, ps: seq<Profile>, op: Op) {
    Sized(s, ps)
    && match op
       case TakeUnit => TakeOne(s.v.window).1.Taken?
       case SendData(cell, _) => s.holding > 0 && cell.WellFormed()
       case SendOther(cell, _, _) => cell.WellFormed()
       case Receive(_, ack, _) => ack.WellFormed()
       case TearDown => true
       case Reregister(registry) => registry.destroyed == s.v.registry.destroyed
  }

  function Step(s: State, ps: seq<Profile>, op: Op): State
    requires Enabled(s, ps, op)
  {
    match op
    case TakeUnit => State(s.v.(window := TakeOne(s.v.window).0), s.holding + 1)
    case SendData(cell, open) => State(Sent(s.v, cell, false, true, ps, open), s.holding - 1)
    case SendOther(cell, early, open) => s.(v := Sent(s.v, cell, early, false, ps, open))
    case Receive(m, ack, open) => s.(v := Circuits.Received(s.v, m, ack, ps, open))
    case TearDown => s.(v := Closed(s.v))
    case Reregister(registry) => s.(v := s.v.(registry := registry))
  }

  ghost predicate Run(states: seq<State>, ps: seq<Profile>, ops: seq<Op>) {
    && |states| == |ops| + 1
    && Started(states[0], ps)
    && forall i :: 0 <= i < |ops| ==> Enabled(states[i], ps, ops[i]) && states[i + 1] == Step(states[i], ps, ops[i])
  }

  // --- one operation, as moves of the protocol ----------------------------------------------------

  function Client(s: State): Flow.Client {
    Flow.Client(s.v.window, s.holding, s.v.tracker, Flow.Idle, s.v.registry.destroyed)
  }

  /** The forward digest that the last hop's context has come to. */
  function LastDigest(v: Standing, ps: seq<Profile>): bytes
    requires v.forward != [] && |ps| == |v.forward|
  {
    ps[|ps| - 1].hash(v.forward[|ps| - 1].history)
  }

  function TearMoves(v: Standing): seq<Flow.Move> {
    if v.registry.destroyed then [] else [Flow.Destroy, Flow.CloseWindow]
  }

  function Moves(s: State, ps: seq<Profile>, op: Op): seq<Flow.Move>
    requires Enabled(s, ps, op)
  {
    match op
    case TakeUnit => [Flow.Consume]
    case SendData(cell, open) =>
      if s.v.registry.destroyed then [Flow.Abandon] else [Flow.SendData(LastDigest(Step(s, ps, op).v, ps))]
    case SendOther(_, _, _) => []
    case Receive(m, _, _) =>
      if !IsCircuitSendme(m) then []
      else if Genuine(s.v, m) then [Flow.Acknowledge(m.data[3..23]), Flow.Refill]
      else
        [if WellFormedSendme(m.data) then Flow.Acknowledge(m.data[3..23]) else Flow.BadAcknowledge]
        + TearMoves(s.v) + [Flow.Resume]
    case TearDown => TearMoves(s.v)
    case Reregister(_) => []
  }

  /** One client reaches another by moves that the protocol allows. */
  predicate Leads(c: Flow.Client, moves: seq<Flow.Move>, to: Flow.Client)
    decreases |moves|
  {
    if moves == [] then c == to
    else Flow.CanMove(c, moves[0]) && Leads(Flow.Moved(c, moves[0]), moves[1..], to)
  }

  lemma LeadsByOne(c: Flow.Client, m: Flow.Move)
    requires Flow.CanMove(c, m)
    ensures Leads(c, [m], Flow.Moved(c, m))
  {
    assert [m][1..] == [];
  }

  lemma {:induction false} LeadsOn(c: Flow.Client, a: seq<Flow.Move>, middle: Flow.Client, b: seq<Flow.Move>,
                                   to: Flow.Client)
    requires Leads(c, a, middle) && Leads(middle, b, to)
    ensures Leads(c, a + b, to)
    decreases |a|
  {
    hide Flow.CanMove, Flow.Moved;
    if a == [] {
      assert a + b == b;
    } else {
      assert (a + b)[1..] == a[1..] + b;
      LeadsOn(Flow.Moved(c, a[0]), a[1..], middle, b, to);
    }
  }

  lemma TearLeads(c: Flow.Client, v: Standing)
    requires c.window == v.window && c.destroyed == v.registry.destroyed
    ensures Leads(c, TearMoves(v), c.(window := Closed(v).window, destroyed := true))
  {
    if !v.registry.destroyed {
      var gone := Flow.Moved(c, Flow.Destroy);
      LeadsByOne(c, Flow.Destroy);
      LeadsByOne(gone, Flow.CloseWindow);
      LeadsOn(c, [Flow.Destroy], gone, [Flow.CloseWindow], Flow.Moved(gone, Flow.CloseWindow));
      assert [Flow.Destroy] + [Flow.CloseWindow] == TearMoves(v);
    }
  }

  lemma RejectedLeads(c: Flow.Client, v: Standing)
    requires c.window == v.window && c.destroyed == v.registry.destroyed && c.receiver.Rejected?
    ensures Leads(c, TearMoves(v) + [Flow.Resume],
                  c.(window := Closed(v).window, destroyed := true, receiver := Flow.Idle))
  {
    var gone := c.(window := Closed(v).window, destroyed := true);
    TearLeads(c, v);
    LeadsByOne(gone, Flow.Resume);
    LeadsOn(c, TearMoves(v), gone, [Flow.Resume], Flow.Moved(gone, Flow.Resume));
  }

  lemma GenuineLeads(s: State, ps: seq<Profile>, m: Message, ack: RelayCell, open: bool)
    requires Enabled(s, ps, Receive(m, ack, open)) && IsCircuitSendme(m) && Genuine(s.v, m)
    ensures Leads(Client(s), Moves(s, ps, Receive(m, ack, open)), Client(Step(s, ps, Receive(m, ack, open))))
  {
    hide Leads;
    OnlyGenuineCredits(s.v, m, ack, ps, open);
    var asked := Flow.Moved(Client(s), Flow.Acknowledge(m.data[3..23]));
    assert asked.receiver.Accepted?;
    LeadsByOne(Client(s), Flow.Acknowledge(m.data[3..23]));
    LeadsByOne(asked, Flow.Refill);
    LeadsOn(Client(s), [Flow.Acknowledge(m.data[3..23])], asked, [Flow.Refill], Flow.Moved(asked, Flow.Refill));
    assert [Flow.Acknowledge(m.data[3..23])] + [Flow.Refill] == Moves(s, ps, Receive(m, ack, open));
  }

  lemma RefusedLeads(s: State, ps: seq<Profile>, m: Message, ack: RelayCell, open: bool)
    requires Enabled(s, ps, Receive(m, ack, open)) && IsCircuitSendme(m) && !Genuine(s.v, m)
    ensures Leads(Client(s), Moves(s, ps, Receive(m, ack, open)), Client(Step(s, ps, Receive(m, ack, open))))
  {
    hide Leads;
    SendmeFormat(m.data);
    var first := if WellFormedSendme(m.data) then Flow.Acknowledge(m.data[3..23]) else Flow.BadAcknowledge;
    var asked := Flow.Moved(Client(s), first);
    assert asked.receiver.Rejected? && asked.window == s.v.window && asked.destroyed == s.v.registry.destroyed;
    LeadsByOne(Client(s), first);
    RejectedLeads(asked, s.v);
    var gone := asked.(window := Closed(s.v).window, destroyed := true, receiver := Flow.Idle);
    LeadsOn(Client(s), [first], asked, TearMoves(s.v) + [Flow.Resume], gone);
    assert [first] + (TearMoves(s.v) + [Flow.Resume]) == Moves(s, ps, Receive(m, ack, open));
    assert gone == Client(Step(s, ps, Receive(m, ack, open)));
  }

  lemma SendLeads(s: State, ps: seq<Profile>, op: Op)
    requires Enabled(s, ps, op) && (op.SendData? || op.SendOther?)
    ensures Sized(Step(s, ps, op), ps)
    ensures Leads(Client(s), Moves(s, ps, op), Client(Step(s, ps, op)))
  {
    hide Wrapped, Layers, Noted;
    if op.SendData? {
      LeadsByOne(Client(s), Moves(s, ps, op)[0]);
    }
  }

  /** Whatever is done to a circuit is allowed by the protocol, and comes to the same. */
  lemma OpLeads(s: State, ps: seq<Profile>, op: Op)
    requires Enabled(s, ps, op)
    ensures Sized(Step(s, ps, op), ps)
    ensures Leads(Client(s), Moves(s, ps, op), Client(Step(s, ps, op)))
  {
    ReceivedSized(s, ps, op);
    match op
    case TakeUnit => LeadsByOne(Client(s), Flow.Consume);
    case SendData(_, _) => SendLeads(s, ps, op);
    case SendOther(_, _, _) => SendLeads(s, ps, op);
    case Receive(m, ack, open) =>
      if !IsCircuitSendme(m) {
        ReceivedReaches(s.v, m, ack, ps, open);
      } else if Genuine(s.v, m) {
        GenuineLeads(s, ps, m, ack, open);
      } else {
        RefusedLeads(s, ps, m, ack, open);
      }
    case TearDown => TearLeads(Client(s), s.v);
    case Reregister(_) =>
  }

  lemma ReceivedSized(s: State, ps: seq<Profile>, op: Op)
    requires Enabled(s, ps, op)
    ensures Sized(Step(s, ps, op), ps)
  {
    hide Wrapped, Layers, Noted, Count, Checked;
  }

  // --- whole runs --------------------------------------------------------------------------------

  function AllMoves(states: seq<State>, ps: seq<Profile>, ops: seq<Op>, i: nat): seq<Flow.Move>
    requires i <= |ops| && i < |states| && forall j :: 0 <= j < i ==> Enabled(states[j], ps, ops[j])
  {
    if i == 0 then [] else AllMoves(states, ps, ops, i - 1) + Moves(states[i - 1], ps, ops[i - 1])
  }

  /** The forward digests that the DATA cells sent so far left at the last hop. */
  function Digests(states: seq<State>, ps: seq<Profile>, ops: seq<Op>, i: nat): seq<bytes>
    requires i <= |ops| && i < |states| && forall j :: 0 <= j <= i ==> Sized(states[j], ps)
  {
    if i == 0 then []
    else
      assert Sized(states[i], ps);
      Digests(states, ps, ops, i - 1)
      + if ops[i - 1].SendData? && !states[i - 1].v.registry.destroyed then [LastDigest(states[i].v, ps)] else []
  }

  lemma {:induction false} RunLeads(states: seq<State>, ps: seq<Profile>, ops: seq<Op>, i: nat)
    requires Run(states, ps, ops) && i < |states|
    ensures Leads(Flow.NEW_CLIENT, AllMoves(states, ps, ops, i), Client(states[i])) && Sized(states[i], ps)
  {
    hide Moves, Enabled, Step, Sized;
    if i == 0 {
      StartSized(states[0], ps);
    } else {
      RunLeads(states, ps, ops, i - 1);
      OpLeads(states[i - 1], ps, ops[i - 1]);
      LeadsOn(Flow.NEW_CLIENT, AllMoves(states, ps, ops, i - 1), Client(states[i - 1]),
              Moves(states[i - 1], ps, ops[i - 1]), Client(states[i]));
    }
  }

  lemma StartSized(s: State, ps: seq<Profile>)
    requires Started(s, ps)
    ensures Sized(s, ps) && Client(s) == Flow.NEW_CLIENT
  {
  }

  /** The clients passed on the way. */
  lemma {:induction false} Trace(c: Flow.Client, moves: seq<Flow.Move>, to: Flow.Client) returns (cs: seq<Flow.Client>)
    requires Leads(c, moves, to)
    ensures |cs| == |moves| + 1 && cs[0] == c && cs[|moves|] == to
    ensures forall i :: 0 <= i < |moves| ==> Flow.CanMove(cs[i], moves[i]) && cs[i + 1] == Flow.Moved(cs[i], moves[i])
    decreases |moves|
  {
    hide Flow.CanMove, Flow.Moved;
    if moves == [] {
      return [c];
    }
    var rest := Trace(Flow.Moved(c, moves[0]), moves[1..], to);
    cs := [c] + rest;
    forall i | 0 <= i < |moves| ensures Flow.CanMove(cs[i], moves[i]) && cs[i + 1] == Flow.Moved(cs[i], moves[i]) {
      if i > 0 {
        assert moves[i] == moves[1..][i - 1] && cs[i] == rest[i - 1] && cs[i + 1] == rest[i];
      }
    }
  }

  lemma {:induction false} SentAppend(a: seq<Flow.Move>, b: seq<Flow.Move>)
    ensures Flow.Sent(a + b) == Flow.Sent(a) + Flow.Sent(b)
  {
    if b == [] {
      assert a + b == a;
    } else {
      assert (a + b)[..|a + b| - 1] == a + b[..|b| - 1];
      SentAppend(a, b[..|b| - 1]);
    }
  }

  lemma MovesSend(s: State, ps: seq<Profile>, op: Op)
    requires Enabled(s, ps, op) && Sized(Step(s, ps, op), ps)
    ensures Flow.Sent(Moves(s, ps, op))
            == if op.SendData? && !s.v.registry.destroyed then [LastDigest(Step(s, ps, op).v, ps)] else []
  {
    hide Circuits.Received, Sent, Genuine;
    SentShort(Moves(s, ps, op));
  }

  lemma SentShort(ms: seq<Flow.Move>)
    requires |ms| <= 4
    ensures (forall m :: m in ms ==> !m.SendData?) ==> Flow.Sent(ms) == []
    ensures |ms| == 1 && ms[0].SendData? ==> Flow.Sent(ms) == [ms[0].digest]
  {
    if |ms| > 0 {
      assert ms == ms[..|ms| - 1] + [ms[|ms| - 1]];
      SentShort(ms[..|ms| - 1]);
    }
  }

  lemma {:induction false} RunSends(states: seq<State>, ps: seq<Profile>, ops: seq<Op>, i: nat)
    requires Run(states, ps, ops) && i < |states| && forall j :: 0 <= j <= i ==> Sized(states[j], ps)
    ensures Flow.Sent(AllMoves(states, ps, ops, i)) == Digests(states, ps, ops, i)
  {
    hide Moves, Enabled, Step, Sized;
    if i > 0 {
      RunSends(states, ps, ops, i - 1);
      SentAppend(AllMoves(states, ps, ops, i - 1), Moves(states[i - 1], ps, ops[i - 1]));
      assert states[i] == Step(states[i - 1], ps, ops[i - 1]) && Sized(states[i], ps);
      MovesSend(states[i - 1], ps, ops[i - 1]);
    }
  }

  /** Every run of a circuit is a run of the protocol, with the digests of its DATA cells. */
  lemma CircuitPlaysFlow(states: seq<State>, ps: seq<Profile>, ops: seq<Op>, i: nat)
    returns (cs: seq<Flow.Client>, ms: seq<Flow.Move>)
    requires Run(states, ps, ops) && i < |states|
    ensures Flow.ClientRun(cs, ms) && cs[|ms|] == Client(states[i])
    ensures forall j :: 0 <= j <= i ==> Sized(states[j], ps)
    ensures Flow.Sent(ms) == Digests(states, ps, ops, i)
  {
    hide Moves, Enabled, Step, Leads;
    forall j | 0 <= j <= i ensures Sized(states[j], ps) {
      RunLeads(states, ps, ops, j);
    }
    RunLeads(states, ps, ops, i);
    RunSends(states, ps, ops, i);
    ms := AllMoves(states, ps, ops, i);
    cs := Trace(Flow.NEW_CLIENT, ms, Client(states[i]));
  }

  /**
   * The window of a circuit, whatever its peer and its threads do: it stays within 0..1000, at most 1000 DATA cells are
   * unanswered, and while the circuit lives every unit is in the window, held by a sender, or unanswered.
   */
  lemma CircuitWindow(states: seq<State>, ps: seq<Profile>, ops: seq<Op>, i: nat)
    requires Run(states, ps, ops) && i < |states|
    ensures var v, unanswered := states[i].v, states[i].v.tracker.sent + 100 * |states[i].v.tracker.expected|;
            && 0 <= v.window.value <= 1000 && 0 <= unanswered <= 1000
            && v.window.value + states[i].holding + unanswered <= 1000
            && (!v.registry.destroyed ==> v.window.value + states[i].holding + unanswered == 1000)
  {
    var cs, ms := CircuitPlaysFlow(states, ps, ops, i);
    Flow.WindowConserved(cs, ms, |ms|);
  }

  /**
   * What a credit of a circuit takes. `sent` being the digests of all its DATA cells and `answered` the hundreds of
   * them answered for, a circuit SENDME adds a hundred units if and only if it is well formed and names the last cell
   * of the next full hundred; otherwise the circuit is destroyed.
   */
  lemma CircuitCredit(states: seq<State>, ps: seq<Profile>, ops: seq<Op>, i: nat)
    requires Run(states, ps, ops) && i < |ops| && ops[i].Receive?
    requires ops[i].m.command == 5 && ops[i].m.streamId == 0
    ensures forall j :: 0 <= j <= i ==> Sized(states[j], ps)
    ensures var v, v', body := states[i].v, states[i + 1].v, ops[i].m.data;
            var sent := Digests(states, ps, ops, i);
            var answered := |sent| / 100 - |v.tracker.expected|;
            && answered >= 0
            && (if WellFormedSendme(body) && 100 * answered + 99 < |sent|
                   && body[3..23] == First20(sent[100 * answered + 99])
                then v'.window == v.window.(value := v.window.value + 100) && v'.registry == v.registry
                else v'.window.value == v.window.value && v'.registry.destroyed)
  {
    hide Run, Step, Enabled, Sized, Circuits.Received, Digests, Flow.Pending;
    hide WellFormedSendme, First20, IsCircuitSendme, Genuine;
    ReceiveStep(states, ps, ops, i);
    var compared := TrackerPending(states, ps, ops, i);
    OldestPending(states[i].v, ops[i].m, Digests(states, ps, ops, i), compared);
    OnlyGenuineCredits(states[i].v, ops[i].m, ops[i].ack, ps, ops[i].open);
  }

  lemma TrackerPending(states: seq<State>, ps: seq<Profile>, ops: seq<Op>, i: nat) returns (compared: nat)
    requires Run(states, ps, ops) && i < |states|
    ensures forall j :: 0 <= j <= i ==> Sized(states[j], ps)
    ensures Flow.Pending(states[i].v.tracker, Digests(states, ps, ops, i), compared)
  {
    hide Run, Step, Enabled, Sized, Digests, Flow.ClientRun, Flow.Pending, Flow.Sent, Flow.Compared;
    var cs, ms := CircuitPlaysFlow(states, ps, ops, i);
    ClientRunSize(cs, ms);
    Flow.RunPending(cs, ms, |ms|);
    assert ms[..|ms|] == ms;
    compared := Flow.Compared(cs, ms, |ms|);
  }

  lemma ClientRunSize(cs: seq<Flow.Client>, ms: seq<Flow.Move>)
    requires Flow.ClientRun(cs, ms)
    ensures |cs| == |ms| + 1
  {
  }

  lemma ReceiveStep(states: seq<State>, ps: seq<Profile>, ops: seq<Op>, i: nat)
    requires Run(states, ps, ops) && i < |ops| && ops[i].Receive?
    ensures i < i + 1 < |states|
    ensures var v := states[i].v;
            && v.forward != [] && |ps| == |v.forward| && ops[i].ack.WellFormed()
            && states[i + 1].v == Circuits.Received(v, ops[i].m, ops[i].ack, ps, ops[i].open)
  {
    hide Circuits.Received;
  }

  /** What the tracker expects next, in terms of what was sent. */
  lemma OldestPending(v: Standing, m: Message, sent: seq<bytes>, compared: nat)
    requires Flow.Pending(v.tracker, sent, compared)
    ensures compared == |sent| / 100 - |v.tracker.expected|
    ensures Genuine(v, m) <==>
              && WellFormedSendme(m.data) && 100 * compared + 99 < |sent|
              && m.data[3..23] == First20(sent[100 * compared + 99])
  {
    hide First20;
    assert v.tracker.expected != [] <==> 100 * compared + 99 < |sent|;
  }
}
