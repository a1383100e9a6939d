/**
 * Circuit flow control as a protocol: any number of sender threads, the receiver thread, and the peer at the last hop.
 * Standard: "Circuit-level flow control" of tor-spec and Tor proposal 289.
 */
module CircuitFlow {
  import opened Bytes
  import opened RelayCells
  import opened RelayCryptos
  import opened FlowControl

  // --- the client against any peer ----------------------------------------------

  /** Where the receiver thread is between its locked sections when it handles an acknowledgement. */
  datatype Receiver = Idle | Accepted | Rejected

  /** `holding` senders have taken a unit of the window and not yet stamped their cell. */
  datatype Client = Client(window: Window, holding: nat, tracker: Tracker, receiver: Receiver, destroyed: bool)

  const NEW_CLIENT := Client(Window(CIRCUIT_WINDOW_INITIAL, false), 0, Tracker(0, []), Idle, false)

  datatype Move =
    | Consume                  // a sender takes a unit
    | SendData(digest: bytes)  // a holding sender stamps a DATA cell; `digest` is the forward digest it left
    | Abandon                  // a holding sender finds the circuit destroyed
    | Acknowledge(digest: bytes) // a circuit SENDME with this digest arrives
    | BadAcknowledge           // a malformed circuit SENDME arrives
    | Refill                   // the receiver credits the window
    | Resume                   // after a rejection and the teardown it causes, later cells are handled again
    | Destroy                  // the circuit is torn down, for any reason
    | CloseWindow              // the tail of a teardown

  predicate CanMove(c: Client, m: Move) {
    match m
    case Consume => TakeOne(c.window).1.Taken?
    case SendData(_) => c.holding > 0 && !c.destroyed
    case Abandon => c.holding > 0 && c.destroyed
    case Acknowledge(_) => c.receiver.Idle?
    case BadAcknowledge => c.receiver.Idle?
    case Refill => c.receiver.Accepted?
    case Resume => c.receiver.Rejected? && c.destroyed
    case Destroy => true
    case CloseWindow => c.destroyed
  }

  function Moved(c: Client, m: Move): Client
    requires CanMove(c, m)
  {
    match m
    case Consume => c.(window := TakeOne(c.window).0, holding := c.holding + 1)
    case SendData(digest) =>
      c.(holding := c.holding - 1, tracker := Noted(c.tracker, CIRCUIT_WINDOW_INCREMENT, digest))
    case Abandon => c.(holding := c.holding - 1)
    case Acknowledge(digest) =>
      var (tracker, ok) := Checked(c.tracker, digest);
      c.(tracker := tracker, receiver := if ok then Accepted else Rejected)
    case BadAcknowledge => c.(receiver := Rejected)
    case Refill => c.(window := c.window.(value := c.window.value + CIRCUIT_WINDOW_INCREMENT), receiver := Idle)
    case Resume => c.(receiver := Idle)
    case Destroy => c.(destroyed := true)
    case CloseWindow => c.(window := c.window.(closed := true))
  }

  ghost predicate ClientRun(states: seq<Client>, moves: seq<Move>) {
    && |states| == |moves| + 1
    && states[0] == NEW_CLIENT
    && forall i :: 0 <= i < |moves| ==> CanMove(states[i], moves[i]) && states[i + 1] == Moved(states[i], moves[i])
  }

  /** Sent and not acknowledged: since the last boundary, and up to the boundaries still expected. */
  function Unacknowledged(c: Client): int {
    c.tracker.sent + CIRCUIT_WINDOW_INCREMENT * |c.tracker.expected|
  }

  /** Every unit of the initial window, wherever it now is. */
  function Units(c: Client): int {
    c.window.value + c.holding + Unacknowledged(c) + (if c.receiver.Accepted? then CIRCUIT_WINDOW_INCREMENT else 0)
  }

  predicate Conserved(c: Client) {
    && 0 <= c.window.value
    && 0 <= c.tracker.sent < CIRCUIT_WINDOW_INCREMENT
    && Units(c) <= CIRCUIT_WINDOW_INITIAL
    && (!c.destroyed && !c.receiver.Rejected? ==> Units(c) == CIRCUIT_WINDOW_INITIAL)
  }

  lemma MoveConserves(c: Client, m: Move)
    requires Conserved(c) && CanMove(c, m)
    ensures Conserved(Moved(c, m))
  {
  }

  /**
   * Against any peer, no unit of the send window is ever created, and while the circuit lives none is lost: the window
   * stays within 0..1000, at most 1000 DATA cells are unacknowledged, and a sender that must wait with nobody sending
   * and nothing to credit is waiting for exactly ten acknowledgements.
   */
  lemma {:induction false} WindowConserved(states: seq<Client>, moves: seq<Move>, i: nat)
    requires ClientRun(states, moves) && i < |states|
    ensures Conserved(states[i])
    ensures 0 <= states[i].window.value <= CIRCUIT_WINDOW_INITIAL
    ensures 0 <= Unacknowledged(states[i]) <= CIRCUIT_WINDOW_INITIAL
    ensures var c := states[i];
            c.window.value == 0 && c.holding == 0 && c.receiver.Idle? && !c.destroyed ==>
              c.tracker.sent == 0 && |c.tracker.expected| == 10
  {
    if i > 0 {
      WindowConserved(states, moves, i - 1);
      MoveConserves(states[i - 1], moves[i - 1]);
    }
  }

  // --- every credit is earned -----------------------------------------------------

  /** The forward digests that the DATA cells of a run left, in order. */
  function Sent(moves: seq<Move>): seq<bytes> {
    if moves == [] then []
    else
      var last := moves[|moves| - 1];
      Sent(moves[..|moves| - 1]) + if last.SendData? then [last.digest] else []
  }

  /** How many acknowledgements were compared with a boundary, and how many of them were credited. */
  function Compared(states: seq<Client>, moves: seq<Move>, i: nat): nat
    requires i <= |moves| && i < |states|
  {
    if i == 0 then 0
    else
      Compared(states, moves, i - 1)
      + if moves[i - 1].Acknowledge? && states[i - 1].tracker.expected != [] then 1 else 0
  }

  function Accepts(states: seq<Client>, moves: seq<Move>, i: nat): nat
    requires i <= |moves| && i < |states|
  {
    if i == 0 then 0
    else Accepts(states, moves, i - 1) + if moves[i - 1].Acknowledge? && states[i].receiver.Accepted? then 1 else 0
  }

  /** The tracker expects exactly the boundaries after those already compared, each by its own digest. */
  ghost predicate Pending(t: Tracker, sent: seq<bytes>, compared: nat) {
    && 0 <= t.sent < 100
    && |sent| == t.sent + 100 * (|t.expected| + compared)
    && forall k :: 0 <= k < |t.expected| ==> t.expected[k] == First20(sent[100 * (compared + k) + 99])
  }

  lemma NotedPending(t: Tracker, sent: seq<bytes>, compared: nat, digest: bytes)
    requires Pending(t, sent, compared)
    ensures Pending(Noted(t, 100, digest), sent + [digest], compared)
  {
    var longer, t' := sent + [digest], Noted(t, 100, digest);
    forall k | 0 <= k < |t'.expected| ensures t'.expected[k] == First20(longer[100 * (compared + k) + 99]) {
      if k == |t.expected| {
        assert 100 * (compared + k) + 99 == |sent|;
      }
    }
  }

  lemma CheckedPending(t: Tracker, sent: seq<bytes>, compared: nat, digest: bytes)
    requires Pending(t, sent, compared) && t.expected != []
    ensures Pending(Checked(t, digest).0, sent, compared + 1)
  {
    var t' := Checked(t, digest).0;
    forall k | 0 <= k < |t'.expected| ensures t'.expected[k] == First20(sent[100 * (compared + 1 + k) + 99]) {
      assert t'.expected[k] == t.expected[k + 1];
    }
  }

  lemma {:induction false} RunPending(states: seq<Client>, moves: seq<Move>, i: nat)
    requires ClientRun(states, moves) && i < |states|
    ensures Pending(states[i].tracker, Sent(moves[..i]), Compared(states, moves, i))
    ensures Accepts(states, moves, i) <= Compared(states, moves, i)
  {
    hide Pending;
    if i == 0 {
      assert Pending(NEW_CLIENT.tracker, [], 0) by { NothingPending(); }
    } else {
      var c, m := states[i - 1], moves[i - 1];
      RunPending(states, moves, i - 1);
      assert moves[..i][..i - 1] == moves[..i - 1] && moves[..i][i - 1] == m;
      assert Sent(moves[..i - 1]) + [] == Sent(moves[..i - 1]);
      if m.SendData? {
        NotedPending(c.tracker, Sent(moves[..i - 1]), Compared(states, moves, i - 1), m.digest);
      } else if m.Acknowledge? && c.tracker.expected != [] {
        CheckedPending(c.tracker, Sent(moves[..i - 1]), Compared(states, moves, i - 1), m.digest);
      }
    }
  }

  lemma NothingPending()
    ensures Pending(NEW_CLIENT.tracker, [], 0)
  {
  }

  /**
   * Against any peer, before and after a teardown: the next acknowledgement is credited if and only if it names, by the
   * first 20 bytes of its digest, the last of the hundred DATA cells that follow those already answered for. So the
   * k-th that is compared can only be credited for the 100k-th DATA cell, and none is credited twice or ahead.
   */
  lemma CreditIsEarned(states: seq<Client>, moves: seq<Move>, i: nat)
    requires ClientRun(states, moves) && i < |moves| && moves[i].Acknowledge?
    ensures var sent, k := Sent(moves[..i]), Compared(states, moves, i);
            states[i + 1].receiver.Accepted?
            <==> 100 * k + 99 < |sent| && First20(moves[i].digest) == First20(sent[100 * k + 99])
    ensures states[i + 1].window == states[i].window
  {
    RunPending(states, moves, i);
  }

  /** While none was refused, the acknowledgements compared are those credited. */
  lemma {:induction false} AllComparedWereAccepted(states: seq<Client>, moves: seq<Move>, i: nat)
    requires ClientRun(states, moves) && i < |states|
    requires forall j :: 0 <= j <= i ==> !states[j].receiver.Rejected?
    ensures Compared(states, moves, i) == Accepts(states, moves, i)
  {
    if i > 0 {
      AllComparedWereAccepted(states, moves, i - 1);
    }
  }

  /** In all, a hundred DATA cells were sent for every acknowledgement credited. */
  lemma HundredForEachCredit(states: seq<Client>, moves: seq<Move>, i: nat)
    requires ClientRun(states, moves) && i < |states|
    ensures 100 * Accepts(states, moves, i) <= |Sent(moves[..i])|
  {
    RunPending(states, moves, i);
  }

  // --- an honest peer ----------------------------------------------------------------

  /** A cell on the way to the last hop: what it feeds the running digest, and whether it counts. */
  datatype Cell = Cell(absorbed: bytes, isData: bool)

  /** The honest last hop: its copy of the running digest, its count of DATA cells, and the SENDMEs it has sent back. */
  datatype Flow = Flow(client: Client, history: bytes, wire: seq<Cell>, peerHistory: bytes, peerCount: int,
                       acks: seq<bytes>)

  function NewFlow(seed: bytes): Flow {
    Flow(NEW_CLIENT, seed, [], seed, 0, [])
  }

  datatype Event =
    | TakeUnit
    | SendDataCell(absorbed: bytes)   // some holding sender
    | SendOtherCell(absorbed: bytes)  // BEGIN, END, SENDME ... from any thread
    | PeerReceives
    | TakeAck                         // the receiver thread verifies the next SENDME
    | Credit                          // the receiver thread refills the window
    | TearDown                        // a teardown for a reason other than authentication
    | CloseSendWindow
    | GiveUp

  predicate Enabled(f: Flow, e: Event) {
    match e
    case TakeUnit => CanMove(f.client, Consume)
    case SendDataCell(_) => CanMove(f.client, SendData([]))
    case SendOtherCell(_) => !f.client.destroyed
    case PeerReceives => f.wire != []
    case TakeAck => f.acks != [] && CanMove(f.client, Acknowledge([]))
    case Credit => CanMove(f.client, Refill)
    case TearDown => true
    case CloseSendWindow => CanMove(f.client, CloseWindow)
    case GiveUp => CanMove(f.client, Abandon)
  }

  /** The first 20 bytes of the digest, which an acknowledgement carries. */
  function Tag(hash: bytes -> Digest, history: bytes): bytes {
    hash(history)[..SENDME_DIGEST_LEN]
  }

  function Step(hash: bytes -> Digest, f: Flow, e: Event): Flow
    requires Enabled(f, e)
  {
    match e
    case TakeUnit => f.(client := Moved(f.client, Consume))
    case SendDataCell(b) =>
      var history := f.history + b;
      f.(client := Moved(f.client, SendData(hash(history))), history := history, wire := f.wire + [Cell(b, true)])
    case SendOtherCell(b) => f.(history := f.history + b, wire := f.wire + [Cell(b, false)])
    case PeerReceives =>
      var cell := f.wire[0];
      var history := f.peerHistory + cell.absorbed;
      var (count, due) := if cell.isData then Count(f.peerCount, CIRCUIT_WINDOW_INCREMENT) else (f.peerCount, false);
      f.(wire := f.wire[1..], peerHistory := history, peerCount := count,
         acks := if due then f.acks + [Tag(hash, history)] else f.acks)
    case TakeAck => f.(client := Moved(f.client, Acknowledge(f.acks[0])), acks := f.acks[1..])
    case Credit => f.(client := Moved(f.client, Refill))
    case TearDown => f.(client := Moved(f.client, Destroy))
    case CloseSendWindow => f.(client := Moved(f.client, CloseWindow))
    case GiveUp => f.(client := Moved(f.client, Abandon))
  }

  ghost predicate FlowRun(hash: bytes -> Digest, seed: bytes, states: seq<Flow>, events: seq<Event>) {
    && |states| == |events| + 1
    && states[0] == NewFlow(seed)
    && forall i :: 0 <= i < |events| ==>
        Enabled(states[i], events[i]) && states[i + 1] == Step(hash, states[i], events[i])
  }

  /** What the peer will know, and the acknowledgements it will owe, once it has read the wire. */
  datatype Reading = Reading(history: bytes, count: int, owed: seq<bytes>)

  function Read(hash: bytes -> Digest, r: Reading, wire: seq<Cell>): Reading
    decreases |wire|
  {
    if wire == [] then r else Read(hash, ReadOne(hash, r, wire[0]), wire[1..])
  }

  function ReadOne(hash: bytes -> Digest, r: Reading, cell: Cell): Reading {
    var history := r.history + cell.absorbed;
    var (count, due) := if cell.isData then Count(r.count, CIRCUIT_WINDOW_INCREMENT) else (r.count, false);
    Reading(history, count, if due then r.owed + [Tag(hash, history)] else r.owed)
  }

  lemma {:induction false} ReadSnoc(hash: bytes -> Digest, r: Reading, wire: seq<Cell>, cell: Cell)
    ensures Read(hash, r, wire + [cell]) == ReadOne(hash, Read(hash, r, wire), cell)
    decreases |wire|
  {
    if wire == [] {
      assert wire + [cell] == [cell];
      assert [cell][1..] == [];
    } else {
      assert (wire + [cell])[1..] == wire[1..] + [cell];
      ReadSnoc(hash, ReadOne(hash, r, wire[0]), wire[1..], cell);
    }
  }

  /** Owed acknowledgements only accumulate, so dropping the oldest commutes with reading on. */
  lemma {:induction false} ReadDropsOldest(hash: bytes -> Digest, r: Reading, wire: seq<Cell>)
    requires r.owed != []
    ensures Read(hash, r, wire).owed != [] && Read(hash, r, wire).owed[0] == r.owed[0]
    ensures Read(hash, r.(owed := r.owed[1..]), wire)
         == Read(hash, r, wire).(owed := Read(hash, r, wire).owed[1..])
    decreases |wire|
  {
    if wire != [] {
      var next := ReadOne(hash, r, wire[0]);
      assert ReadOne(hash, r.(owed := r.owed[1..]), wire[0]) == next.(owed := next.owed[1..]);
      ReadDropsOldest(hash, next, wire[1..]);
    }
  }

  /** Once the peer has read the wire it will agree with the client on everything. */
  ghost predicate Agreed(hash: bytes -> Digest, f: Flow) {
    && Read(hash, Reading(f.peerHistory, f.peerCount, f.acks), f.wire)
       == Reading(f.history, f.client.tracker.sent, f.client.tracker.expected)
    && !f.client.receiver.Rejected?
    && (forall a :: a in f.acks ==> |a| == SENDME_DIGEST_LEN)
  }

  lemma SendAgrees(hash: bytes -> Digest, f: Flow, b: bytes)
    requires Agreed(hash, f) && Enabled(f, SendDataCell(b))
    ensures Agreed(hash, Step(hash, f, SendDataCell(b)))
  {
    ReadSnoc(hash, Reading(f.peerHistory, f.peerCount, f.acks), f.wire, Cell(b, true));
    assert First20(hash(f.history + b)) == Tag(hash, f.history + b);
  }

  lemma TakeAgrees(hash: bytes -> Digest, f: Flow)
    requires Agreed(hash, f) && Enabled(f, TakeAck)
    ensures Agreed(hash, Step(hash, f, TakeAck)) && Step(hash, f, TakeAck).client.receiver.Accepted?
    ensures f.client.tracker.expected != [] && f.acks[0] == f.client.tracker.expected[0]
  {
    ReadDropsOldest(hash, Reading(f.peerHistory, f.peerCount, f.acks), f.wire);
    assert f.acks[0] in f.acks;
  }

  lemma StepAgrees(hash: bytes -> Digest, f: Flow, e: Event)
    requires Agreed(hash, f) && Enabled(f, e)
    ensures Agreed(hash, Step(hash, f, e))
  {
    match e
    case SendDataCell(b) => SendAgrees(hash, f, b);
    case SendOtherCell(b) => ReadSnoc(hash, Reading(f.peerHistory, f.peerCount, f.acks), f.wire, Cell(b, false));
    case TakeAck => TakeAgrees(hash, f);
    case _ =>
  }

  lemma StepConserves(hash: bytes -> Digest, f: Flow, e: Event)
    requires Conserved(f.client) && Enabled(f, e)
    ensures Conserved(Step(hash, f, e).client)
  {
    hide Conserved, Moved, Count, Noted, Checked;
    match e
    case TakeUnit => MoveConserves(f.client, Consume);
    case SendDataCell(b) => MoveConserves(f.client, SendData(hash(f.history + b)));
    case TakeAck => MoveConserves(f.client, Acknowledge(f.acks[0]));
    case Credit => MoveConserves(f.client, Refill);
    case TearDown => MoveConserves(f.client, Destroy);
    case CloseSendWindow => MoveConserves(f.client, CloseWindow);
    case GiveUp => MoveConserves(f.client, Abandon);
    case _ =>
  }

  lemma {:induction false} FlowKeeps(hash: bytes -> Digest, seed: bytes, states: seq<Flow>, events: seq<Event>, i: nat)
    requires FlowRun(hash, seed, states, events) && i < |states|
    ensures Agreed(hash, states[i]) && Conserved(states[i].client)
  {
    hide Moved;
    if i > 0 {
      FlowKeeps(hash, seed, states, events, i - 1);
      StepAgrees(hash, states[i - 1], events[i - 1]);
      StepConserves(hash, states[i - 1], events[i - 1]);
    }
  }

  /**
   * In every interleaving of DATA, other cells and acknowledgements, every SENDME of an honest last hop is accepted
   * when the receiver verifies it, so the circuit is never torn down for authentication.
   */
  lemma HonestAcksAccepted(hash: bytes -> Digest, seed: bytes, states: seq<Flow>, events: seq<Event>, i: nat)
    requires FlowRun(hash, seed, states, events) && i < |states|
    ensures !states[i].client.receiver.Rejected?
    ensures i < |events| && events[i] == TakeAck ==>
              && states[i].client.tracker.expected != []
              && states[i].acks[0] == states[i].client.tracker.expected[0]
              && states[i + 1].client.receiver.Accepted?
  {
    FlowKeeps(hash, seed, states, events, i);
    if i < |events| && events[i] == TakeAck {
      TakeAgrees(hash, states[i]);
    }
  }

  /**
   * Senders are never stuck: with the window empty, no sender mid-way and nothing to credit, the peer has sent or will
   * owe exactly ten acknowledgements, so an acknowledgement can be taken or the peer can read on.
   */
  lemma NeverDeadlocked(hash: bytes -> Digest, seed: bytes, states: seq<Flow>, events: seq<Event>, i: nat)
    requires FlowRun(hash, seed, states, events) && i < |states|
    requires var c := states[i].client;
             c.window.value == 0 && c.holding == 0 && c.receiver.Idle? && !c.destroyed
    ensures var f := states[i];
            && |Read(hash, Reading(f.peerHistory, f.peerCount, f.acks), f.wire).owed| == 10
            && (Enabled(f, TakeAck) || Enabled(f, PeerReceives))
  {
    FlowKeeps(hash, seed, states, events, i);
  }
}
