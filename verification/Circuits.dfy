/**
 * One onion-encrypted circuit over a channel (`_net/circuit.py`), with the contexts and registries it updates in
 * place.
 */
module Circuits {
  import opened Bytes
  import opened RelayCells
  import opened RelayCryptos
  import opened Onions
  import opened OnionLanes
  import opened FlowControl
  import opened Registries

  datatype SendError = CircuitClosed | ChannelClosed | CellTooLong(error: CellError)

  /** A cell handed to the channel: RELAY or RELAY_EARLY with its wrapped body. */
  datatype RelayBody = RelayBody(early: bool, body: bytes)

  datatype Outcome = ForHop(cell: RelayCell, origin: nat) | NoHop | BadCell(error: CellError)

  function Forwards(hops: seq<RelayCrypto>): (ps: seq<Profile>)
    ensures |ps| == |hops| && forall i :: 0 <= i < |ps| ==> ps[i] == hops[i].forward
  {
    seq(|hops|, i requires 0 <= i < |hops| => hops[i].forward)
  }

  function Backwards(hops: seq<RelayCrypto>): (ps: seq<Profile>)
    ensures |ps| == |hops| && forall i :: 0 <= i < |ps| ==> ps[i] == hops[i].backward
  {
    seq(|hops|, i requires 0 <= i < |hops| => hops[i].backward)
  }

  function ForwardCtxs(hops: seq<RelayCrypto>): (cs: seq<Ctx>)
    reads hops
    ensures |cs| == |hops| && forall i :: 0 <= i < |cs| ==> cs[i] == hops[i].ForwardCtx()
  {
    seq(|hops|, i requires 0 <= i < |hops| reads hops => hops[i].ForwardCtx())
  }

  function BackwardCtxs(hops: seq<RelayCrypto>): (cs: seq<Ctx>)
    reads hops
    ensures |cs| == |hops| && forall i :: 0 <= i < |cs| ==> cs[i] == hops[i].BackwardCtx()
  {
    seq(|hops|, i requires 0 <= i < |hops| reads hops => hops[i].BackwardCtx())
  }

  /** The acknowledgement of the cell that left a hop's backward digest at `digest`. */
  function AckCell(random: nat -> bytes, digest: Digest): (c: RelayCell)
    requires forall n :: |random(n)| == n
    ensures c.WellFormed() && c.command == RELAY_SENDME && c.streamId == 0
    ensures ParseSendme(c.data) == Ok(digest[..SENDME_DIGEST_LEN])
  {
    SendmeRoundTrip(digest[..SENDME_DIGEST_LEN], [], []);
    var body := SendmeBody(digest[..SENDME_DIGEST_LEN]).value;
    assert body + [] == body;
    NewCell(RELAY_SENDME, 0, body, 0, ZERO_DIGEST, [], random)
  }

  predicate IsCircuitSendme(m: Message) {
    m.command == RELAY_SENDME && m.streamId == 0
  }

  /**
   * Who is given a recognized message, first match first: the builder, the flow control, a control waiter, a stream.
   */
  function Addressee(r: Registry, m: Message): Option<Slot> {
    if m.command == RELAY_EXTENDED2 then Some(Build)
    else if IsCircuitSendme(m) then None
    else if m.command in r.control then Some(Control(m.command))
    else Some(Stream(m.streamId))
  }

  /** Everything that sending and receiving can change, apart from the backward contexts. */
  datatype Standing = Standing(registry: Registry, window: Window, tracker: Tracker, count: int, forward: seq<Ctx>,
                               wire: seq<RelayBody>, answered: seq<(Token, Message)>)

  /** Whoever holds the slot is given the message; a builder or a waiter is given one only. */
  function Answered(v: Standing, slot: Slot, m: Message): Standing {
    v.(registry := if slot.Stream? then v.registry else Drop(v.registry, slot),
       answered := match At(v.registry, slot)
                   case Some(token) => v.answered + [(token, m)]
                   case None => v.answered)
  }

  function Closed(v: Standing): Standing {
    v.(registry := TornDown(v.registry).0,
       window := if v.registry.destroyed then v.window else v.window.(closed := true))
  }

  /** Only the oldest expected digest is worth a hundred units; anything else tears the circuit down. */
  function Acknowledged(v: Standing, body: bytes): Standing {
    match ParseSendme(body)
    case Err(_) => Closed(v)
    case Ok(digest) =>
      var (checked, ok) := Checked(v.tracker, digest);
      if ok then v.(tracker := checked, window := v.window.(value := v.window.value + CIRCUIT_WINDOW_INCREMENT))
      else Closed(v.(tracker := checked))
  }

  /**
   * A cell for the last hop: nothing on a destroyed circuit, and nothing for data that does not fit. Otherwise the
   * contexts move, a counted cell's digest is noted, and the body goes out if the channel takes it.
   */
  function Sent(v: Standing, cell: RelayCell, early: bool, countData: bool, ps: seq<Profile>, open: bool): Standing
    requires v.forward != [] && |ps| == |v.forward| && (|cell.data| <= RELAY_PAYLOAD_LEN ==> cell.WellFormed())
  {
    if v.registry.destroyed || |cell.data| > RELAY_PAYLOAD_LEN then v
    else
      var last := |ps| - 1;
      v.(forward := AfterSending(v.forward, cell),
         tracker := if !countData then v.tracker
                    else Noted(v.tracker, CIRCUIT_WINDOW_INCREMENT,
                               ps[last].hash(v.forward[last].history + Absorbed(cell))),
         wire := if open then v.wire + [RelayBody(early, Wrapped(ps, v.forward, cell))] else v.wire)
  }

  /** One more DATA cell, and after every hundredth the acknowledgement `ack`. */
  function Delivered(v: Standing, ack: RelayCell, ps: seq<Profile>, open: bool): Standing
    requires v.forward != [] && |ps| == |v.forward| && ack.WellFormed()
  {
    var (count, due) := Count(v.count, CIRCUIT_WINDOW_INCREMENT);
    var counted := v.(count := count);
    if due then Sent(counted, ack, false, false, ps, open) else counted
  }

  /**
   * A recognized message: every DATA cell that no control waiter takes counts toward the next acknowledgement,
   * whether or not its stream lives.
   */
  function Received(v: Standing, m: Message, ack: RelayCell, ps: seq<Profile>, open: bool): Standing
    requires v.forward != [] && |ps| == |v.forward| && ack.WellFormed()
  {
    match Addressee(v.registry, m)
    case None => Acknowledged(v, m.data)
    case Some(slot) =>
      Answered(if slot.Stream? && m.command == RELAY_DATA then Delivered(v, ack, ps, open) else v, slot, m)
  }

  /** Stream ids run round 1..65535. */
  function NextId(n: nat): (id: nat)
    ensures 1 <= id <= 0xFFFF
  {
    n % 0xFFFF + 1
  }

  function IdAfter(n: nat, k: nat): nat {
    if k == 0 then n else NextId(IdAfter(n, k - 1))
  }

  lemma {:induction false} IdAfterMod(n: nat, k: nat)
    requires n <= 0xFFFF && k > 0
    ensures IdAfter(n, k) == (n + k - 1) % 0xFFFF + 1
  {
    if k > 1 {
      IdAfterMod(n, k - 1);
      ModStep(n + k - 2);
    }
  }

  lemma ModStep(x: nat)
    ensures (x % 0xFFFF + 1) % 0xFFFF == (x + 1) % 0xFFFF
  {
  }

  /** Up to 65535 consecutive allocations never give the same id, and the next one repeats the first. */
  lemma StreamIdsDistinct(n: nat, a: nat, b: nat)
    requires n <= 0xFFFF && 0 < a < b
    ensures b < a + 0xFFFF ==> IdAfter(n, a) != IdAfter(n, b)
    ensures b == a + 0xFFFF ==> IdAfter(n, a) == IdAfter(n, b)
  {
    hide IdAfter, NextId;
    IdAfterMod(n, a);
    IdAfterMod(n, b);
    ModDistinct(n + a - 1, n + b - 1);
  }

  lemma ModDistinct(x: nat, y: nat)
    ensures x < y < x + 0xFFFF ==> x % 0xFFFF != y % 0xFFFF
    ensures y == x + 0xFFFF ==> x % 0xFFFF == y % 0xFFFF
  {
  }

  class Circuit {
    const closeWhenIdle: bool
    const random: nat -> bytes
    var hops: seq<RelayCrypto>
    var streams: map<u16, Token>
    var buildWaiter: Option<Token>
    var relayWaiters: map<byte, Token>
    var destroyed: bool
    var nextStreamId: nat
    const packageWindow: PackageWindow
    const deliver: DeliverCounter
    const tracker: SendmeTracker
    var channelOpen: bool
    var wire: seq<RelayBody>                    // what the channel was given, in order
    var answered: seq<(Token, Message)>         // what handlers and waiters were given, in order

    constructor (closeWhenIdle: bool, random: nat -> bytes)
      requires forall n :: |random(n)| == n
      ensures Valid() && hops == [] && Registered() == EMPTY_REGISTRY && wire == [] && answered == []
      ensures packageWindow.View() == Window(1000, false) && deliver.count == 0 && tracker.View() == Tracker(0, [])
    {
      this.closeWhenIdle, this.random := closeWhenIdle, random;
      hops, streams, buildWaiter, relayWaiters, destroyed, nextStreamId := [], map[], None, map[], false, 0;
      packageWindow := new PackageWindow(CIRCUIT_WINDOW_INITIAL, CIRCUIT_WINDOW_INCREMENT);
      deliver := new DeliverCounter(CIRCUIT_WINDOW_INCREMENT);
      tracker := new SendmeTracker(CIRCUIT_WINDOW_INCREMENT);
      channelOpen, wire, answered := true, [], [];
    }

    ghost predicate Valid()
      reads this
    {
      && (forall i, j :: 0 <= i < j < |hops| ==> hops[i] != hops[j])
      && (forall n :: |random(n)| == n)
      && packageWindow.increment == deliver.increment == tracker.increment == CIRCUIT_WINDOW_INCREMENT
      && nextStreamId <= 0xFFFF
    }

    function Registered(): Registry
      reads this
    {
      Registry(destroyed, streams, buildWaiter, relayWaiters)
    }

    function Now(): Standing
      reads this, hops, packageWindow, deliver, tracker
    {
      Standing(Registered(), packageWindow.View(), tracker.View(), deliver.count, ForwardCtxs(hops), wire, answered)
    }

    // --- sending -------------------------------------------------------------------

    /**
     * Stamps for the last hop and wraps from that hop inward. The contexts move exactly as the client's side of a lane
     * moves, and a counted DATA cell's digest is noted before anything else can be stamped.
     */
    method SendRelay(cell: RelayCell, early: bool, countData: bool) returns (r: Result<(), SendError>)
      requires Valid() && hops != []
      requires |cell.data| <= RELAY_PAYLOAD_LEN ==> cell.WellFormed()
      modifies this`wire, hops, tracker
      ensures Valid()
      ensures r == if destroyed then Err(CircuitClosed)
                   else if |cell.data| > RELAY_PAYLOAD_LEN then Err(CellTooLong(DataTooLong))
                   else if !channelOpen then Err(ChannelClosed) else Ok(())
      ensures BackwardCtxs(hops) == old(BackwardCtxs(hops))
      ensures Now() == Sent(old(Now()), cell, early, countData, Forwards(hops), channelOpen)
    {
      hide Wire, Absorbed, Layers, Noted, Moved, Wrapped, AfterStamping, AfterSending, StampedLast;
      if destroyed {
        return Err(CircuitClosed);
      }
      ghost var ps, cs := Forwards(hops), ForwardCtxs(hops);
      var stamped := StampLast(cell, countData);
      if stamped.Err? {
        return Err(CellTooLong(DataTooLong));
      }
      StampThenWrap(ps, cs, cell);
      var body := Wrap(Wire(stamped.value));
      if !channelOpen {
        return Err(ChannelClosed);
      }
      wire := wire + [RelayBody(early, body)];
      r := Ok(());
    }

    /** Stamps for the last hop and, for a counted cell, notes the digest it left. */
    method StampLast(cell: RelayCell, countData: bool) returns (r: Result<RelayCell, CellError>)
      requires Valid() && hops != []
      requires |cell.data| <= RELAY_PAYLOAD_LEN ==> cell.WellFormed()
      modifies hops, tracker
      ensures BackwardCtxs(hops) == old(BackwardCtxs(hops)) && (r.Err? <==> |cell.data| > RELAY_PAYLOAD_LEN)
      ensures r.Err? ==> ForwardCtxs(hops) == old(ForwardCtxs(hops)) && tracker.View() == old(tracker.View())
      ensures r.Ok? ==>
                var cs := old(ForwardCtxs(hops));
                && r.value == StampedLast(Forwards(hops), cs, cell)
                && ForwardCtxs(hops) == AfterStamping(cs, cell)
                && tracker.View() == (if countData
                                      then Noted(old(tracker.View()), CIRCUIT_WINDOW_INCREMENT,
                                                 hops[|hops| - 1].forward.hash(cs[|hops| - 1].history + Absorbed(cell)))
                                      else old(tracker.View()))
    {
      hide Wire, Absorbed, Stamped, Noted;
      var target := |hops| - 1;
      r := hops[target].StampForward(cell);
      if r.Ok? && countData {
        tracker.NoteSent(hops[target].forward.hash(hops[target].forwardDigest));
      }
    }

    /** Applies every hop's forward cipher, last hop first. */
    method Wrap(plain: bytes) returns (body: bytes)
      requires Valid() && hops != [] && |plain| == CELL_PAYLOAD_LEN
      modifies hops
      ensures body == Layers(Forwards(hops), old(ForwardCtxs(hops)), 0, |hops| - 1, plain)
      ensures ForwardCtxs(hops) == Moved(old(ForwardCtxs(hops)), |hops|)
      ensures BackwardCtxs(hops) == old(BackwardCtxs(hops))
    {
      hide Crypt;
      ghost var ps, cs := Forwards(hops), ForwardCtxs(hops);
      body := plain;
      var i := |hops|;
      while i > 0
        invariant 0 <= i <= |hops| && body == Layers(ps, cs, i, |hops| - 1, plain)
        invariant forall k :: 0 <= k < |hops| ==> hops[k].BackwardCtx() == old(hops[k].BackwardCtx())
        invariant forall k :: 0 <= k < i ==> hops[k].ForwardCtx() == cs[k]
        invariant forall k :: i <= k < |hops| ==>
            hops[k].ForwardCtx() == Ctx(cs[k].position + CELL_PAYLOAD_LEN, cs[k].history)
      {
        i := i - 1;
        body := hops[i].ApplyForwardCipher(body);
      }
      assert BackwardCtxs(hops) == old(BackwardCtxs(hops));
      assert ForwardCtxs(hops) == Moved(cs, |hops|);
    }

    // --- receiving -----------------------------------------------------------------

    /** One hop removes its layer and looks at what is left. */
    method UnwrapAt(index: nat, payload: bytes) returns (body: bytes, recognized: Recognition)
      requires Valid() && index < |hops| && |payload| == CELL_PAYLOAD_LEN
      modifies hops
      ensures ForwardCtxs(hops) == old(ForwardCtxs(hops))
      ensures body == Crypt(Backwards(hops)[index], old(BackwardCtxs(hops))[index].position, payload)
      ensures recognized == Recognized(Backwards(hops)[index], old(BackwardCtxs(hops))[index].history, body)
      ensures var c := old(BackwardCtxs(hops))[index];
              BackwardCtxs(hops) == old(BackwardCtxs(hops))[index := Ctx(c.position + |payload|,
                if recognized.NotMine? then c.history else c.history + ZeroDigest(body))]
    {
      hide Crypt, Recognized, ZeroDigest;
      body := hops[index].ApplyBackwardCipher(payload);
      recognized := hops[index].RecognizeBackward(body);
    }

    /** Unwraps a received body hop by hop until one hop recognizes it. */
    method Unwrap(payload: bytes) returns (r: Outcome)
      requires Valid() && |payload| == CELL_PAYLOAD_LEN
      modifies hops
      ensures Valid() && ForwardCtxs(hops) == old(ForwardCtxs(hops))
      ensures var peeled := Peel(Backwards(hops), old(BackwardCtxs(hops)), 0, payload);
              && BackwardCtxs(hops) == peeled.ctxs
              && r == match peeled
                      case Routed(_, cell, origin) => ForHop(cell, origin)
                      case Unrecognized(_) => NoHop
                      case Corrupt(_, e) => BadCell(e)
    {
      hide Crypt, Recognized, ZeroDigest;
      var body := payload;
      var index := 0;
      ghost var ps := Backwards(hops);
      while index < |hops|
        invariant 0 <= index <= |hops| && |body| == CELL_PAYLOAD_LEN
        invariant ForwardCtxs(hops) == old(ForwardCtxs(hops))
        invariant Peel(ps, BackwardCtxs(hops), index, body) == Peel(ps, old(BackwardCtxs(hops)), 0, payload)
      {
        var recognized;
        body, recognized := UnwrapAt(index, body);
        match recognized
        case Mine(cell) => return ForHop(cell, index);
        case Malformed(e) => return BadCell(e);
        case NotMine => index := index + 1;
      }
      r := NoHop;
    }

    /** The acknowledgement that falls due for a cell from hop `origin`. */
    function Ack(origin: nat): RelayCell
      requires origin < |hops| && forall n :: |random(n)| == n
      reads this, hops
    {
      AckCell(random, hops[origin].backward.hash(hops[origin].backwardDigest))
    }

    /**
     * A received body: peeled, then given to whoever waits for it, from the hop that recognized it. A body no hop
     * recognizes tears the circuit down; one recognized but malformed raises.
     */
    method HandleRelay(payload: bytes) returns (r: Result<(), CellError>)
      requires Valid() && |payload| == CELL_PAYLOAD_LEN
      modifies this`destroyed, this`streams, this`buildWaiter, this`relayWaiters, this`answered, this`wire, hops,
               packageWindow, deliver, tracker
      ensures Valid()
      ensures var peeled := Peel(Backwards(hops), old(BackwardCtxs(hops)), 0, payload);
              && BackwardCtxs(hops) == peeled.ctxs
              && match peeled
                 case Routed(_, cell, origin) =>
                   && r == Ok(())
                   && Now() == Received(old(Now()), cell.Meaning(), Ack(origin), Forwards(hops), channelOpen)
                 case Unrecognized(_) => r == Ok(()) && Now() == Closed(old(Now()))
                 case Corrupt(_, e) => r == Err(e) && Now() == old(Now())
    {
      hide Peel, Received, Closed, AckCell;
      var outcome := Unwrap(payload);
      match outcome
      case ForHop(cell, origin) =>
        RouteRelay(cell.Meaning(), origin);
        r := Ok(());
      case NoHop =>
        var _ := TearDown();
        r := Ok(());
      case BadCell(e) => r := Err(e);
    }

    /** Hands a recognized message to whoever is waiting for it, and keeps the circuit's flow control. */
    method RouteRelay(m: Message, origin: nat)
      requires Valid() && origin < |hops|
      modifies this`destroyed, this`streams, this`buildWaiter, this`relayWaiters, this`answered, this`wire, hops,
               packageWindow, deliver, tracker
      ensures Valid() && BackwardCtxs(hops) == old(BackwardCtxs(hops))
      ensures Now() == Received(old(Now()), m, Ack(origin), Forwards(hops), channelOpen)
    {
      hide Answered, Acknowledged, Delivered, AckCell;
      if m.command == RELAY_EXTENDED2 {
        FireBuild(m);
      } else if IsCircuitSendme(m) {
        HandleCircuitSendme(m);
      } else {
        RouteOther(m, origin);
      }
    }

    /** Whatever is neither a build reply nor a circuit acknowledgement. */
    method RouteOther(m: Message, origin: nat)
      requires Valid() && origin < |hops| && m.command != RELAY_EXTENDED2 && !IsCircuitSendme(m)
      modifies this`relayWaiters, this`answered, this`wire, hops, deliver, tracker
      ensures Valid() && BackwardCtxs(hops) == old(BackwardCtxs(hops))
      ensures Now() == Received(old(Now()), m, Ack(origin), Forwards(hops), channelOpen)
    {
      hide Answered, Delivered, AckCell;
      var taken := AnswerControl(m);
      if taken {
        return;
      }
      if m.command == RELAY_DATA {
        CountDelivered(origin);
      }
      AnswerStream(m);
    }

    method AnswerStream(m: Message)
      modifies this`answered
      ensures Now() == Answered(old(Now()), Stream(m.streamId), m)
    {
      if m.streamId in streams {
        answered := answered + [(streams[m.streamId], m)];
      }
    }

    /** Pops the waiter for a control command, and gives it the message. */
    method AnswerControl(m: Message) returns (taken: bool)
      modifies this`relayWaiters, this`answered
      ensures taken <==> m.command in old(relayWaiters)
      ensures Now() == if taken then Answered(old(Now()), Control(m.command), m) else old(Now())
    {
      taken := m.command in relayWaiters;
      if taken {
        answered := answered + [(relayWaiters[m.command], m)];
      } else {
        assert relayWaiters - {m.command} == relayWaiters;
      }
      relayWaiters := relayWaiters - {m.command};
    }

    /** Gives the builder its reply, once. */
    method FireBuild(reply: Message)
      modifies this`buildWaiter, this`answered
      ensures Now() == Answered(old(Now()), Build, reply)
    {
      if buildWaiter.Some? {
        answered := answered + [(buildWaiter.value, reply)];
      }
      buildWaiter := None;
    }

    method CountDelivered(origin: nat)
      requires Valid() && origin < |hops|
      modifies this`wire, hops, deliver, tracker
      ensures Valid() && BackwardCtxs(hops) == old(BackwardCtxs(hops))
      ensures Now() == Delivered(old(Now()), Ack(origin), Forwards(hops), channelOpen)
    {
      hide Sent, AckCell;
      var due := deliver.NoteReceived();
      if due {
        ghost var before := BackwardCtxs(hops)[origin];
        EmitCircuitSendme(origin);
        assert BackwardCtxs(hops)[origin] == before;
      }
    }

    /** Authenticates an acknowledgement before crediting the window; a bad one tears the circuit down. */
    method HandleCircuitSendme(m: Message)
      requires Valid()
      modifies this`destroyed, this`streams, this`buildWaiter, this`relayWaiters, packageWindow, tracker
      ensures Valid() && Now() == Acknowledged(old(Now()), m.data)
    {
      hide ParseSendme, Tokens;
      var digest := ParseSendme(m.data);
      if digest.Err? {
        var _ := TearDown();
        return;
      }
      var ok := tracker.Verify(digest.value);
      if !ok {
        var _ := TearDown();
        return;
      }
      packageWindow.Refill();
    }

    /** Acknowledges with the backward digest of the hop the cell came from; a send that fails is dropped. */
    method EmitCircuitSendme(origin: nat)
      requires Valid() && origin < |hops|
      modifies this`wire, hops, tracker
      ensures Valid() && BackwardCtxs(hops) == old(BackwardCtxs(hops))
      ensures Now() == Sent(old(Now()), old(Ack(origin)), false, false, Forwards(hops), channelOpen)
    {
      hide Sent, ParseSendme;
      var ack := AckCell(random, hops[origin].backward.hash(hops[origin].backwardDigest));
      var _ := SendRelay(ack, false, false);
    }

    // --- registry and teardown --------------------------------------------------------

    method NextStreamId() returns (id: nat)
      requires Valid()
      modifies this`nextStreamId
      ensures Valid() && id == nextStreamId == IdAfter(old(nextStreamId), 1)
      ensures old(nextStreamId) < 65535 ==> id == old(nextStreamId) + 1
      ensures old(nextStreamId) == 65535 ==> id == 1
    {
      nextStreamId := nextStreamId % 0xFFFF + 1;
      id := nextStreamId;
    }

    method RegisterStream(id: u16, handler: Token) returns (r: Result<(), SendError>)
      modifies this`streams
      ensures r == if destroyed then Err(CircuitClosed) else Ok(())
      ensures Registered() == if destroyed then old(Registered()) else Put(old(Registered()), Stream(id), handler)
    {
      if destroyed {
        return Err(CircuitClosed);
      }
      streams := streams[id := handler];
      r := Ok(());
    }

    method ArmRelay(command: byte, waiter: Token) returns (r: Result<(), SendError>)
      modifies this`relayWaiters
      ensures r == if destroyed then Err(CircuitClosed) else Ok(())
      ensures Registered() == if destroyed then old(Registered()) else Put(old(Registered()), Control(command), waiter)
    {
      if destroyed {
        return Err(CircuitClosed);
      }
      relayWaiters := relayWaiters[command := waiter];
      r := Ok(());
    }

    /** Tells the caller whether the circuit has just lost its last stream and should close. */
    method UnregisterStream(id: u16) returns (idle: bool)
      modifies this`streams
      ensures Registered() == Drop(old(Registered()), Stream(id))
      ensures idle <==> closeWhenIdle && streams == map[]
    {
      streams := streams - {id};
      idle := closeWhenIdle && streams == map[];
    }

    /**
     * The locked section of a teardown, then the window; `told` is everyone the caller must now notify, outside the
     * lock.
     */
    method TearDown() returns (told: set<Token>)
      modifies this`destroyed, this`streams, this`buildWaiter, this`relayWaiters, packageWindow`closed
      ensures told == TornDown(old(Registered())).1 && Now() == Closed(old(Now()))
    {
      if destroyed {
        return {};
      }
      destroyed := true;
      told := streams.Values + relayWaiters.Values + (match buildWaiter case Some(t) => {t} case None => {});
      streams, relayWaiters, buildWaiter := map[], map[], None;
      packageWindow.Close();
    }
  }
}
