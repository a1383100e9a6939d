/**
 * Bytes end to end, inbound: the cells that a circuit recognizes are given to the stream registered under their id,
 * while streams register, read, end, and their ids are used again (`_net/circuit.py`, `_net/stream.py`).
 */
module StreamArrivals {
  import opened Bytes
  import opened RelayCells
  import opened RelayCryptos
  import opened FlowControl
  import opened Onions
  import opened Registries
  import opened Circuits
  import opened Streams
  import OnionRuns

  /** A recognized message and the hop it came from. */
  datatype Arrival = Arrival(origin: nat, message: Message)

  /**
   * One stream's receiving side: its buffer, and all that `recv` has returned. It was registered when `from` messages
   * had arrived, and its registration ended, if it has, when `upto` had.
   */
  datatype Reader = Reader(id: u16, from: nat, upto: Option<nat>, buffer: bytes, taken: bytes)

  datatype State = State(registry: Registry, readers: map<Token, Reader>, log: seq<Arrival>)

  const START := State(EMPTY_REGISTRY, map[], [])

  datatype Event =
    | Register(t: Token, id: u16)          // register_stream
    | Unregister(id: u16)                  // unregister_stream
    | Arm(slot: Slot, w: Token)            // arm_relay and _arm_build_waiter
    | Arrive(origin: nat, m: Message)      // _route_relay
    | Take(t: Token, n: nat)               // the locked section of recv
    | TearDown

  /** Control waiters are armed for the replies of the rendezvous protocol, never for DATA. */
  predicate Enabled(s: State, e: Event) {
    match e
    case Register(t, _) => t !in s.readers && !s.registry.destroyed
    case Unregister(_) => true
    case Arm(slot, _) => !s.registry.destroyed && !slot.Stream? && slot != Control(RELAY_DATA)
    case Arrive(_, _) => true
    case Take(t, n) => t in s.readers && n <= |s.readers[t].buffer|
    case TearDown => true
  }

  /** The readers once nobody is registered under `id` any more. */
  function Ended(s: State, id: u16): map<Token, Reader> {
    match At(s.registry, Stream(id))
    case Some(t) => if t in s.readers then s.readers[t := s.readers[t].(upto := Some(|s.log|))] else s.readers
    case None => s.readers
  }

  function AllEnded(s: State): map<Token, Reader> {
    map t | t in s.readers ::
      if s.readers[t].upto.None? then s.readers[t].(upto := Some(|s.log|)) else s.readers[t]
  }

  function Given(readers: map<Token, Reader>, t: Token, m: Message): map<Token, Reader> {
    if m.command == RELAY_DATA && t in readers
    then readers[t := readers[t].(buffer := readers[t].buffer + m.data)] else readers
  }

  function Arrived(s: State, m: Message): State {
    match Addressee(s.registry, m)
    case None => s
    case Some(slot) =>
      State(if slot.Stream? then s.registry else Drop(s.registry, slot),
            match At(s.registry, slot) case Some(t) => if slot.Stream? then Given(s.readers, t, m) else s.readers
                                       case None => s.readers,
            s.log)
  }

  function Step(s: State, e: Event): State
    requires Enabled(s, e)
  {
    match e
    case Register(t, id) =>
      s.(registry := Put(s.registry, Stream(id), t), readers := Ended(s, id)[t := Reader(id, |s.log|, None, [], [])])
    case Unregister(id) => s.(registry := Drop(s.registry, Stream(id)), readers := Ended(s, id))
    case Arm(slot, w) => s.(registry := Put(s.registry, slot, w))
    case Arrive(origin, m) => Arrived(s, m).(log := s.log + [Arrival(origin, m)])
    case Take(t, n) =>
      var r := s.readers[t];
      s.(readers := s.readers[t := r.(buffer := r.buffer[n..], taken := r.taken + r.buffer[..n])])
    case TearDown => s.(registry := TornDown(s.registry).0, readers := AllEnded(s))
  }

  ghost predicate Run(states: seq<State>, events: seq<Event>) {
    && |states| == |events| + 1
    && states[0] == START
    && forall i :: 0 <= i < |events| ==> Enabled(states[i], events[i]) && states[i + 1] == Step(states[i], events[i])
  }

  /** The step gives a message to the one whom `Circuits.Circuit.RouteRelay` gives it to, and to nobody else. */
  lemma ArrivesAsRouted(s: State, m: Message, v: Standing, ack: RelayCell, ps: seq<Profile>, open: bool)
    requires v.registry == s.registry && v.forward != [] && |ps| == |v.forward| && ack.WellFormed()
    requires !IsCircuitSendme(m)
    ensures var v' := Circuits.Received(v, m, ack, ps, open);
            && v'.registry == Arrived(s, m).registry
            && v'.answered == match At(s.registry, Addressee(s.registry, m).value)
                              case Some(t) => v.answered + [(t, m)]
                              case None => v.answered
  {
    hide AfterSending, Wrapped, Absorbed, Count;
  }

  // --- what a reader has is what arrived for it ---------------------------------------------

  function Messages(log: seq<Arrival>): (ms: seq<Message>)
    ensures |ms| == |log| && forall i :: 0 <= i < |ms| ==> ms[i] == log[i].message
  {
    seq(|log|, i requires 0 <= i < |log| => log[i].message)
  }

  function End(r: Reader, length: nat): nat {
    match r.upto case Some(n) => n case None => length
  }

  predicate ReaderOk(r: Reader, log: seq<Arrival>) {
    && r.from <= End(r, |log|) <= |log|
    && r.taken + r.buffer == BytesOf(r.id, Messages(log[r.from..End(r, |log|)]))
  }

  /** The streams registered are the readers whose registration has not ended. */
  predicate Indexed(s: State) {
    && (forall t :: t in s.readers && s.readers[t].upto.None? ==> At(s.registry, Stream(s.readers[t].id)) == Some(t))
    && (forall id :: id in s.registry.streams ==>
          s.registry.streams[id] in s.readers && s.readers[s.registry.streams[id]].id == id
          && s.readers[s.registry.streams[id]].upto.None?)
    && RELAY_DATA !in s.registry.control && (s.registry.destroyed ==> s.registry.streams == map[])
  }

  ghost predicate Faithful(s: State) {
    (forall t :: t in s.readers ==> ReaderOk(s.readers[t], s.log)) && Indexed(s)
  }

  lemma MessagesSnoc(log: seq<Arrival>, from: nat, a: Arrival)
    requires from <= |log|
    ensures Messages((log + [a])[from..|log| + 1]) == Messages(log[from..|log|]) + [a.message]
  {
    assert (log + [a])[from..|log| + 1] == log[from..|log|] + [a];
  }

  lemma OtherMessage(r: Reader, log: seq<Arrival>, a: Arrival)
    requires ReaderOk(r, log) && (r.upto.Some? || a.message.command != RELAY_DATA || a.message.streamId != r.id)
    ensures ReaderOk(r, log + [a])
  {
    hide BytesOf;
    if r.upto.None? {
      MessagesSnoc(log, r.from, a);
      BytesOfSnoc(r.id, Messages(log[r.from..|log|]), a.message);
      assert BytesOf(r.id, Messages(log[r.from..|log|])) + [] == BytesOf(r.id, Messages(log[r.from..|log|]));
    } else {
      assert (log + [a])[r.from..r.upto.value] == log[r.from..r.upto.value];
    }
  }

  lemma OwnMessage(r: Reader, log: seq<Arrival>, a: Arrival)
    requires ReaderOk(r, log) && r.upto.None? && a.message.command == RELAY_DATA && a.message.streamId == r.id
    ensures ReaderOk(r.(buffer := r.buffer + a.message.data), log + [a])
  {
    hide BytesOf;
    MessagesSnoc(log, r.from, a);
    BytesOfSnoc(r.id, Messages(log[r.from..|log|]), a.message);
    assert r.taken + (r.buffer + a.message.data) == (r.taken + r.buffer) + a.message.data;
  }

  /** Whose DATA it is, if anybody's. */
  function Owner(r: Registry, m: Message): Option<Token> {
    if m.command == RELAY_DATA then At(r, Stream(m.streamId)) else None
  }

  lemma ArriveReaders(s: State, m: Message)
    requires Indexed(s)
    ensures Arrived(s, m).readers
            == match Owner(s.registry, m) case Some(t) => Given(s.readers, t, m) case None => s.readers
    ensures match Owner(s.registry, m)
            case Some(t) => t in s.readers && s.readers[t].id == m.streamId && s.readers[t].upto.None?
            case None => true
    ensures m.command == RELAY_DATA ==>
              forall t :: t in s.readers && s.readers[t].id == m.streamId && s.readers[t].upto.None? ==>
                Owner(s.registry, m) == Some(t)
  {
  }

  lemma ArriveFaithful(s: State, origin: nat, m: Message)
    requires Faithful(s)
    ensures Faithful(Step(s, Arrive(origin, m)))
  {
    ArriveIndexed(s, m);
    ArriveReaders(s, m);
    hide ReaderOk, Indexed, Owner, Arrived;
    var s', a := Step(s, Arrive(origin, m)), Arrival(origin, m);
    assert Indexed(s') by { LogIndexed(Arrived(s, m), s'.log); }
    forall t | t in s'.readers ensures ReaderOk(s'.readers[t], s'.log) {
      if m.command == RELAY_DATA && Owner(s.registry, m) == Some(t) {
        OwnMessage(s.readers[t], s.log, a);
      } else {
        OtherMessage(s.readers[t], s.log, a);
      }
    }
  }

  lemma LogIndexed(s: State, log: seq<Arrival>)
    requires Indexed(s)
    ensures Indexed(s.(log := log))
  {
  }

  lemma ArriveIndexed(s: State, m: Message)
    requires Indexed(s)
    ensures Indexed(Arrived(s, m)) && Arrived(s, m).log == s.log
  {
  }

  lemma EndedOk(r: Reader, log: seq<Arrival>)
    requires ReaderOk(r, log) && r.upto.None?
    ensures ReaderOk(r.(upto := Some(|log|)), log)
  {
  }

  lemma FreshOk(id: u16, log: seq<Arrival>)
    ensures ReaderOk(Reader(id, |log|, None, [], []), log)
  {
    assert Messages(log[|log|..|log|]) == [];
  }

  lemma TakeOk(r: Reader, log: seq<Arrival>, n: nat)
    requires ReaderOk(r, log) && n <= |r.buffer|
    ensures ReaderOk(r.(buffer := r.buffer[n..], taken := r.taken + r.buffer[..n]), log)
  {
    assert (r.taken + r.buffer[..n]) + r.buffer[n..] == r.taken + r.buffer;
  }

  /** Every event but an arrival leaves the log alone and changes each reader in one of these ways, or not at all. */
  lemma QuietFaithful(s: State, e: Event)
    requires Faithful(s) && Enabled(s, e) && !e.Arrive?
    ensures Faithful(Step(s, e))
  {
    var s' := Step(s, e);
    QuietIndexed(s, e);
    hide ReaderOk, Indexed, At;
    forall t | t in s'.readers ensures ReaderOk(s'.readers[t], s.log) {
      if t !in s.readers {
        FreshOk(s'.readers[t].id, s.log);
      } else if s'.readers[t] != s.readers[t] {
        if e.Take? {
          TakeOk(s.readers[t], s.log, e.n);
        } else {
          assert s'.readers[t] == s.readers[t].(upto := Some(|s.log|));
          EndedOnce(s, e, t);
          EndedOk(s.readers[t], s.log);
        }
      }
    }
  }

  lemma EndedOnce(s: State, e: Event, t: Token)
    requires Indexed(s) && Enabled(s, e) && !e.Arrive? && !e.Take? && t in s.readers && t in Step(s, e).readers
    requires Step(s, e).readers[t] != s.readers[t]
    ensures s.readers[t].upto.None?
  {
  }

  lemma QuietIndexed(s: State, e: Event)
    requires Indexed(s) && Enabled(s, e) && !e.Arrive?
    ensures Indexed(Step(s, e))
  {
  }

  lemma {:induction false} RunFaithful(states: seq<State>, events: seq<Event>, i: nat)
    requires Run(states, events) && i < |states|
    ensures Faithful(states[i])
  {
    hide ReaderOk, Indexed;
    if i == 0 {
      StartIndexed();
    } else {
      RunFaithful(states, events, i - 1);
      var e := events[i - 1];
      if e.Arrive? {
        ArriveFaithful(states[i - 1], e.origin, e.m);
      } else {
        QuietFaithful(states[i - 1], e);
      }
    }
  }

  lemma StartIndexed()
    ensures Indexed(START)
  {
  }

  // --- end to end -----------------------------------------------------------------------------

  /** The messages that came from one hop. */
  function From(hop: nat, log: seq<Arrival>): seq<Message> {
    if log == [] then []
    else From(hop, log[..|log| - 1]) + if log[|log| - 1].origin == hop then [log[|log| - 1].message] else []
  }

  lemma {:induction false} FromAppend(hop: nat, a: seq<Arrival>, b: seq<Arrival>)
    ensures From(hop, a + b) == From(hop, a) + From(hop, b)
  {
    if b == [] {
      assert a + b == a;
    } else {
      assert (a + b)[..|a + b| - 1] == a + b[..|b| - 1];
      FromAppend(hop, a, b[..|b| - 1]);
    }
  }

  ghost predicate DataOnlyFrom(hop: nat, log: seq<Arrival>) {
    forall i :: 0 <= i < |log| && log[i].message.command == RELAY_DATA ==> log[i].origin == hop
  }

  lemma NoBytes(id: u16)
    ensures BytesOf(id, []) == []
  {
  }

  lemma {:induction false} BytesFrom(hop: nat, id: u16, log: seq<Arrival>)
    requires DataOnlyFrom(hop, log)
    ensures BytesOf(id, From(hop, log)) == BytesOf(id, Messages(log))
  {
    hide BytesOf;
    if log == [] {
      NoBytes(id);
    } else {
      var init, last := log[..|log| - 1], log[|log| - 1];
      BytesFrom(hop, id, init);
      assert Messages(log) == Messages(init) + [last.message];
      BytesOfSnoc(id, Messages(init), last.message);
      if last.origin == hop {
        BytesOfSnoc(id, From(hop, init), last.message);
      } else {
        assert last.message.command != RELAY_DATA;
        assert From(hop, init) + [] == From(hop, init);
        assert BytesOf(id, Messages(init)) + [] == BytesOf(id, Messages(init));
      }
    }
  }

  /** Where a stretch of the log lies among the messages of a hop. */
  lemma FromBetween(hop: nat, log: seq<Arrival>, from: nat, upto: nat)
    requires from <= upto <= |log|
    ensures var a, b := |From(hop, log[..from])|, |From(hop, log[..upto])|;
            a <= b <= |From(hop, log)| && From(hop, log)[a..b] == From(hop, log[from..upto])
  {
    assert log == log[..upto] + log[upto..] && log[..upto] == log[..from] + log[from..upto];
    FromAppend(hop, log[..upto], log[upto..]);
    FromAppend(hop, log[..from], log[from..upto]);
  }

  /**
   * Inbound byte fidelity. For any streams of a circuit, registering, reading and ending in any order, and any run of
   * the circuit that recognized those cells, without a false recognition: what `recv` has returned to a stream,
   * followed by its buffer, is the DATA that hop `hop` sent under its id while it was registered, every byte of it in
   * order. The stretch `a..b` of what the hop has sent is the one recognized in that time.
   */
  lemma ArrivesEndToEnd(states: seq<State>, events: seq<Event>, i: nat,
                        circuit: seq<OnionRuns.State>, steps: seq<OnionRuns.Event>, k: nat, hop: nat, t: Token)
    returns (a: nat, b: nat)
    requires Run(states, events) && i < |states| && t in states[i].readers
    requires OnionRuns.Run(circuit, steps) && k < |circuit| && OnionRuns.Shaped(circuit[k]) && hop < |circuit[k].hops|
    requires DataOnlyFrom(hop, states[i].log) && circuit[k].bwd.got[hop] == From(hop, states[i].log)
    ensures var r, log, sent := states[i].readers[t], states[i].log, circuit[k].bwd.sent[hop];
            && r.from <= End(r, |log|) <= |log|
            && a == |From(hop, log[..r.from])| && b == |From(hop, log[..End(r, |log|)])| && a <= b <= |sent|
            && r.taken + r.buffer == BytesOf(r.id, sent[a..b])
  {
    RunFaithful(states, events, i);
    OnionRuns.Synchrony(circuit, steps, k);
    var r, log := states[i].readers[t], states[i].log;
    assert ReaderOk(r, log);
    var end := End(r, |log|);
    FromBetween(hop, log, r.from, end);
    BytesFrom(hop, r.id, log[r.from..end]);
    a, b := |From(hop, log[..r.from])|, |From(hop, log[..end])|;
    assert circuit[k].bwd.sent[hop][a..b] == circuit[k].bwd.got[hop][a..b];
  }
}
