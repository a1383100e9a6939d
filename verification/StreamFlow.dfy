/**
 * A download as a protocol: an honest peer that respects its stream window, the receiver thread that buffers, and the
 * one reader that consumes and credits. Standard: "Stream-level flow control" of tor-spec.
 */
module StreamFlow {
  import opened Bytes
  import opened RelayCells
  import opened FlowControl
  import opened Sequences
  import opened Streams

  /** Where the reader is inside `recv`: outside, holding bytes not yet counted, or working off credit. */
  datatype Reader = Outside | Holding(bytes: nat) | Crediting

  /**
   * `sent` and `received` log the DATA payloads at each end, `taken` what `recv` has returned; `acks` SENDMEs are on
   * their way to the peer, `credited` have reached it, and `lost` could not be sent because the circuit was closed.
   */
  datatype State = State(
    peerWindow: int, flight: seq<bytes>, buffer: bytes, reader: Reader, consumed: int,
    acks: nat, credited: nat, lost: nat,
    sent: seq<bytes>, received: seq<bytes>, taken: bytes)

  const START := State(STREAM_WINDOW_INITIAL, [], [], Outside, 0, 0, 0, 0, [], [], [])

  datatype Event =
    | PeerSends(data: bytes)
    | Receive                  // Stream.handle_relay
    | Take(n: nat)             // the locked section of recv
    | Count                    // the reader adds what it took to its running total
    | Emit                     // one turn of the credit loop
    | EmitFails                // the same, with the circuit already closed
    | Leave                    // recv returns
    | PeerCredited

  predicate Enabled(s: State, e: Event) {
    match e
    case PeerSends(data) => s.peerWindow > 0 && |data| <= RELAY_PAYLOAD_LEN
    case Receive => s.flight != []
    case Take(n) => s.reader.Outside? && n <= |s.buffer|
    case Count => s.reader.Holding?
    case Emit => s.reader.Crediting? && s.consumed >= SENDME_AFTER
    case EmitFails => s.reader.Crediting? && s.consumed >= SENDME_AFTER
    case Leave => s.reader.Crediting? && s.consumed < SENDME_AFTER
    case PeerCredited => s.acks > 0
  }

  function Step(s: State, e: Event): State
    requires Enabled(s, e)
  {
    match e
    case PeerSends(data) => s.(peerWindow := s.peerWindow - 1, flight := s.flight + [data], sent := s.sent + [data])
    case Receive =>
      s.(flight := s.flight[1..], buffer := s.buffer + s.flight[0], received := s.received + [s.flight[0]])
    case Take(n) => s.(buffer := s.buffer[n..], taken := s.taken + s.buffer[..n], reader := Holding(n))
    case Count => s.(consumed := s.consumed + s.reader.bytes, reader := Crediting)
    case Emit => s.(consumed := s.consumed - SENDME_AFTER, acks := s.acks + 1)
    case EmitFails => s.(consumed := s.consumed - SENDME_AFTER, lost := s.lost + 1)
    case Leave => s.(reader := Outside)
    case PeerCredited => s.(acks := s.acks - 1, credited := s.credited + 1,
                            peerWindow := s.peerWindow + STREAM_WINDOW_INCREMENT)
  }

  ghost predicate Run(states: seq<State>, events: seq<Event>) {
    && |states| == |events| + 1
    && states[0] == START
    && forall i :: 0 <= i < |events| ==> Enabled(states[i], events[i]) && states[i + 1] == Step(states[i], events[i])
  }

  function Held(s: State): int {
    match s.reader case Holding(n) => n case _ => 0
  }

  /** The reader's side: every byte taken has been credited, is carried over, or is about to be counted. */
  predicate ReaderOk(s: State) {
    && 0 <= s.consumed && (s.reader.Outside? ==> s.consumed < SENDME_AFTER)
    && |s.taken| == SENDME_AFTER * (s.acks + s.credited + s.lost) + s.consumed + Held(s)
  }

  /** The cells' side: window units, and the bytes themselves. */
  predicate CellsOk(s: State) {
    && 0 <= s.peerWindow == STREAM_WINDOW_INITIAL + STREAM_WINDOW_INCREMENT * s.credited - |s.sent|
    && s.sent == s.received + s.flight
    && s.taken + s.buffer == Flatten(s.received)
  }

  ghost predicate SmallCells(parts: seq<bytes>) {
    forall p :: p in parts ==> |p| <= RELAY_PAYLOAD_LEN
  }

  lemma StepKeepsReader(s: State, e: Event)
    requires ReaderOk(s) && Enabled(s, e)
    ensures ReaderOk(Step(s, e))
  {
  }

  lemma StepKeepsCells(s: State, e: Event)
    requires CellsOk(s) && SmallCells(s.sent) && Enabled(s, e)
    ensures CellsOk(Step(s, e)) && SmallCells(Step(s, e).sent)
  {
    hide Flatten;
    match e
    case PeerSends(data) =>
      assert s.received + (s.flight + [data]) == (s.received + s.flight) + [data];
    case Receive =>
      FlattenAppend(s.received, [s.flight[0]]);
      FlattenOne(s.flight[0]);
      assert (s.taken + s.buffer) + s.flight[0] == s.taken + (s.buffer + s.flight[0]);
      assert (s.received + [s.flight[0]]) + s.flight[1..] == s.received + s.flight;
    case Take(n) =>
      assert (s.taken + s.buffer[..n]) + s.buffer[n..] == s.taken + s.buffer;
    case _ =>
  }

  lemma {:induction false} RunKeeps(states: seq<State>, events: seq<Event>, i: nat)
    requires Run(states, events) && i < |states|
    ensures ReaderOk(states[i]) && CellsOk(states[i]) && SmallCells(states[i].sent)
  {
    if i > 0 {
      RunKeeps(states, events, i - 1);
      StepKeepsReader(states[i - 1], events[i - 1]);
      StepKeepsCells(states[i - 1], events[i - 1]);
    }
  }

  /** The credit loop turned `k` times. */
  function EmitTimes(s: State, k: nat): State
    requires s.reader.Crediting? && s.consumed >= 24900 * k
    decreases k
  {
    assert SENDME_AFTER == 24900;
    if k == 0 then s else EmitTimes(Step(s, Emit), k - 1)
  }

  lemma {:induction false} EmitTimesAdds(s: State, k: nat)
    requires s.reader.Crediting? && s.consumed >= 24900 * k
    ensures EmitTimes(s, k) == s.(consumed := s.consumed - 24900 * k, acks := s.acks + k)
    decreases k
  {
    assert SENDME_AFTER == 24900;
    if k > 0 {
      EmitTimesAdds(Step(s, Emit), k - 1);
    }
  }

  /** Taken one after the other, the reader's steps are what `Streams.Stream.Recv` promises of the whole call. */
  lemma RecvIsItsSteps(s: State, n: nat)
    requires s.reader.Outside? && 0 <= s.consumed < SENDME_AFTER && n <= |s.buffer|
    ensures var total, counted := s.consumed + n, Step(Step(s, Take(n)), Count);
            && counted.consumed >= 24900 * Owed(total)
            && var credited := EmitTimes(counted, Owed(total));
               && Enabled(credited, Leave)
               && Step(credited, Leave)
                  == s.(buffer := s.buffer[n..], taken := s.taken + s.buffer[..n],
                        consumed := total % SENDME_AFTER, acks := s.acks + Owed(total))
  {
    var total, counted := s.consumed + n, Step(Step(s, Take(n)), Count);
    assert SENDME_AFTER == 24900;
    assert total == 24900 * Owed(total) + total % 24900;
    EmitTimesAdds(counted, Owed(total));
  }

  lemma {:induction false} FlattenBound(parts: seq<bytes>)
    requires SmallCells(parts)
    ensures |Flatten(parts)| <= RELAY_PAYLOAD_LEN * |parts|
    ensures (forall p :: p in parts ==> |p| == RELAY_PAYLOAD_LEN) ==> |Flatten(parts)| == RELAY_PAYLOAD_LEN * |parts|
  {
    if parts != [] {
      FlattenBound(parts[1..]);
    }
  }

  /**
   * The peer is never over-credited, so the receive buffer is bounded: fifty cells have arrived for every SENDME
   * emitted, the peer's window never exceeds its initial 500, and at most 500 * 498 bytes are ever buffered or on
   * their way.
   */
  lemma BufferBounded(states: seq<State>, events: seq<Event>, i: nat)
    requires Run(states, events) && i < |states|
    ensures var s := states[i];
            && STREAM_WINDOW_INCREMENT * (s.acks + s.credited + s.lost) <= |s.received|
            && 0 <= s.peerWindow <= STREAM_WINDOW_INITIAL
            && |s.buffer| + |Flatten(s.flight)| <= 249000
  {
    RunKeeps(states, events, i);
    var s := states[i];
    FlattenBound(s.received);
    FlattenBound(s.flight);
    var emitted := s.acks + s.credited + s.lost;
    assert SENDME_AFTER == 24900;
    assert |s.taken| + |s.buffer| == |Flatten(s.received)|;
    assert 24900 * emitted <= 498 * |s.received|;
  }

  /**
   * What `recv` has returned, followed by the buffer, is always what arrived; and that is a prefix of what was sent.
   */
  lemma DownloadFaithful(states: seq<State>, events: seq<Event>, i: nat)
    requires Run(states, events) && i < |states|
    ensures states[i].taken + states[i].buffer == Flatten(states[i].received)
    ensures states[i].taken + states[i].buffer + Flatten(states[i].flight) == Flatten(states[i].sent)
  {
    RunKeeps(states, events, i);
    FlattenAppend(states[i].received, states[i].flight);
  }

  /** With full cells, a drained buffer and nothing in flight, the peer may send at least 451 more. */
  lemma DrainedMeansOpen(states: seq<State>, events: seq<Event>, i: nat)
    requires Run(states, events) && i < |states|
    requires var s := states[i];
             && s.buffer == [] && s.flight == [] && s.reader.Outside? && s.acks == 0 && s.lost == 0
             && forall p :: p in s.sent ==> |p| == RELAY_PAYLOAD_LEN
    ensures states[i].peerWindow >= 451
  {
    RunKeeps(states, events, i);
    var s := states[i];
    FlattenBound(s.received);
    assert s.received == s.sent;
    assert SENDME_AFTER == 24900;
    assert 498 * |s.sent| == 24900 * s.credited + s.consumed;
  }
}
