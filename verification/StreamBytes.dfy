/**
 * Bytes end to end, outbound: several streams of one circuit send at once, each from one thread, and their cells
 * interleave in the order the circuit stamps them. Ids may be used again once a stream has ended.
 */
module StreamBytes {
  import opened Bytes
  import opened RelayCells
  import opened Sequences
  import opened Streams
  import OnionRuns

  type Handle = nat

  /**
   * One stream's sender: all it was ever given to send, and the chunks it has still to hand over. Its cells lie in the
   * log from `from` on, and before `upto` if another stream has been opened under its id since.
   */
  datatype Sender = Sender(id: u16, from: nat, upto: Option<nat>, given: bytes, remaining: seq<bytes>, broken: bool)

  /** `wire` logs what the circuit has stamped for its last hop; `current` is the latest stream under each id. */
  datatype State = State(senders: map<Handle, Sender>, current: map<u16, Handle>, wire: seq<Message>)

  datatype Event =
    | Open(h: Handle, id: u16)            // from now on an earlier stream with this id sends no more
    | StartSend(h: Handle, data: bytes)   // Stream.send is called
    | SendChunk(h: Handle)                // one turn of its loop
    | Break(h: Handle)                    // a wait times out or the stream is closed: the rest is never sent
    | Other(m: Message)                   // any cell that is not DATA

  const START := State(map[], map[], [])

  predicate Sending(s: State, h: Handle) {
    h in s.senders && s.senders[h].upto.None? && !s.senders[h].broken
  }

  predicate Enabled(s: State, e: Event) {
    match e
    case Open(h, _) => h !in s.senders
    case StartSend(h, _) => Sending(s, h) && s.senders[h].remaining == []
    case SendChunk(h) => Sending(s, h) && s.senders[h].remaining != []
    case Break(h) => h in s.senders
    case Other(m) => m.command != RELAY_DATA
  }

  /** The senders once `id` is given to another stream. */
  function Retired(s: State, id: u16): map<Handle, Sender> {
    if id in s.current && s.current[id] in s.senders
    then s.senders[s.current[id] := s.senders[s.current[id]].(upto := Some(|s.wire|))]
    else s.senders
  }

  function Step(s: State, e: Event): State
    requires Enabled(s, e)
  {
    match e
    case Open(h, id) =>
      State(Retired(s, id)[h := Sender(id, |s.wire|, None, [], [], false)], s.current[id := h], s.wire)
    case StartSend(h, data) =>
      var w := s.senders[h];
      s.(senders := s.senders[h := w.(given := w.given + data, remaining := Chunks(data))])
    case SendChunk(h) =>
      var w := s.senders[h];
      s.(senders := s.senders[h := w.(remaining := w.remaining[1..])],
         wire := s.wire + [Message(RELAY_DATA, w.id, w.remaining[0])])
    case Break(h) => s.(senders := s.senders[h := s.senders[h].(broken := true)])
    case Other(m) => s.(wire := s.wire + [m])
  }

  ghost predicate Run(states: seq<State>, events: seq<Event>) {
    && |states| == |events| + 1
    && states[0] == START
    && forall i :: 0 <= i < |events| ==> Enabled(states[i], events[i]) && states[i + 1] == Step(states[i], events[i])
  }

  /** Where a sender's cells end in the log. */
  function End(w: Sender, length: nat): nat {
    match w.upto case Some(n) => n case None => length
  }

  /** What lies between two places of a log that may not have got there yet. */
  function Between(log: seq<Message>, from: nat, upto: nat): seq<Message> {
    if from <= upto <= |log| then log[from..upto]
    else if from <= |log| then log[from..]
    else []
  }

  predicate SenderOk(w: Sender, wire: seq<Message>) {
    && w.from <= End(w, |wire|) <= |wire|
    && BytesOf(w.id, wire[w.from..End(w, |wire|)]) + Flatten(w.remaining) == w.given
  }

  ghost predicate Faithful(s: State) {
    && (forall h :: h in s.senders ==> SenderOk(s.senders[h], s.wire))
    && Indexed(s)
  }

  /** The senders that have not been retired are the current ones. */
  ghost predicate Indexed(s: State) {
    && (forall h :: h in s.senders && s.senders[h].upto.None? ==>
          s.senders[h].id in s.current && s.current[s.senders[h].id] == h)
    && (forall id :: id in s.current ==> s.current[id] in s.senders && s.senders[s.current[id]].id == id
                                         && s.senders[s.current[id]].upto.None?)
  }

  /** A cell that is not this sender's DATA, or comes after its end, changes nothing for it. */
  lemma OtherCell(w: Sender, wire: seq<Message>, m: Message)
    requires SenderOk(w, wire) && (w.upto.Some? || m.command != RELAY_DATA || m.streamId != w.id)
    ensures SenderOk(w, wire + [m])
  {
    hide BytesOf, Flatten;
    if w.upto.None? {
      var cells := wire[w.from..|wire|];
      assert (wire + [m])[w.from..|wire| + 1] == cells + [m];
      BytesOfSnoc(w.id, cells, m);
      assert BytesOf(w.id, cells) + [] == BytesOf(w.id, cells);
    } else {
      assert (wire + [m])[w.from..w.upto.value] == wire[w.from..w.upto.value];
    }
  }

  lemma OwnCell(w: Sender, wire: seq<Message>)
    requires SenderOk(w, wire) && w.upto.None? && w.remaining != []
    ensures SenderOk(w.(remaining := w.remaining[1..]), wire + [Message(RELAY_DATA, w.id, w.remaining[0])])
  {
    hide BytesOf;
    var m := Message(RELAY_DATA, w.id, w.remaining[0]);
    var cells := wire[w.from..|wire|];
    var before := BytesOf(w.id, cells);
    assert (wire + [m])[w.from..|wire| + 1] == cells + [m];
    BytesOfSnoc(w.id, cells, m);
    assert (before + w.remaining[0]) + Flatten(w.remaining[1..])
        == before + (w.remaining[0] + Flatten(w.remaining[1..]));
  }

  lemma StartOk(w: Sender, wire: seq<Message>, data: bytes)
    requires SenderOk(w, wire) && w.remaining == []
    ensures SenderOk(w.(given := w.given + data, remaining := Chunks(data)), wire)
  {
    FlattenNothing<byte>();
    hide BytesOf, Flatten, Chunks;
    ChunksFlatten(data);
    var before := BytesOf(w.id, wire[w.from..End(w, |wire|)]);
    assert before + [] == before;
  }

  lemma RetiredOk(w: Sender, wire: seq<Message>)
    requires SenderOk(w, wire) && w.upto.None?
    ensures SenderOk(w.(upto := Some(|wire|)), wire)
  {
  }

  lemma OpenedOk(id: u16, wire: seq<Message>)
    ensures SenderOk(Sender(id, |wire|, None, [], [], false), wire)
  {
    FlattenNothing<byte>();
    assert wire[|wire|..|wire|] == [];
  }

  lemma CellFaithful(s: State, e: Event)
    requires Faithful(s) && Enabled(s, e) && (e.SendChunk? || e.Other?)
    ensures Faithful(Step(s, e))
  {
    hide SenderOk;
    var s' := Step(s, e);
    forall h | h in s'.senders ensures SenderOk(s'.senders[h], s'.wire) {
      if e.SendChunk? && h == e.h {
        OwnCell(s.senders[h], s.wire);
      } else {
        OtherCell(s.senders[h], s.wire, s'.wire[|s.wire|]);
      }
    }
  }

  lemma OpenIndexed(s: State, h: Handle, id: u16)
    requires Indexed(s) && h !in s.senders
    ensures Indexed(Step(s, Open(h, id)))
  {
  }

  lemma OpenFaithful(s: State, h: Handle, id: u16)
    requires Faithful(s) && Enabled(s, Open(h, id))
    ensures Faithful(Step(s, Open(h, id)))
  {
    OpenIndexed(s, h, id);
    OpenedOk(id, s.wire);
    var s' := Step(s, Open(h, id));
    if id in s.current {
      RetiredOk(s.senders[s.current[id]], s.wire);
    }
    hide SenderOk, Indexed;
    forall k | k in s'.senders ensures SenderOk(s'.senders[k], s'.wire) {
      assert k == h || (id in s.current && k == s.current[id]) || s'.senders[k] == s.senders[k];
    }
  }

  /** A sender that goes on differently under the same id, with the same cells. */
  lemma ReplaceFaithful(s: State, h: Handle, w: Sender)
    requires Faithful(s) && h in s.senders && SenderOk(w, s.wire)
    requires w.id == s.senders[h].id && w.upto == s.senders[h].upto
    ensures Faithful(s.(senders := s.senders[h := w]))
  {
    hide SenderOk;
  }

  lemma StepFaithful(s: State, e: Event)
    requires Faithful(s) && Enabled(s, e)
    ensures Faithful(Step(s, e))
  {
    hide SenderOk, Faithful;
    match e
    case Open(h, id) => OpenFaithful(s, h, id);
    case StartSend(h, data) =>
      SendersOk(s, h);
      StartOk(s.senders[h], s.wire, data);
      ReplaceFaithful(s, h, Step(s, e).senders[h]);
    case Break(h) =>
      SendersOk(s, h);
      BrokenOk(s.senders[h], s.wire);
      ReplaceFaithful(s, h, Step(s, e).senders[h]);
    case _ => CellFaithful(s, e);
  }

  lemma SendersOk(s: State, h: Handle)
    requires Faithful(s) && h in s.senders
    ensures SenderOk(s.senders[h], s.wire)
  {
  }

  lemma BrokenOk(w: Sender, wire: seq<Message>)
    requires SenderOk(w, wire)
    ensures SenderOk(w.(broken := true), wire)
  {
  }

  lemma {:induction false} RunFaithful(states: seq<State>, events: seq<Event>, i: nat)
    requires Run(states, events) && i < |states|
    ensures Faithful(states[i])
  {
    if i > 0 {
      RunFaithful(states, events, i - 1);
      StepFaithful(states[i - 1], events[i - 1]);
    } else {
      hide SenderOk;
    }
  }

  lemma BetweenPrefix(got: seq<Message>, wire: seq<Message>, from: nat, upto: nat)
    requires got <= wire && from <= upto <= |wire|
    ensures Between(got, from, upto) <= wire[from..upto]
    ensures upto <= |got| ==> Between(got, from, upto) == wire[from..upto]
  {
  }

  /**
   * End-to-end byte fidelity. For any interleaving of streams, ids being used again or not, and any run of the
   * circuit that stamped those cells for hop `hop` without a false recognition: the payloads that the relay has
   * recognized for a stream, while the id was that stream's, are a prefix of what it was given, and all of it once
   * its sends have returned and everything stamped has been recognized.
   */
  lemma BytesEndToEnd(states: seq<State>, events: seq<Event>, i: nat,
                      circuit: seq<OnionRuns.State>, steps: seq<OnionRuns.Event>, k: nat, hop: nat, h: Handle)
    requires Run(states, events) && i < |states| && h in states[i].senders
    requires OnionRuns.Run(circuit, steps) && k < |circuit| && OnionRuns.Shaped(circuit[k]) && hop < |circuit[k].hops|
    requires circuit[k].fwd.sent[hop] == states[i].wire
    ensures var w, got := states[i].senders[h], circuit[k].fwd.got[hop];
            var arrived := BytesOf(w.id, Between(got, w.from, End(w, |states[i].wire|)));
            && arrived <= w.given
            && (w.remaining == [] && got == states[i].wire ==> arrived == w.given)
  {
    RunFaithful(states, events, i);
    OnionRuns.Synchrony(circuit, steps, k);
    var w, got, wire := states[i].senders[h], circuit[k].fwd.got[hop], states[i].wire;
    assert SenderOk(w, wire);
    BetweenPrefix(got, wire, w.from, End(w, |wire|));
    BytesOfPrefix(w.id, Between(got, w.from, End(w, |wire|)), wire[w.from..End(w, |wire|)]);
    FlattenNothing<byte>();
  }
}
