/** What sending and receiving do to a circuit (`_net/circuit.py`), said field by field and byte by byte. */
module CircuitLaws {
  import opened Bytes
  import opened RelayCells
  import opened RelayCryptos
  import opened Onions
  import opened OnionLanes
  import opened FlowControl
  import opened Registries
  import opened Circuits

  /**
   * A destroyed circuit sends nothing, and neither does data that does not fit. Otherwise the last hop's history grows
   * by the cell, every hop's keystream moves by one body, and on an open channel that body goes out in the marking
   * asked for; every hundredth counted cell is remembered by the digest it left at the last hop.
   */
  lemma SendingMoves(v: Standing, cell: RelayCell, early: bool, countData: bool, ps: seq<Profile>, open: bool)
    requires v.forward != [] && |ps| == |v.forward| && (|cell.data| <= 498 ==> cell.WellFormed())
    ensures var last, v' := |ps| - 1, Sent(v, cell, early, countData, ps, open);
            if v.registry.destroyed || |cell.data| > 498 then v' == v
            else
              && v'.registry == v.registry && v'.window == v.window && v'.count == v.count && v'.answered == v.answered
              && |v'.forward| == |v.forward|
              && (forall k :: 0 <= k < |v.forward| ==>
                    && v'.forward[k].position == v.forward[k].position + 509
                    && v'.forward[k].history
                       == if k == last then v.forward[k].history + Absorbed(cell) else v.forward[k].history)
              && v'.wire == (if open then v.wire + [RelayBody(early, Wrapped(ps, v.forward, cell))] else v.wire)
              && (!countData ==> v'.tracker == v.tracker)
              && (countData && v.tracker.sent < 99 ==> v'.tracker == v.tracker.(sent := v.tracker.sent + 1))
              && (countData && v.tracker.sent >= 99 ==>
                    v'.tracker == Tracker(0, v.tracker.expected + [First20(ps[last].hash(v'.forward[last].history))]))
  {
    hide Wrapped, Absorbed, First20;
  }

  /** A circuit acknowledgement that names the oldest boundary still expected. */
  predicate Genuine(v: Standing, m: Message) {
    WellFormedSendme(m.data) && v.tracker.expected != [] && v.tracker.expected[0] == m.data[3..23]
  }

  /**
   * The authenticity of circuit acknowledgements. A genuine one answers the oldest boundary and adds exactly a hundred
   * units. Any other, malformed, early, forged or repeated, adds nothing and destroys the circuit: nobody is registered
   * any more, and the window is closed by whoever destroyed it first.
   */
  lemma OnlyGenuineCredits(v: Standing, m: Message, ack: RelayCell, ps: seq<Profile>, open: bool)
    requires v.forward != [] && |ps| == |v.forward| && ack.WellFormed()
    requires m.command == 5 && m.streamId == 0
    ensures var v' := Circuits.Received(v, m, ack, ps, open);
            if Genuine(v, m) then
              v' == v.(tracker := v.tracker.(expected := v.tracker.expected[1..]),
                       window := v.window.(value := v.window.value + 100))
            else
              && v'.registry.destroyed && v'.window.value == v.window.value
              && (!v.registry.destroyed ==> v'.window.closed && v'.registry.streams == map[] == v'.registry.control
                                            && v'.registry.build == None)
              && (v.registry.destroyed ==> v'.window == v.window && v'.registry == v.registry)
              && v'.answered == v.answered && v'.wire == v.wire && v'.forward == v.forward && v'.count == v.count
  {
    SendmeFormat(m.data);
  }

  /**
   * Who is given any other message: a build reply goes to the builder, who is then gone; a command somebody waits for
   * goes to that waiter, who is then gone; the rest goes to the stream registered under its id. Nobody else is given
   * anything, and nobody else's registration changes.
   */
  lemma ReceivedReaches(v: Standing, m: Message, ack: RelayCell, ps: seq<Profile>, open: bool)
    requires v.forward != [] && |ps| == |v.forward| && ack.WellFormed()
    requires !(m.command == 5 && m.streamId == 0)
    ensures var r, v' := v.registry, Circuits.Received(v, m, ack, ps, open);
            if m.command == 15 then
              && v'.registry == r.(build := None)
              && v'.answered == v.answered + (match r.build case Some(t) => [(t, m)] case None => [])
            else if m.command in r.control then
              && v'.registry == r.(control := r.control - {m.command})
              && v'.answered == v.answered + [(r.control[m.command], m)]
            else
              && v'.registry == r
              && v'.answered == v.answered + (if m.streamId in r.streams then [(r.streams[m.streamId], m)] else [])
    ensures var v' := Circuits.Received(v, m, ack, ps, open); v'.window == v.window && v'.tracker == v.tracker
    ensures m.command != 2 || m.command in v.registry.control ==>
              var v' := Circuits.Received(v, m, ack, ps, open);
              v'.count == v.count && v'.wire == v.wire && v'.forward == v.forward
  {
    hide Count, AfterSending, Wrapped, Layers;
  }

  /** Standings that follow one another as DATA cells arrive on a living circuit, `acks[i]` being what would be sent. */
  ghost predicate DataRun(vs: seq<Standing>, ms: seq<Message>, acks: seq<RelayCell>, ps: seq<Profile>) {
    && ps != [] && |vs| == |ms| + 1 == |acks| + 1
    && (forall i :: 0 <= i < |acks| ==> acks[i].WellFormed() && |acks[i].data| <= RELAY_PAYLOAD_LEN)
    && (forall i :: 0 <= i < |vs| ==> |vs[i].forward| == |ps|)
    && !vs[0].registry.destroyed && vs[0].count == 0 && 2 !in vs[0].registry.control
    && forall i :: 0 <= i < |ms| ==>
        ms[i].command == 2 && vs[i + 1] == Circuits.Received(vs[i], ms[i], acks[i], ps, true)
  }

  lemma OneMoreData(v: Standing, m: Message, ack: RelayCell, ps: seq<Profile>)
    requires v.forward != [] && |ps| == |v.forward| && ack.WellFormed() && m.command == 2
    requires !v.registry.destroyed && 2 !in v.registry.control && 0 <= v.count < 100
    ensures var v' := Circuits.Received(v, m, ack, ps, true);
            && v'.registry == v.registry && v'.count == (v.count + 1) % 100
            && v'.wire == (if v.count == 99 then v.wire + [RelayBody(false, Wrapped(ps, v.forward, ack))] else v.wire)
  {
    hide AfterSending, Wrapped, Layers;
  }

  /**
   * Every hundredth DATA cell, and no other, is acknowledged: by the cell due at that moment, wrapped as things then
   * stand.
   */
  lemma {:induction false} EveryHundredth(vs: seq<Standing>, ms: seq<Message>, acks: seq<RelayCell>, ps: seq<Profile>,
                                          n: nat)
    requires DataRun(vs, ms, acks, ps) && n < |vs|
    ensures vs[n].count == n % 100 && vs[n].registry == vs[0].registry
    ensures |vs[n].wire| == |vs[0].wire| + n / 100
    ensures n < |ms| ==>
              vs[n + 1].wire == if (n + 1) % 100 == 0
                                then vs[n].wire + [RelayBody(false, Wrapped(ps, vs[n].forward, acks[n]))]
                                else vs[n].wire
  {
    hide Circuits.Received, Wrapped;
    if n > 0 {
      EveryHundredth(vs, ms, acks, ps, n - 1);
      OneMoreData(vs[n - 1], ms[n - 1], acks[n - 1], ps);
    }
    if n < |ms| {
      OneMoreData(vs[n], ms[n], acks[n], ps);
    }
  }
}
