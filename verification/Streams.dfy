/** An application stream (`_net/stream.py`): chunked sending, buffered receiving, and byte-driven credit. */
module Streams {
  import opened Bytes
  import opened RelayCells
  import opened FlowControl
  import opened Sequences

  const RELAY_END: byte := 3
  const RELAY_CONNECTED: byte := 4

  /** A stream SENDME is worth 50 full cells of consumed bytes. */
  const SENDME_AFTER := STREAM_WINDOW_INCREMENT * RELAY_PAYLOAD_LEN

  // --- chunking ---------------------------------------------------------------------

  /** `data` cut every 498 bytes. */
  function Chunks(data: bytes): seq<bytes> {
    if data == [] then []
    else if |data| <= RELAY_PAYLOAD_LEN then [data]
    else [data[..RELAY_PAYLOAD_LEN]] + Chunks(data[RELAY_PAYLOAD_LEN..])
  }

  /** The chunks put back together are the data; each is a non-empty cell's worth, and only the last may be short. */
  lemma {:induction false} ChunksFlatten(data: bytes)
    ensures Flatten(Chunks(data)) == data
    ensures forall c :: c in Chunks(data) ==> 0 < |c| <= RELAY_PAYLOAD_LEN
    ensures forall i :: 0 <= i < |Chunks(data)| - 1 ==> |Chunks(data)[i]| == RELAY_PAYLOAD_LEN
    ensures RELAY_PAYLOAD_LEN * (|Chunks(data)| - 1) < |data| + (if data == [] then 1 else 0)
            <= RELAY_PAYLOAD_LEN * |Chunks(data)| + (if data == [] then 1 else 0)
  {
    if |data| > RELAY_PAYLOAD_LEN {
      ChunksFlatten(data[RELAY_PAYLOAD_LEN..]);
      assert data == data[..RELAY_PAYLOAD_LEN] + data[RELAY_PAYLOAD_LEN..];
      var rest := Chunks(data[RELAY_PAYLOAD_LEN..]);
      assert ([data[..RELAY_PAYLOAD_LEN]] + rest)[1..] == rest;
    } else if data != [] {
      assert Flatten([data]) == data + Flatten([data][1..]);
    }
  }

  lemma ChunksNone()
    ensures Chunks([]) == []
  {
  }

  lemma ChunksFrom(data: bytes, start: nat)
    requires start < |data|
    ensures var end := if start + RELAY_PAYLOAD_LEN < |data| then start + RELAY_PAYLOAD_LEN else |data|;
            Chunks(data[start..]) == [data[start..end]] + Chunks(data[end..])
  {
    if start + RELAY_PAYLOAD_LEN < |data| {
      assert data[start..][..RELAY_PAYLOAD_LEN] == data[start..start + RELAY_PAYLOAD_LEN];
      assert data[start..][RELAY_PAYLOAD_LEN..] == data[start + RELAY_PAYLOAD_LEN..];
    } else {
      assert data[start..|data|] == data[start..];
    }
  }

  /** The chunk that starts at `start` is the next of all the chunks. */
  lemma NextChunk(data: bytes, start: nat, all: seq<bytes>, n: nat)
    requires start < |data| && n <= |all| && Chunks(data[start..]) == all[n..]
    ensures n < |all|
    ensures var end := if start + RELAY_PAYLOAD_LEN < |data| then start + RELAY_PAYLOAD_LEN else |data|;
            all[n] == data[start..end] && Chunks(data[end..]) == all[n + 1..]
    ensures all[..n + 1] == all[..n] + [all[n]]
  {
    var end := if start + RELAY_PAYLOAD_LEN < |data| then start + RELAY_PAYLOAD_LEN else |data|;
    hide Chunks;
    ChunksFrom(data, start);
    assert all[n] == all[n..][0] == data[start..end];
    assert all[n + 1..] == all[n..][1..] == Chunks(data[end..]);
  }

  function DataCells(id: u16, parts: seq<bytes>): (cells: seq<Message>)
    ensures |cells| == |parts|
    ensures forall i :: 0 <= i < |cells| ==> cells[i] == Message(RELAY_DATA, id, parts[i])
  {
    seq(|parts|, i requires 0 <= i < |parts| => Message(RELAY_DATA, id, parts[i]))
  }

  lemma DataCellsSnoc(before: seq<Message>, id: u16, parts: seq<bytes>, part: bytes)
    ensures before + DataCells(id, parts + [part]) == before + DataCells(id, parts) + [Message(RELAY_DATA, id, part)]
  {
  }

  lemma DataCellsNone(id: u16)
    ensures DataCells(id, []) == []
  {
  }

  /** The bytes a stream carries in a log: its DATA payloads, in order. */
  function BytesOf(id: u16, log: seq<Message>): bytes {
    if log == [] then []
    else BytesOf(id, log[..|log| - 1])
         + (if log[|log| - 1].command == RELAY_DATA && log[|log| - 1].streamId == id then log[|log| - 1].data else [])
  }

  lemma {:induction false} BytesOfPrefix(id: u16, a: seq<Message>, b: seq<Message>)
    requires a <= b
    ensures BytesOf(id, a) <= BytesOf(id, b)
  {
    if |a| == |b| {
      assert a == b;
    } else {
      BytesOfPrefix(id, a, b[..|b| - 1]);
    }
  }

  lemma BytesOfSnoc(id: u16, log: seq<Message>, m: Message)
    ensures BytesOf(id, log + [m])
         == BytesOf(id, log) + (if m.command == RELAY_DATA && m.streamId == id then m.data else [])
  {
    assert (log + [m])[..|log|] == log;
  }

  /** How many SENDMEs a reader owes for bytes consumed, and what carries over. */
  function Owed(consumed: nat): nat {
    consumed / SENDME_AFTER
  }

  function Repeated(m: Message, n: nat): (r: seq<Message>)
    ensures |r| == n && forall i :: 0 <= i < n ==> r[i] == m
  {
    seq(n, _ => m)
  }

  lemma NoneYet()
    ensures (forall command :: !Has([], command)) && Credits([]) == 0 && forall id :: BytesOf(id, []) == []
  {
  }

  /** How one more message changes what a list of messages says. */
  lemma OneMore(log: seq<Message>, m: Message, reason: Option<byte>)
    ensures forall command :: Has(log + [m], command) == (Has(log, command) || m.command == command)
    ensures m.command == RELAY_END ==> LastReason(log + [m], Some(ReasonOf(m)))
    ensures m.command != RELAY_END && LastReason(log, reason) ==> LastReason(log + [m], reason)
    ensures Credits(log + [m]) == Credits(log) + if m.command == RELAY_SENDME then STREAM_WINDOW_INCREMENT else 0
  {
    var more := log + [m];
    assert more[..|log|] == log;
    assert forall x :: x in more <==> x in log || x == m;
    if m.command == RELAY_END {
      assert more[|log|].command == RELAY_END;
    } else if LastReason(log, reason) {
      var i :| 0 <= i < |log| && log[i].command == RELAY_END && reason == Some(ReasonOf(log[i]))
               && forall j :: i < j < |log| ==> log[j].command != RELAY_END;
      assert more[i].command == RELAY_END && forall j :: i < j < |more| ==> more[j].command != RELAY_END;
    }
  }

  lemma NoRepeats(m: Message)
    ensures Repeated(m, 0) == []
  {
  }

  lemma OneMoreRepeat(before: seq<Message>, m: Message, n: nat)
    ensures before + Repeated(m, n) + [m] == before + Repeated(m, n + 1)
  {
  }

  datatype Received = Data(data: bytes) | EndOfStream | Failed | NothingYet

  datatype OpenError = CircuitClosed | CannotSend | TimedOut | StreamFailed | Refused(reason: Option<byte>)

  datatype SendError = NoCredit | WindowShut | CircuitGone

  /** What happens to a sender before its next cell goes: units credited, the window closed, the circuit lost. */
  datatype Meanwhile = Meanwhile(credit: nat, closes: bool, dies: bool)

  /** The units credited before the `n`th cell. */
  function Credited(during: nat -> Meanwhile, n: nat): nat {
    if n == 0 then 0 else Credited(during, n - 1) + during(n - 1).credit
  }

  predicate Shut(w: Window, during: nat -> Meanwhile, n: nat) {
    w.closed || exists i: nat :: i < n && during(i).closes
  }

  /** What stops a sender that has sent `n` cells from sending another, if anything. */
  function Stopped(w: Window, during: nat -> Meanwhile, n: nat): Option<SendError> {
    if Shut(w, during, n + 1) then Some(WindowShut)
    else if w.value + Credited(during, n + 1) <= n then Some(NoCredit)
    else if during(n).dies then Some(CircuitGone)
    else None
  }

  lemma OneLook(w: Window, during: nat -> Meanwhile, n: nat)
    ensures Credited(during, 0) == 0 && Shut(w, during, 0) == w.closed
    ensures Credited(during, n + 1) == Credited(during, n) + during(n).credit
    ensures Shut(w, during, n + 1) == (Shut(w, during, n) || during(n).closes)
    ensures Stopped(w, during, n)
         == if Shut(w, during, n + 1) then Some(WindowShut)
            else if w.value + Credited(during, n + 1) <= n then Some(NoCredit)
            else if during(n).dies then Some(CircuitGone) else None
  {
  }

  /** The units that the SENDMEs among some messages are worth. */
  function Credits(log: seq<Message>): nat {
    if log == [] then 0
    else Credits(log[..|log| - 1]) + if log[|log| - 1].command == RELAY_SENDME then STREAM_WINDOW_INCREMENT else 0
  }

  predicate Has(log: seq<Message>, command: byte) {
    exists m :: m in log && m.command == command
  }

  /** The reason an END cell gives, which is 1 (misc) where it gives none. */
  function ReasonOf(m: Message): byte {
    if m.data == [] then 1 else m.data[0]
  }

  /** `reason` is that of the last END cell among some messages. */
  predicate LastReason(log: seq<Message>, reason: Option<byte>) {
    exists i :: 0 <= i < |log| && log[i].command == RELAY_END && reason == Some(ReasonOf(log[i]))
                && forall j :: i < j < |log| ==> log[j].command != RELAY_END
  }

  /** How much `buffer[:maxBytes]` holds: a negative bound counts from the end. */
  function SliceEnd(length: nat, maxBytes: int): (k: nat)
    ensures maxBytes >= 0 ==> k == if length <= maxBytes then length else maxBytes
    ensures maxBytes < 0 ==> k == if length <= -maxBytes then 0 else length - -maxBytes
  {
    if maxBytes >= length then length
    else if maxBytes >= 0 then maxBytes
    else if length + maxBytes >= 0 then length + maxBytes
    else 0
  }

  /**
   * `outbox` is what the stream has handed to its circuit, in order; `registered` says whether the circuit still has it
   * under its id.
   */
  class Stream {
    const streamId: u16
    var registered: bool
    var buffer: bytes
    var connected: bool
    var eof: bool
    var closed: bool
    var failed: bool
    var endReason: Option<byte>
    var window: Window
    var consumedSinceSendme: nat
    var outbox: seq<Message>

    constructor (streamId: u16)
      ensures this.streamId == streamId && buffer == [] && outbox == [] && consumedSinceSendme == 0
      ensures !registered && !connected && !eof && !closed && !failed && window == Window(STREAM_WINDOW_INITIAL, false)
    {
      this.streamId, buffer, outbox, consumedSinceSendme := streamId, [], [], 0;
      registered, connected, eof, closed, failed, endReason := false, false, false, false, false, None;
      window := Window(STREAM_WINDOW_INITIAL, false);
    }

    /** A unit of the window, once `now` has happened. */
    method TakeUnit(now: Meanwhile) returns (refused: Option<SendError>)
      modifies this`window
      ensures window.closed == (old(window.closed) || now.closes)
      ensures window.value == old(window.value) + now.credit - (if refused == None then 1 else 0)
      ensures refused == if window.closed then Some(WindowShut)
                         else if old(window.value) + now.credit <= 0 then Some(NoCredit) else None
    {
      var (taken, take) := TakeOne(Window(window.value + now.credit, window.closed || now.closes));
      window := taken;
      refused := match take case Taken => None case MustWait => Some(NoCredit) case WindowClosed => Some(WindowShut);
    }

    /**
     * Sends the chunks in order, each after taking a unit of the stream window, until all are sent or the next cannot
     * be; `sent` counts them, and `during` is what other threads and the peer do in the meantime.
     */
    method Send(data: bytes, during: nat -> Meanwhile) returns (r: Result<(), SendError>, ghost sent: nat)
      modifies this`window, this`outbox
      ensures sent <= |Chunks(data)| && outbox == old(outbox) + DataCells(streamId, Chunks(data)[..sent])
      ensures r.Ok? <==> sent == |Chunks(data)|
      ensures forall n: nat :: n < sent ==> Stopped(old(window), during, n) == None
      ensures r.Err? ==> Stopped(old(window), during, sent) == Some(r.error)
      ensures var looks := if r.Ok? then sent else sent + 1;
              && window.closed == Shut(old(window), during, looks)
              && window.value == old(window.value) + Credited(during, looks)
                                 - (if r == Err(CircuitGone) then looks else sent)
    {
      var start := 0;
      sent := 0;
      ghost var all := Chunks(data);
      hide Chunks;
      assert data[0..] == data;
      ChunksNone();
      hide Shut, Credited, DataCells, Stopped;
      OneLook(window, during, 0);
      DataCellsNone(streamId);
      assert all[..0] == [] && all[0..] == all;
      var looks := 0;
      while start < |data|
        invariant 0 <= start <= |data| && sent == looks <= |all| && Chunks(data[start..]) == all[sent..]
        invariant outbox == old(outbox) + DataCells(streamId, all[..sent])
        invariant window.value == old(window.value) + Credited(during, sent) - sent
        invariant window.closed == Shut(old(window), during, sent)
        invariant forall n: nat :: n < sent ==> Stopped(old(window), during, n) == None
      {
        var end := if start + RELAY_PAYLOAD_LEN < |data| then start + RELAY_PAYLOAD_LEN else |data|;
        var chunk := data[start..end];
        NextChunk(data, start, all, sent);
        OneLook(old(window), during, looks);
        var refused := TakeUnit(during(looks));
        if refused.Some? {
          return Err(refused.value), sent;
        }
        if during(looks).dies {
          return Err(CircuitGone), sent;
        }
        looks := looks + 1;
        outbox := outbox + [Message(RELAY_DATA, streamId, chunk)];
        DataCellsSnoc(old(outbox), streamId, all[..sent], chunk);
        sent := sent + 1;
        start := end;
      }
      assert data[start..] == [] && all[..sent] == all;
      r := Ok(());
    }

    /**
     * Takes buffered bytes from the front and credits the peer for what was consumed: one SENDME per 24900 bytes,
     * carrying the remainder over.
     */
    method Recv(maxBytes: int) returns (r: Received)
      requires consumedSinceSendme < SENDME_AFTER
      modifies this`buffer, this`consumedSinceSendme, this`outbox
      ensures old(buffer) != [] ==>
                r.Data? && old(buffer) == r.data + buffer && |r.data| == SliceEnd(|old(buffer)|, maxBytes)
      ensures old(buffer) == [] ==>
                buffer == [] && r == (if failed then Failed else if eof then EndOfStream else NothingYet)
      ensures var consumed := old(consumedSinceSendme) + (if r.Data? then |r.data| else 0);
              && consumedSinceSendme == consumed % SENDME_AFTER
              && outbox == old(outbox) + Repeated(Message(RELAY_SENDME, streamId, []), Owed(consumed))
    {
      if buffer == [] {
        return if failed then Failed else if eof then EndOfStream else NothingYet;
      }
      var k := SliceEnd(|buffer|, maxBytes);
      assert buffer == buffer[..k] + buffer[k..];
      r := Data(buffer[..k]);
      buffer := buffer[k..];
      consumedSinceSendme := consumedSinceSendme + |r.data|;
      ghost var consumed, emitted := consumedSinceSendme, 0;
      hide Repeated;
      NoRepeats(Message(RELAY_SENDME, streamId, []));
      while consumedSinceSendme >= SENDME_AFTER
        invariant buffer == old(buffer)[k..] && consumed == consumedSinceSendme + emitted * SENDME_AFTER
        invariant outbox == old(outbox) + Repeated(Message(RELAY_SENDME, streamId, []), emitted)
      {
        consumedSinceSendme := consumedSinceSendme - SENDME_AFTER;
        outbox := outbox + [Message(RELAY_SENDME, streamId, [])];
        OneMoreRepeat(old(outbox), Message(RELAY_SENDME, streamId, []), emitted);
        emitted := emitted + 1;
      }
    }

    /** Some messages arriving one after the other. */
    method HandleAll(arrived: seq<Message>)
      requires forall m :: m in arrived ==> m.streamId == streamId
      modifies this`buffer, this`connected, this`eof, this`endReason, this`window
      ensures connected == (old(connected) || Has(arrived, RELAY_CONNECTED))
      ensures eof == (old(eof) || Has(arrived, RELAY_END))
      ensures if Has(arrived, RELAY_END) then LastReason(arrived, endReason) else endReason == old(endReason)
      ensures buffer == old(buffer) + BytesOf(streamId, arrived)
      ensures window == Window(old(window.value) + Credits(arrived), old(window.closed))
    {
      hide Has, LastReason, Credits, BytesOf, ReasonOf;
      var i := 0;
      assert arrived[..0] == [];
      NoneYet();
      while i < |arrived|
        invariant 0 <= i <= |arrived|
        invariant connected == (old(connected) || Has(arrived[..i], RELAY_CONNECTED))
        invariant eof == (old(eof) || Has(arrived[..i], RELAY_END))
        invariant if Has(arrived[..i], RELAY_END) then LastReason(arrived[..i], endReason)
                  else endReason == old(endReason)
        invariant buffer == old(buffer) + BytesOf(streamId, arrived[..i])
        invariant window == Window(old(window.value) + Credits(arrived[..i]), old(window.closed))
      {
        assert arrived[..i + 1] == arrived[..i] + [arrived[i]] && arrived[i] in arrived;
        BytesOfSnoc(streamId, arrived[..i], arrived[i]);
        OneMore(arrived[..i], arrived[i], endReason);
        HandleRelay(arrived[i]);
        i := i + 1;
      }
      assert arrived[..i] == arrived;
    }

    /**
     * Registers, sends BEGIN if the circuit takes it, and waits. By the end of the wait the messages `arrived` have
     * been handled, and after them the circuit may have died. An opening that fails leaves no registration behind.
     */
    method Open(begin: Message, circuitOpen: bool, takes: bool, arrived: seq<Message>, dies: bool)
      returns (r: Result<(), OpenError>)
      requires forall m :: m in arrived ==> m.streamId == streamId
      modifies this`registered, this`outbox, this`buffer, this`window
      modifies this`connected, this`eof, this`failed, this`endReason
      ensures outbox == if circuitOpen && takes then old(outbox) + [begin] else old(outbox)
      ensures registered == if circuitOpen then r.Ok? else old(registered)
      ensures !circuitOpen ==> r == Err(CircuitClosed)
      ensures circuitOpen && !takes ==> r == Err(CannotSend)
      ensures var seen, lost := if circuitOpen && takes then arrived else [], circuitOpen && takes && dies;
              && connected == (old(connected) || Has(seen, RELAY_CONNECTED))
              && eof == (old(eof) || lost || Has(seen, RELAY_END))
              && failed == (old(failed) || lost)
              && buffer == old(buffer) + BytesOf(streamId, seen)
              && window == Window(old(window.value) + Credits(seen), old(window.closed) || lost)
              && (if Has(seen, RELAY_END) then LastReason(seen, endReason) else endReason == old(endReason))
      ensures circuitOpen && takes ==>
                r == if failed then Err(StreamFailed) else if connected then Ok(())
                else if eof then Err(Refused(endReason)) else Err(TimedOut)
    {
      hide Has, LastReason, Credits, BytesOf;
      NoneYet();
      if !circuitOpen {
        return Err(CircuitClosed);
      }
      registered := true;
      if !takes {
        registered := false;
        return Err(CannotSend);
      }
      outbox := outbox + [begin];
      HandleAll(arrived);
      if dies {
        OnCircuitClosed();
      }
      if !connected && !eof && !failed {
        registered := false;
        return Err(TimedOut);
      }
      if failed {
        registered := false;
        return Err(StreamFailed);
      }
      if !connected {
        registered := false;
        return Err(Refused(endReason));
      }
      r := Ok(());
    }

    /** Ends the stream once: an END cell unless the peer ended it first, no more sending, and no registration. */
    method Close()
      modifies this`closed, this`eof, this`window, this`outbox, this`registered
      ensures closed
      ensures old(closed) ==>
                eof == old(eof) && window == old(window) && outbox == old(outbox) && registered == old(registered)
      ensures !old(closed) ==> eof && window == old(window).(closed := true) && !registered
                               && outbox == old(outbox) + (if old(eof) then [] else [Message(RELAY_END, streamId, [6])])
    {
      if closed {
        return;
      }
      closed := true;
      var sendEnd := !eof;
      eof := true;
      if sendEnd {
        outbox := outbox + [Message(RELAY_END, streamId, [6])];
      }
      window := window.(closed := true);
      registered := false;
    }

    /** What arrives for the stream: DATA is appended to the buffer, and nothing else touches it. */
    method HandleRelay(cell: Message)
      modifies this`buffer, this`connected, this`eof, this`endReason, this`window
      ensures buffer == if cell.command == RELAY_DATA then old(buffer) + cell.data else old(buffer)
      ensures connected == (old(connected) || cell.command == RELAY_CONNECTED)
      ensures eof == (old(eof) || cell.command == RELAY_END)
      ensures endReason == if cell.command == RELAY_END then Some(ReasonOf(cell)) else old(endReason)
      ensures cell.command == RELAY_END ==> endReason == Some(if cell.data == [] then 1 else cell.data[0])
      ensures window == if cell.command == RELAY_SENDME
                        then old(window).(value := old(window.value) + STREAM_WINDOW_INCREMENT) else old(window)
    {
      if cell.command == RELAY_CONNECTED {
        connected := true;
      } else if cell.command == RELAY_DATA {
        buffer := buffer + cell.data;
      } else if cell.command == RELAY_END {
        eof := true;
        endReason := Some(if cell.data == [] then 1 else cell.data[0]);
      } else if cell.command == RELAY_SENDME {
        window := window.(value := window.value + STREAM_WINDOW_INCREMENT);
      }
    }

    method OnCircuitClosed()
      modifies this`failed, this`eof, this`window
      ensures failed && eof && window == old(window).(closed := true)
    {
      failed, eof := true, true;
      window := window.(closed := true);
    }
  }
}
