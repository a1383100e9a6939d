/**
 * Flow-control windows (`_net/flowcontrol.py`): the three locked counters of a circuit, each proved against a value
 * that the flow-control runs reuse as their step.
 */
module FlowControl {
  import opened Bytes
  import opened RelayCells

  const CIRCUIT_WINDOW_INITIAL := 1000
  const CIRCUIT_WINDOW_INCREMENT := 100
  const STREAM_WINDOW_INITIAL := 500
  const STREAM_WINDOW_INCREMENT := 50

  // --- package window -----------------------------------------------------------

  datatype Window = Window(value: int, closed: bool)

  /** What one look at the window does for a sender; a sender told to wait looks again when notified. */
  datatype Take = Taken | MustWait | WindowClosed

  function TakeOne(w: Window): (Window, Take) {
    if w.closed then (w, WindowClosed)
    else if w.value <= 0 then (w, MustWait)
    else (w.(value := w.value - 1), Taken)
  }

  class PackageWindow {
    var value: int
    const increment: int
    var closed: bool

    constructor (initial: int, increment: int)
      ensures this.increment == increment && View() == Window(initial, false)
    {
      this.value, this.increment, this.closed := initial, increment, false;
    }

    function View(): Window
      reads this
    {
      Window(value, closed)
    }

    /** One pass of the waiting loop, under the condition's lock. */
    method Consume() returns (r: Take)
      modifies this
      ensures (View(), r) == TakeOne(old(View()))
      ensures r.WindowClosed? <==> old(closed)
      ensures r.MustWait? <==> !old(closed) && old(value) <= 0
      ensures value == old(value) - (if r.Taken? then 1 else 0) && closed == old(closed)
    {
      if value <= 0 && !closed {
        return MustWait;
      }
      if closed {
        return WindowClosed;
      }
      value := value - 1;
      r := Taken;
    }

    method Refill()
      modifies this`value
      ensures View() == old(View()).(value := old(value) + increment)
    {
      value := value + increment;
    }

    method Close()
      modifies this`closed
      ensures View() == old(View()).(closed := true)
    {
      closed := true;
    }
  }

  // --- deliver counter ------------------------------------------------------------

  /** A counter's next value, and whether an acknowledgement falls due. */
  function Count(count: int, increment: int): (int, bool) {
    if count + 1 >= increment then (0, true) else (count + 1, false)
  }

  /** A counter after `n` cells from zero, and how many acknowledgements fell due. */
  function Counted(n: nat, increment: int): (int, nat) {
    if n == 0 then (0, 0)
    else
      var (count, dues) := Counted(n - 1, increment);
      var (count', due) := Count(count, increment);
      (count', dues + (if due then 1 else 0))
  }

  /** One acknowledgement for every full increment of cells, no more and no fewer. */
  lemma {:induction false} DueEveryIncrement(n: nat, increment: int)
    requires increment > 0
    ensures var (count, dues) := Counted(n, increment);
            0 <= count < increment && n == increment * dues + count
  {
    if n > 0 {
      DueEveryIncrement(n - 1, increment);
      var (_, dues) := Counted(n - 1, increment);
      assert increment * (dues + 1) == increment * dues + increment;
    }
  }

  class DeliverCounter {
    const increment: int
    var count: int

    constructor (increment: int)
      ensures this.increment == increment && count == 0
    {
      this.increment, count := increment, 0;
    }

    method NoteReceived() returns (due: bool)
      modifies this
      ensures (count, due) == Count(old(count), increment)
    {
      count := count + 1;
      if count >= increment {
        count := 0;
        return true;
      }
      due := false;
    }
  }

  // --- authenticated acknowledgements -----------------------------------------------

  datatype Tracker = Tracker(sent: int, expected: seq<bytes>)

  function First20(digest: bytes): (head: bytes)
    ensures head <= digest && |head| == if |digest| < SENDME_DIGEST_LEN then |digest| else SENDME_DIGEST_LEN
  {
    if |digest| <= SENDME_DIGEST_LEN then digest else digest[..SENDME_DIGEST_LEN]
  }

  function Noted(t: Tracker, increment: int, digest: bytes): Tracker {
    var (sent, due) := Count(t.sent, increment);
    Tracker(sent, if due then t.expected + [First20(digest)] else t.expected)
  }

  /** An acknowledgement consumes the oldest expectation, right or wrong. */
  function Checked(t: Tracker, digest: bytes): (Tracker, bool) {
    if t.expected == [] then (t, false)
    else (t.(expected := t.expected[1..]), t.expected[0] == First20(digest))
  }

  class SendmeTracker {
    const increment: int
    var sent: int
    var expected: seq<bytes>

    constructor (increment: int)
      ensures this.increment == increment && View() == Tracker(0, [])
    {
      this.increment, sent, expected := increment, 0, [];
    }

    function View(): Tracker
      reads this
    {
      Tracker(sent, expected)
    }

    method NoteSent(digest: bytes)
      modifies this
      ensures View() == Noted(old(View()), increment, digest)
    {
      sent := sent + 1;
      if sent >= increment {
        sent := 0;
        expected := expected + [First20(digest)];
      }
    }

    method Verify(digest: bytes) returns (ok: bool)
      modifies this
      ensures (View(), ok) == Checked(old(View()), digest)
    {
      if expected == [] {
        return false;
      }
      var oldest := expected[0];
      expected := expected[1..];
      ok := oldest == First20(digest);
    }
  }
}
