/** The channel's circuit registry and its circuit-id allocator (`_net/channel.py`). */
module Channels {
  import opened Bytes
  import opened FiniteSets

  /** Half of the 32-bit id space: a client originates ids with the top bit set. */
  const CIRCID_MSB: u32 := 0x8000_0000

  type Counter = n: nat | n < 0x8000_0000

  datatype ChannelError = NoFreeIds | ChannelClosed | AlreadyRegistered

  /** The counter after `steps` increments, wrapping at 31 bits. */
  function Advance(c: Counter, steps: nat): Counter {
    (c + steps) % CIRCID_MSB
  }

  function IdOf(c: Counter): u32 {
    c + CIRCID_MSB
  }

  lemma AdvanceOne(c: Counter, steps: nat)
    ensures Advance(Advance(c, steps), 1) == Advance(c, steps + 1)
  {
  }

  /** Fewer than 2^31 steps apart, two positions of the counter differ. */
  lemma AdvanceDistinct(c: Counter, a: nat, b: nat)
    requires a < b < a + CIRCID_MSB
    ensures Advance(c, a) != Advance(c, b)
  {
  }

  /** The ids the allocator looks at in its first `n` steps. */
  function Tried(c: Counter, n: nat): set<u32> {
    set k | 1 <= k <= n :: IdOf(Advance(c, k))
  }

  lemma {:induction false} TriedCount(c: Counter, n: nat)
    requires n < CIRCID_MSB
    ensures |Tried(c, n)| == n
  {
    if n == 0 {
      assert Tried(c, 0) == {};
    } else {
      TriedCount(c, n - 1);
      var last := IdOf(Advance(c, n));
      assert Tried(c, n) == Tried(c, n - 1) + {last};
      forall k | 1 <= k <= n - 1 ensures IdOf(Advance(c, k)) != last {
        AdvanceDistinct(c, k, n);
      }
    }
  }

  /** Client ids that are in use. */
  function InUse(sinks: map<u32, nat>): set<u32> {
    set id | id in sinks && id >= CIRCID_MSB
  }

  class Channel {
    var sinks: map<u32, nat>     // circuit id to circuit
    var closing: bool
    var nextCircId: Counter

    constructor ()
      ensures sinks == map[] && !closing && nextCircId == 0
    {
      sinks, closing, nextCircId := map[], false, 0;
    }

    /**
     * Succeeds whenever fewer than 2^31 - 1 client ids are in use, with an unused id that has its top bit set: the
     * first unused one after the counter's position. It fails exactly when every id but the counter's own is in use.
     */
    method NewCircuitId() returns (r: Result<u32, ChannelError>, ghost steps: nat)
      modifies this`nextCircId
      ensures 1 <= steps < CIRCID_MSB && nextCircId == Advance(old(nextCircId), steps)
      ensures nextCircId == (old(nextCircId) + steps) % 0x8000_0000
      ensures r.Ok? ==> r.value == 0x8000_0000 + nextCircId
      ensures r.Ok? ==> r.value == IdOf(nextCircId) && r.value !in sinks && r.value >= CIRCID_MSB
                        && Tried(old(nextCircId), steps - 1) <= InUse(sinks)
      ensures r.Err? <==> Tried(old(nextCircId), CIRCID_MSB - 1) <= InUse(sinks)
      ensures |InUse(sinks)| < CIRCID_MSB - 1 ==> r.Ok?
    {
      steps := 0;
      ghost var start := nextCircId;
      for i := 0 to 0x7FFF_FFFF
        invariant steps == i && nextCircId == Advance(start, steps)
        invariant Tried(start, steps) <= InUse(sinks)
      {
        AdvanceOne(start, steps);
        nextCircId := (nextCircId + 1) % 0x8000_0000;
        steps := steps + 1;
        var circId := nextCircId + CIRCID_MSB;
        assert Tried(start, steps) == Tried(start, steps - 1) + {IdOf(nextCircId)};
        if circId !in sinks {
          assert circId in Tried(start, CIRCID_MSB - 1);
          return Ok(circId), steps;
        }
      }
      Crowded(start, InUse(sinks));
      return Err(NoFreeIds), steps;
    }

    method Register(circId: u32, sink: nat) returns (r: Result<(), ChannelError>)
      modifies this`sinks
      ensures r == if closing then Err(ChannelClosed) else if circId in old(sinks) then Err(AlreadyRegistered)
          else Ok(())
      ensures sinks == if r.Ok? then old(sinks)[circId := sink] else old(sinks)
    {
      if closing {
        return Err(ChannelClosed);
      }
      if circId in sinks {
        return Err(AlreadyRegistered);
      }
      sinks := sinks[circId := sink];
      r := Ok(());
    }

    method Unregister(circId: u32)
      modifies this`sinks
      ensures sinks == old(sinks) - {circId}
    {
      sinks := sinks - {circId};
    }

    /** The locked section of the receiver's shutdown; the circuits it returns are notified afterwards. */
    method TakeSinks() returns (taken: map<u32, nat>)
      modifies this`sinks, this`closing
      ensures taken == old(sinks) && sinks == map[] && closing
    {
      taken := sinks;
      sinks := map[];
      closing := true;
    }
  }

  /** If every id but the counter's own was found in use, at least 2^31 - 1 are. */
  lemma Crowded(c: Counter, used: set<u32>)
    requires Tried(c, CIRCID_MSB - 1) <= used
    ensures |used| >= CIRCID_MSB - 1
  {
    TriedCount(c, CIRCID_MSB - 1);
    SubsetCount(Tried(c, CIRCID_MSB - 1), used);
  }

  // --- allocation histories ---------------------------------------------------------

  function Sum(ns: seq<nat>): nat {
    if ns == [] then 0 else Sum(ns[..|ns| - 1]) + ns[|ns| - 1]
  }

  /** The id handed out by allocation `i`, when allocation `k` advanced the counter by `steps[k]`. */
  function Allocated(c: Counter, steps: seq<nat>, i: nat): u32
    requires i < |steps|
  {
    IdOf(Advance(c, Sum(steps[..i + 1])))
  }

  lemma {:induction false} SumGrows(steps: seq<nat>, i: nat, j: nat)
    requires i < j <= |steps|
    requires forall k :: 0 <= k < |steps| ==> steps[k] >= 1
    ensures Sum(steps[..i]) < Sum(steps[..j])
  {
    assert steps[..j][..j - 1] == steps[..j - 1];
    if i < j - 1 {
      SumGrows(steps, i, j - 1);
    }
  }

  /** Allocations that advance the counter by fewer than 2^31 positions in all never repeat an id, in use or not. */
  lemma IdsDoNotRepeat(c: Counter, steps: seq<nat>, i: nat, j: nat)
    requires i < j < |steps|
    requires forall k :: 0 <= k < |steps| ==> steps[k] >= 1
    requires Sum(steps) < CIRCID_MSB
    ensures Allocated(c, steps, i) != Allocated(c, steps, j)
  {
    SumGrows(steps, i + 1, j + 1);
    assert steps[..|steps|] == steps;
    if j + 1 < |steps| {
      SumGrows(steps, j + 1, |steps|);
    }
    AdvanceDistinct(c, Sum(steps[..i + 1]), Sum(steps[..j + 1]));
  }

  /** The bound is exact: one full turn of the counter hands the same id out again. */
  lemma FullTurnRepeats(c: Counter, steps: seq<nat>, i: nat, j: nat)
    requires i < j < |steps|
    requires Sum(steps[..j + 1]) == Sum(steps[..i + 1]) + CIRCID_MSB
    ensures Allocated(c, steps, i) == Allocated(c, steps, j)
  {
    var a := c + Sum(steps[..i + 1]);
    assert (a + CIRCID_MSB) % CIRCID_MSB == a % CIRCID_MSB;
  }
}
