/**
 * The registry of directory tunnels that all clients of a process share (`_client/bootstrap.py`), and the clients that
 * install into it and close in any order (`_client/torclient.py`).
 */
module TunnelRegistry {
  import opened Bytes

  type Tunnel = nat

  /** The list without the first occurrence of `f`. */
  function Without(s: seq<Tunnel>, f: Tunnel): seq<Tunnel> {
    if s == [] then [] else if s[0] == f then s[1..] else [s[0]] + Without(s[1..], f)
  }

  function Newest(s: seq<Tunnel>): Option<Tunnel> {
    if s == [] then None else Some(s[|s| - 1])
  }

  lemma {:induction false} WithoutAt(s: seq<Tunnel>, f: Tunnel, k: nat)
    requires k < |s| && s[k] == f && f !in s[..k]
    ensures Without(s, f) == s[..k] + s[k + 1..]
  {
    if k > 0 {
      assert s[0] in s[..k];
      assert f !in s[1..][..k - 1] by {
        forall i | 0 <= i < k - 1 ensures s[1..][i] != f { assert s[1..][i] == s[..k][i + 1]; }
      }
      WithoutAt(s[1..], f, k - 1);
    }
  }

  lemma {:induction false} WithoutAbsent(s: seq<Tunnel>, f: Tunnel)
    requires f !in s
    ensures Without(s, f) == s
  {
    if s != [] {
      WithoutAbsent(s[1..], f);
    }
  }

  class LiveDirectory {
    var dirTunnels: seq<Tunnel>
    var dirTunnel: Option<Tunnel>

    constructor ()
      ensures dirTunnels == [] && dirTunnel == None
    {
      dirTunnels, dirTunnel := [], None;
    }

    method InstallDirTunnel(fetch: Tunnel)
      modifies this
      ensures dirTunnels == old(dirTunnels) + [fetch] && dirTunnel == Newest(dirTunnels) == Some(fetch)
    {
      dirTunnels := dirTunnels + [fetch];
      dirTunnel := Some(dirTunnels[|dirTunnels| - 1]);
    }

    method RestoreDirTunnel(fetch: Tunnel)
      modifies this
      ensures dirTunnels == Without(old(dirTunnels), fetch) && dirTunnel == Newest(dirTunnels)
      ensures fetch !in old(dirTunnels) ==> dirTunnels == old(dirTunnels)
      ensures forall k ::
                0 <= k < |old(dirTunnels)| && old(dirTunnels)[k] == fetch && fetch !in old(dirTunnels)[..k] ==>
                dirTunnels == old(dirTunnels)[..k] + old(dirTunnels)[k + 1..]
      ensures dirTunnels != [] ==> dirTunnel == Some(dirTunnels[|dirTunnels| - 1])
      ensures dirTunnels == [] ==> dirTunnel == None
    {
      var index := 0;
      while index < |dirTunnels|
        invariant 0 <= index <= |dirTunnels| && dirTunnels == old(dirTunnels)
        invariant fetch !in dirTunnels[..index]
      {
        if dirTunnels[index] == fetch {
          WithoutAt(dirTunnels, fetch, index);
          dirTunnels := dirTunnels[..index] + dirTunnels[index + 1..];
          break;
        }
        index := index + 1;
      }
      if fetch !in old(dirTunnels) {
        WithoutAbsent(old(dirTunnels), fetch);
      }
      forall k | 0 <= k < |old(dirTunnels)| && old(dirTunnels)[k] == fetch && fetch !in old(dirTunnels)[..k]
        ensures dirTunnels == old(dirTunnels)[..k] + old(dirTunnels)[k + 1..]
      {
        WithoutAt(old(dirTunnels), fetch, k);
      }
      dirTunnel := if dirTunnels != [] then Some(dirTunnels[|dirTunnels| - 1]) else None;
    }
  }

  // --- clients ---------------------------------------------------------------------------

  /** A client builds at most one tunnel, while it is being bootstrapped. */
  datatype Stage =
    | Fresh                        // no tunnel yet
    | Holding(tunnel: Tunnel)      // built, not installed
    | Installed(tunnel: Tunnel)
    | Bare                         // never will have one
    | Leaving(tunnel: Tunnel)      // `close` has left its locked section, and has not yet restored
    | Gone

  datatype Client = Client(stage: Stage, closed: bool)

  /** `installs` logs every installation in order and `dropped` every restoration; nothing reads them. */
  datatype State = State(clients: map<nat, Client>, tunnels: seq<Tunnel>, active: Option<Tunnel>,
                         made: set<Tunnel>, installs: seq<Tunnel>, dropped: set<Tunnel>)

  const START := State(map[], [], None, {}, [], {})

  datatype Event =
    | New(c: nat)
    | Build(c: nat, f: Tunnel)
    | CannotBuild(c: nat)
    | Install(c: nat)    // under the client's lock, and within it the directory's
    | Close(c: nat)      // the locked section of close
    | Restore(c: nat)    // the registry call that follows it

  predicate Enabled(s: State, e: Event) {
    match e
    case New(c) => c !in s.clients
    case Build(c, f) => c in s.clients && s.clients[c].stage.Fresh? && f !in s.made
    case CannotBuild(c) => c in s.clients && s.clients[c].stage.Fresh?
    case Install(c) => c in s.clients && s.clients[c].stage.Holding?
    case Close(c) => c in s.clients
    case Restore(c) => c in s.clients && s.clients[c].stage.Leaving?
  }

  function Step(s: State, e: Event): State
    requires Enabled(s, e)
  {
    match e
    case New(c) => s.(clients := s.clients[c := Client(Fresh, false)])
    case Build(c, f) =>
      s.(clients := s.clients[c := s.clients[c].(stage := Holding(f))], made := s.made + {f})
    case CannotBuild(c) => s.(clients := s.clients[c := s.clients[c].(stage := Bare)])
    case Install(c) =>
      var f := s.clients[c].stage.tunnel;
      if s.clients[c].closed then s.(clients := s.clients[c := s.clients[c].(stage := Bare)])
      else s.(clients := s.clients[c := s.clients[c].(stage := Installed(f))],
              tunnels := s.tunnels + [f], active := Some(f), installs := s.installs + [f])
    case Close(c) =>
      if s.clients[c].closed then s
      else if s.clients[c].stage.Installed?
      then s.(clients := s.clients[c := Client(Leaving(s.clients[c].stage.tunnel), true)])
      else s.(clients := s.clients[c := s.clients[c].(closed := true)])
    case Restore(c) =>
      var f := s.clients[c].stage.tunnel;
      var tunnels := Without(s.tunnels, f);
      s.(clients := s.clients[c := s.clients[c].(stage := Gone)], tunnels := tunnels, active := Newest(tunnels),
         dropped := s.dropped + {f})
  }

  ghost predicate Run(states: seq<State>, events: seq<Event>) {
    && |states| == |events| + 1
    && states[0] == START
    && forall i :: 0 <= i < |events| ==> Enabled(states[i], events[i]) && states[i + 1] == Step(states[i], events[i])
  }

  /** The installations not yet dropped, oldest first. */
  function Surviving(installs: seq<Tunnel>, dropped: set<Tunnel>): seq<Tunnel> {
    if installs == [] then []
    else Surviving(installs[..|installs| - 1], dropped)
         + (if installs[|installs| - 1] in dropped then [] else [installs[|installs| - 1]])
  }

  predicate NoRepeats(s: seq<Tunnel>) {
    forall i, j :: 0 <= i < j < |s| ==> s[i] != s[j]
  }

  /** The tunnel was installed and not dropped, and everything installed after it was dropped. */
  predicate IsNewest(installs: seq<Tunnel>, dropped: set<Tunnel>, f: Tunnel) {
    exists k :: 0 <= k < |installs| && installs[k] == f && f !in dropped
                && forall j :: k < j < |installs| ==> installs[j] in dropped
  }

  lemma {:induction false} NewestSurvivor(installs: seq<Tunnel>, dropped: set<Tunnel>, f: Tunnel)
    ensures Newest(Surviving(installs, dropped)) == Some(f) <==> IsNewest(installs, dropped, f)
  {
    if installs != [] {
      var rest, last := installs[..|installs| - 1], installs[|installs| - 1];
      NewestSurvivor(rest, dropped, f);
      if last !in dropped {
        assert installs[|installs| - 1] == last;
      } else {
        assert Surviving(installs, dropped) == Surviving(rest, dropped);
        assert forall k :: 0 <= k < |rest| ==> rest[k] == installs[k];
      }
    }
  }

  lemma {:induction false} SurvivingIn(installs: seq<Tunnel>, dropped: set<Tunnel>, f: Tunnel)
    ensures f in Surviving(installs, dropped) <==> f in installs && f !in dropped
  {
    if installs != [] {
      SurvivingIn(installs[..|installs| - 1], dropped, f);
      assert installs == installs[..|installs| - 1] + [installs[|installs| - 1]];
    }
  }

  lemma {:induction false} WithoutSnoc(s: seq<Tunnel>, x: Tunnel, f: Tunnel)
    ensures Without(s + [x], f) == if f in s then Without(s, f) + [x] else if x == f then s else s + [x]
  {
    if s != [] {
      assert (s + [x])[1..] == s[1..] + [x];
      assert s == [s[0]] + s[1..];
      WithoutSnoc(s[1..], x, f);
    }
  }

  /** Dropping one more survivor removes it from the list and leaves the rest in order. */
  lemma {:induction false} DropOne(installs: seq<Tunnel>, dropped: set<Tunnel>, f: Tunnel)
    requires NoRepeats(installs) && f in installs && f !in dropped
    ensures Surviving(installs, dropped + {f}) == Without(Surviving(installs, dropped), f)
  {
    var rest, last := installs[..|installs| - 1], installs[|installs| - 1];
    assert installs == rest + [last];
    SurvivingIn(rest, dropped, f);
    if last == f {
      assert f !in rest;
      DropAbsent(rest, dropped, f);
      WithoutSnoc(Surviving(rest, dropped), f, f);
    } else {
      assert f in rest;
      DropOne(rest, dropped, f);
      if last !in dropped {
        WithoutSnoc(Surviving(rest, dropped), last, f);
      } else {
        assert Surviving(installs, dropped) == Surviving(rest, dropped);
      }
    }
  }

  lemma {:induction false} DropAbsent(installs: seq<Tunnel>, dropped: set<Tunnel>, f: Tunnel)
    requires f !in installs
    ensures Surviving(installs, dropped + {f}) == Surviving(installs, dropped)
  {
    if installs != [] {
      DropAbsent(installs[..|installs| - 1], dropped, f);
    }
  }

  /** Which tunnel, if any, a client has in the registry. */
  function InRegistry(c: Client): Option<Tunnel> {
    match c.stage
    case Installed(f) => Some(f)
    case Leaving(f) => Some(f)
    case _ => None
  }

  /** Any tunnel a client has ever had in hand. */
  function Owns(c: Client): Option<Tunnel> {
    match c.stage case Holding(f) => Some(f) case _ => InRegistry(c)
  }

  /** The registry is what its history says it is. */
  ghost predicate Ledger(s: State) {
    && s.tunnels == Surviving(s.installs, s.dropped) && s.active == Newest(s.tunnels)
    && NoRepeats(s.installs)
    && (forall f :: f in s.dropped ==> f in s.installs)
    && (forall f :: f in s.installs ==> f in s.made)
  }

  /** What each client holds is its own, and is in the registry exactly while its stage says so. */
  ghost predicate Held(s: State) {
    && (forall c :: c in s.clients ==> HeldBy(s, s.clients[c]))
    && (forall c, d :: c in s.clients && d in s.clients && c != d && Owns(s.clients[c]).Some? ==>
          Owns(s.clients[d]) != Owns(s.clients[c]))
    && (forall f :: f in s.installs && f !in s.dropped ==>
          exists c :: c in s.clients && InRegistry(s.clients[c]) == Some(f))
  }

  predicate HeldBy(s: State, c: Client) {
    && (Owns(c).Some? ==> Owns(c).value in s.made)
    && (c.stage.Holding? ==> c.stage.tunnel !in s.installs)
    && (InRegistry(c).Some? ==> InRegistry(c).value in s.installs && InRegistry(c).value !in s.dropped)
    && (c.closed ==> !c.stage.Installed?)
    && (c.stage.Leaving? ==> c.closed)
  }

  ghost predicate Inv(s: State) {
    Ledger(s) && Held(s)
  }

  lemma SnocSurviving(installs: seq<Tunnel>, dropped: set<Tunnel>, f: Tunnel)
    requires f !in dropped
    ensures Surviving(installs + [f], dropped) == Surviving(installs, dropped) + [f]
  {
    assert (installs + [f])[..|installs|] == installs;
  }

  lemma SnocNoRepeats(installs: seq<Tunnel>, f: Tunnel)
    requires NoRepeats(installs) && f !in installs
    ensures NoRepeats(installs + [f])
  {
  }

  lemma InstallKeepsLedger(s: State, c: nat)
    requires Inv(s) && Enabled(s, Install(c)) && !s.clients[c].closed
    ensures Ledger(Step(s, Install(c)))
  {
    hide Surviving, NoRepeats;
    var f := s.clients[c].stage.tunnel;
    assert HeldBy(s, s.clients[c]) && Owns(s.clients[c]) == Some(f);
    SnocSurviving(s.installs, s.dropped, f);
    SnocNoRepeats(s.installs, f);
  }

  lemma InstallKeepsHeld(s: State, c: nat)
    requires Inv(s) && Enabled(s, Install(c)) && !s.clients[c].closed
    ensures Held(Step(s, Install(c)))
  {
    hide Surviving, NoRepeats, Newest;
    var t := Step(s, Install(c));
    var f := s.clients[c].stage.tunnel;
    assert HeldBy(s, s.clients[c]) && Owns(s.clients[c]) == Some(f);
    forall g | g in t.installs && g !in t.dropped
      ensures exists d :: d in t.clients && InRegistry(t.clients[d]) == Some(g)
    {
      if g == f {
        assert InRegistry(t.clients[c]) == Some(f);
      } else {
        var d :| d in s.clients && InRegistry(s.clients[d]) == Some(g);
        assert d != c && InRegistry(t.clients[d]) == Some(g);
      }
    }
    forall d | d in t.clients ensures HeldBy(t, t.clients[d]) {
      if d != c {
        assert HeldBy(s, s.clients[d]) && t.clients[d] == s.clients[d];
      }
    }
  }

  lemma RestoreKeepsLedger(s: State, c: nat)
    requires Inv(s) && Enabled(s, Restore(c))
    ensures Ledger(Step(s, Restore(c)))
  {
    assert HeldBy(s, s.clients[c]);
    DropOne(s.installs, s.dropped, s.clients[c].stage.tunnel);
  }

  lemma RestoreKeepsHeld(s: State, c: nat)
    requires Inv(s) && Enabled(s, Restore(c))
    ensures Held(Step(s, Restore(c)))
  {
    hide Surviving, NoRepeats, Newest, Without;
    var t := Step(s, Restore(c));
    var f := s.clients[c].stage.tunnel;
    assert InRegistry(s.clients[c]) == Some(f) == Owns(s.clients[c]);
    forall g | g in t.installs && g !in t.dropped
      ensures exists d :: d in t.clients && InRegistry(t.clients[d]) == Some(g)
    {
      var d :| d in s.clients && InRegistry(s.clients[d]) == Some(g);
      assert d != c && InRegistry(t.clients[d]) == Some(g);
    }
    forall d | d in t.clients ensures HeldBy(t, t.clients[d]) {
      if d != c {
        assert HeldBy(s, s.clients[d]) && t.clients[d] == s.clients[d];
        assert Owns(s.clients[d]) != Some(f);
      }
    }
  }

  /** A step that leaves the registry alone, moving only one client, which keeps its place in the registry. */
  lemma MovingOneKeepsInv(s: State, t: State, c: nat, next: Client)
    requires Inv(s)
    requires t == s.(clients := s.clients[c := next], made := t.made) && s.made <= t.made
    requires if c in s.clients then InRegistry(next) == InRegistry(s.clients[c]) else InRegistry(next) == None
    requires next.stage.Holding? ==>
      next.stage.tunnel in t.made
      && (next.stage.tunnel !in s.made || (c in s.clients && next.stage == s.clients[c].stage))
    requires next.closed ==> !next.stage.Installed?
    requires next.stage.Leaving? ==> next.closed
    ensures Inv(t)
  {
    hide Surviving, NoRepeats, Newest;
    if c in s.clients {
      assert HeldBy(s, s.clients[c]);
    }
    forall d | d in t.clients ensures HeldBy(t, t.clients[d]) {
      if d != c {
        assert HeldBy(s, s.clients[d]) && t.clients[d] == s.clients[d];
      }
    }
    forall g | g in t.installs && g !in t.dropped
      ensures exists d :: d in t.clients && InRegistry(t.clients[d]) == Some(g)
    {
      var d :| d in s.clients && InRegistry(s.clients[d]) == Some(g);
      assert InRegistry(t.clients[d]) == Some(g);
    }
  }

  lemma StepKeepsInv(s: State, e: Event)
    requires Inv(s) && Enabled(s, e)
    ensures Inv(Step(s, e))
  {
    hide Surviving, NoRepeats, Newest, Without;
    var t := Step(s, e);
    match e
    case New(c) => MovingOneKeepsInv(s, t, c, t.clients[c]);
    case Build(c, f) => MovingOneKeepsInv(s, t, c, t.clients[c]);
    case CannotBuild(c) => MovingOneKeepsInv(s, t, c, t.clients[c]);
    case Install(c) =>
      if s.clients[c].closed {
        MovingOneKeepsInv(s, t, c, t.clients[c]);
      } else {
        InstallKeepsLedger(s, c);
        InstallKeepsHeld(s, c);
      }
    case Close(c) =>
      if !s.clients[c].closed {
        MovingOneKeepsInv(s, t, c, t.clients[c]);
      }
    case Restore(c) =>
      RestoreKeepsLedger(s, c);
      RestoreKeepsHeld(s, c);
  }

  lemma {:induction false} RunKeepsInv(states: seq<State>, events: seq<Event>, i: nat)
    requires Run(states, events) && i < |states|
    ensures Inv(states[i])
  {
    if i > 0 {
      RunKeepsInv(states, events, i - 1);
      StepKeepsInv(states[i - 1], events[i - 1]);
    }
  }

  // --- what a reader relies on -----------------------------------------------------------

  /**
   * In every reachable state the directory fetches over the newest tunnel installed and not yet dropped, whatever the
   * order in which clients closed, and over none when all are dropped.
   */
  lemma ActiveIsNewest(states: seq<State>, events: seq<Event>, i: nat)
    requires Run(states, events) && i < |states|
    ensures forall f :: f in states[i].tunnels <==> f in states[i].installs && f !in states[i].dropped
    ensures forall f: Tunnel :: states[i].active == Some(f) <==> IsNewest(states[i].installs, states[i].dropped, f)
  {
    RunKeepsInv(states, events, i);
    forall f: Tunnel ensures states[i].active == Some(f) <==> IsNewest(states[i].installs, states[i].dropped, f) {
      NewestSurvivor(states[i].installs, states[i].dropped, f);
    }
    forall f ensures f in states[i].tunnels <==> f in states[i].installs && f !in states[i].dropped {
      SurvivingIn(states[i].installs, states[i].dropped, f);
    }
  }

  predicate HasLiveTunnel(c: Client) {
    c.stage.Installed? && !c.closed
  }

  /**
   * Unless some client is between the locked section of its `close` and its call to the registry, the active tunnel
   * belongs to a client that is not closed, and there is an active tunnel as soon as one such client has installed.
   */
  lemma NoDeadActiveTunnel(states: seq<State>, events: seq<Event>, i: nat)
    requires Run(states, events) && i < |states|
    requires forall c :: c in states[i].clients ==> !states[i].clients[c].stage.Leaving?
    ensures states[i].active.Some? ==>
      exists c :: c in states[i].clients && HasLiveTunnel(states[i].clients[c])
                  && states[i].clients[c].stage.tunnel == states[i].active.value
    ensures states[i].active.Some? <==> exists c :: c in states[i].clients && HasLiveTunnel(states[i].clients[c])
  {
    var s := states[i];
    RunKeepsInv(states, events, i);
    if s.active.Some? {
      var f := s.active.value;
      SurvivingIn(s.installs, s.dropped, f);
      var c :| c in s.clients && InRegistry(s.clients[c]) == Some(f);
      assert HeldBy(s, s.clients[c]);
      assert HasLiveTunnel(s.clients[c]);
    }
    forall c | c in s.clients && HasLiveTunnel(s.clients[c]) ensures s.active.Some? {
      assert HeldBy(s, s.clients[c]);
      SurvivingIn(s.installs, s.dropped, s.clients[c].stage.tunnel);
    }
  }

  /** A client past its registry call has left nothing behind: its tunnel is never again the active one. */
  lemma ClosedTunnelStaysOut(states: seq<State>, events: seq<Event>, i: nat, j: nat, f: Tunnel)
    requires Run(states, events) && i <= j < |states| && f in states[i].dropped
    ensures f !in states[j].tunnels && states[j].active != Some(f)
  {
    DroppedGrows(states, events, i, j);
    ActiveIsNewest(states, events, j);
    RunKeepsInv(states, events, j);
  }

  lemma {:induction false} DroppedGrows(states: seq<State>, events: seq<Event>, i: nat, j: nat)
    requires Run(states, events) && i <= j < |states|
    ensures states[i].dropped <= states[j].dropped
    decreases j
  {
    if i < j {
      DroppedGrows(states, events, i, j - 1);
      assert states[j] == Step(states[j - 1], events[j - 1]);
    }
  }
}
