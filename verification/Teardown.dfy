/**
 * Teardown through the channel and circuit layers, under any interleaving of the locked sections of any number of
 * threads (`_net/channel.py`, `_net/circuit.py`).
 */
module Teardown {
  import opened Bytes
  import opened Registries

  /**
   * A circuit is handed out only after the channel has registered it. `telling` holds the notifications that whoever
   * tore it down has still to make, outside the lock.
   */
  datatype Circ = Circ(registry: Registry, attached: bool, telling: set<Token>)

  /** The receiver thread's shutdown: the circuits it took from the channel and has not yet notified. */
  datatype Receiver = Running | ShuttingDown(todo: set<u32>)

  /** Where a registration is; a history variable. */
  datatype Place = In(id: u32, slot: Slot) | Telling(id: u32) | Told | Removed

  datatype State = State(
    sinks: set<u32>, closing: bool, receiver: Receiver,
    circuits: map<u32, Circ>,
    told: multiset<Token>,
    place: map<Token, Place>)

  const START := State({}, false, Running, map[], multiset{}, map[])

  datatype Event =
    | Create(id: u32)                              // an id is allocated and a circuit constructed for it
    | Attach(id: u32)                              // Channel.register
    | Register(id: u32, slot: Slot, token: Token)  // register_stream, arm_relay, _arm_build_waiter
    | Remove(id: u32, slot: Slot)                  // unregister_stream, or a reply fires its waiter
    | TearDown(id: u32)                            // the locked section of Circuit._teardown
    | Tell(id: u32, token: Token)                  // on_circuit_closed, or set_error on a waiter
    | Detach(id: u32)                              // Channel.unregister, at the end of Circuit.close
    | SetClosing                                   // Channel.close
    | Shutdown                                     // the locked section of Channel._shutdown
    | Notify(id: u32)                              // on_channel_closed, from the receiver's shutdown

  /** `Create` takes an id that no earlier circuit had: see `Channels.IdsDoNotRepeat`. */
  predicate Enabled(s: State, e: Event) {
    match e
    case Create(id) => id !in s.circuits
    case Attach(id) => id in s.circuits && !s.circuits[id].attached
    case Register(id, _, t) => id in s.circuits && s.circuits[id].attached && t !in s.place
    case Remove(id, _) => id in s.circuits
    case TearDown(id) => id in s.circuits
    case Tell(id, t) => id in s.circuits && t in s.circuits[id].telling
    case Detach(id) => id in s.circuits && s.circuits[id].registry.destroyed
    case SetClosing => true
    case Shutdown => s.receiver.Running?
    case Notify(id) => s.receiver.ShuttingDown? && id in s.receiver.todo && id in s.circuits
  }

  function WithRegistry(s: State, id: u32, r: Registry): State
    requires id in s.circuits
  {
    s.(circuits := s.circuits[id := s.circuits[id].(registry := r)])
  }

  function Placed(place: map<Token, Place>, t: Option<Token>, p: Place): map<Token, Place> {
    match t case Some(u) => place[u := p] case None => place
  }

  function TearDownStep(s: State, id: u32): State
    requires id in s.circuits
  {
    var c := s.circuits[id];
    var (registry, tokens) := TornDown(c.registry);
    s.(circuits := s.circuits[id := c.(registry := registry, telling := c.telling + tokens)],
       place := map t | t in s.place.Keys + tokens :: if t in tokens then Telling(id) else s.place[t])
  }

  function Step(s: State, e: Event): State
    requires Enabled(s, e)
  {
    match e
    case Create(id) => s.(circuits := s.circuits[id := Circ(EMPTY_REGISTRY, false, {})])
    case Attach(id) =>
      if s.closing || id in s.sinks then s
      else s.(sinks := s.sinks + {id}, circuits := s.circuits[id := s.circuits[id].(attached := true)])
    case Register(id, slot, t) =>
      var r := s.circuits[id].registry;
      if r.destroyed then s
      else WithRegistry(s, id, Put(r, slot, t)).(place := Placed(s.place, At(r, slot), Removed)[t := In(id, slot)])
    case Remove(id, slot) =>
      var r := s.circuits[id].registry;
      WithRegistry(s, id, Drop(r, slot)).(place := Placed(s.place, At(r, slot), Removed))
    case TearDown(id) => TearDownStep(s, id)
    case Tell(id, t) =>
      var c := s.circuits[id];
      s.(circuits := s.circuits[id := c.(telling := c.telling - {t})], told := s.told + multiset{t},
         place := s.place[t := Told])
    case Detach(id) => s.(sinks := s.sinks - {id})
    case SetClosing => s.(closing := true)
    case Shutdown => s.(receiver := ShuttingDown(s.sinks), sinks := {}, closing := true)
    case Notify(id) => TearDownStep(s, id).(receiver := ShuttingDown(s.receiver.todo - {id}))
  }

  ghost predicate Run(states: seq<State>, events: seq<Event>) {
    && |states| == |events| + 1
    && states[0] == START
    && forall i :: 0 <= i < |events| ==> Enabled(states[i], events[i]) && states[i + 1] == Step(states[i], events[i])
  }

  // --- the invariant -----------------------------------------------------------------

  /** A registration is held exactly where its history says. */
  ghost predicate HeldWhereRecorded(s: State) {
    && (forall id, slot, t :: id in s.circuits && Holds(s.circuits[id].registry, slot, t) ==>
          t in s.place && s.place[t] == In(id, slot))
    && (forall t :: t in s.place && s.place[t].In? ==>
          s.place[t].id in s.circuits && Holds(s.circuits[s.place[t].id].registry, s.place[t].slot, t))
  }

  /** The same for registrations that are about to be told, or have been. */
  ghost predicate ToldAsRecorded(s: State) {
    && (forall id, t :: id in s.circuits && t in s.circuits[id].telling ==> t in s.place && s.place[t] == Telling(id))
    && (forall t :: t in s.place && s.place[t].Telling? ==>
          s.place[t].id in s.circuits && t in s.circuits[s.place[t].id].telling)
    && (forall t :: s.told[t] == if t in s.place && s.place[t].Told? then 1 else 0)
  }

  ghost predicate Located(s: State) {
    HeldWhereRecorded(s) && ToldAsRecorded(s)
  }

  /** A circuit that can still be told by the channel: registered, or taken by the shutdown and not yet notified. */
  predicate Reachable(s: State, id: u32) {
    id in s.sinks || (s.receiver.ShuttingDown? && id in s.receiver.todo)
  }

  predicate ChannelCovers(s: State) {
    && (forall id :: id in s.circuits && s.circuits[id].attached && !s.circuits[id].registry.destroyed ==>
          Reachable(s, id))
    && (s.receiver.ShuttingDown? ==> s.closing && s.sinks == {} && s.receiver.todo <= s.circuits.Keys)
    && s.sinks <= s.circuits.Keys
  }

  ghost predicate OnlyLiveHold(s: State) {
    forall id, slot, t :: id in s.circuits && Holds(s.circuits[id].registry, slot, t) ==>
      s.circuits[id].attached && !s.circuits[id].registry.destroyed
  }

  ghost predicate Covered(s: State) {
    ChannelCovers(s) && OnlyLiveHold(s)
  }

  lemma TearDownKeeps(s: State, id: u32)
    requires Located(s) && Covered(s) && id in s.circuits
    ensures Located(TearDownStep(s, id))
    ensures TearDownStep(s, id).circuits[id].registry.destroyed
    ensures forall slot, t :: !Holds(TearDownStep(s, id).circuits[id].registry, slot, t)
  {
    var r := s.circuits[id].registry;
    forall t ensures t in TornDown(r).1 <==> !r.destroyed && exists slot :: Holds(r, slot, t) {
      TokensHeld(r, t);
    }
  }

  lemma RegisterKeepsLocated(s: State, id: u32, slot: Slot, t: Token)
    requires Located(s) && Enabled(s, Register(id, slot, t))
    ensures Located(Step(s, Register(id, slot, t)))
  {
    var r := s.circuits[id].registry;
    if !r.destroyed {
      var s' := Step(s, Register(id, slot, t));
      forall other: Slot, u: Token
        ensures Holds(s'.circuits[id].registry, other, u) <==> if other == slot then u == t else Holds(r, other, u)
      {
        PutHolds(r, slot, t, other, u);
      }
      ReplacedAt(s, s', id, slot);
    }
  }

  lemma RemoveKeepsLocated(s: State, id: u32, slot: Slot)
    requires Located(s) && Enabled(s, Remove(id, slot))
    ensures Located(Step(s, Remove(id, slot)))
  {
    var r := s.circuits[id].registry;
    var s' := Step(s, Remove(id, slot));
    forall other: Slot, u: Token
      ensures Holds(s'.circuits[id].registry, other, u) <==> other != slot && Holds(r, other, u)
    {
      DropHolds(r, slot, other, u);
    }
    ReplacedAt(s, s', id, slot);
  }

  ghost predicate Replaced(s: State, s': State, id: u32, slot: Slot) {
    && id in s.circuits && s'.circuits.Keys == s.circuits.Keys && s'.told == s.told
    && (forall k :: k in s.circuits && k != id ==> s'.circuits[k] == s.circuits[k])
    && s'.circuits[id].telling == s.circuits[id].telling
    && (forall other, u :: other != slot ==>
          (Holds(s'.circuits[id].registry, other, u) <==> Holds(s.circuits[id].registry, other, u)))
    && var before := At(s.circuits[id].registry, slot);
       var after := At(s'.circuits[id].registry, slot);
       && (after.Some? ==> after.value !in s.place)
       && s'.place == (match after case Some(u) => Placed(s.place, before, Removed)[u := In(id, slot)]
                       case None => Placed(s.place, before, Removed))
  }

  /** Changing one slot disturbs nothing that is registered elsewhere. */
  lemma ReplacedAt(s: State, s': State, id: u32, slot: Slot)
    requires Located(s) && Replaced(s, s', id, slot)
    ensures Located(s')
  {
    forall u: Token ensures Holds(s.circuits[id].registry, slot, u) <==> At(s.circuits[id].registry, slot) == Some(u) {
      HoldsAt(s.circuits[id].registry, slot, u);
    }
    forall u: Token
      ensures Holds(s'.circuits[id].registry, slot, u) <==> At(s'.circuits[id].registry, slot) == Some(u)
    {
      HoldsAt(s'.circuits[id].registry, slot, u);
    }
    ReplacedHeld(s, s', id, slot);
    var before := At(s.circuits[id].registry, slot);
    if before.Some? {
      assert Holds(s.circuits[id].registry, slot, before.value);
    }
    ReplacedTold(s, s', before, At(s'.circuits[id].registry, slot), In(id, slot));
  }

  lemma ReplacedHeld(s: State, s': State, id: u32, slot: Slot)
    requires HeldWhereRecorded(s) && Replaced(s, s', id, slot)
    requires forall u: Token ::
               Holds(s.circuits[id].registry, slot, u) <==> At(s.circuits[id].registry, slot) == Some(u)
    requires forall u: Token ::
               Holds(s'.circuits[id].registry, slot, u) <==> At(s'.circuits[id].registry, slot) == Some(u)
    ensures HeldWhereRecorded(s')
  {
    forall k, other, t | k in s'.circuits && Holds(s'.circuits[k].registry, other, t)
      ensures t in s'.place && s'.place[t] == In(k, other)
    {
      assert (k == id && other == slot) || Holds(s.circuits[k].registry, other, t);
    }
  }

  lemma ReplacedTold(s: State, s': State, before: Option<Token>, after: Option<Token>, p: Place)
    requires ToldAsRecorded(s) && p.In?
    requires before.Some? ==> before.value in s.place && s.place[before.value].In?
    requires after.Some? ==> after.value !in s.place
    requires s'.circuits.Keys == s.circuits.Keys && s'.told == s.told
    requires forall k :: k in s.circuits ==> s'.circuits[k].telling == s.circuits[k].telling
    requires s'.place == (match after case Some(u) => Placed(s.place, before, Removed)[u := p]
                          case None => Placed(s.place, before, Removed))
    ensures ToldAsRecorded(s')
  {
  }

  lemma StepKeepsLocated(s: State, e: Event)
    requires Located(s) && Covered(s) && Enabled(s, e)
    ensures Located(Step(s, e))
  {
    match e
    case Register(id, slot, t) => RegisterKeepsLocated(s, id, slot, t);
    case Remove(id, slot) => RemoveKeepsLocated(s, id, slot);
    case TearDown(id) => TearDownKeeps(s, id);
    case Notify(id) => TearDownKeeps(s, id);
    case Tell(id, t) => TellKeepsLocated(s, id, t);
    case _ =>
  }

  lemma TellKeepsLocated(s: State, id: u32, t: Token)
    requires Located(s) && Enabled(s, Tell(id, t))
    ensures Located(Step(s, Tell(id, t)))
  {
    hide Holds;
  }

  lemma StepKeepsChannelCovers(s: State, e: Event)
    requires ChannelCovers(s) && Enabled(s, e)
    ensures ChannelCovers(Step(s, e))
  {
  }

  lemma StepKeepsOnlyLiveHold(s: State, e: Event)
    requires Located(s) && Covered(s) && Enabled(s, e)
    ensures OnlyLiveHold(Step(s, e))
  {
    hide HeldWhereRecorded, ToldAsRecorded;
    match e
    case Register(id, slot, t) =>
      if !s.circuits[id].registry.destroyed {
        assert !Put(s.circuits[id].registry, slot, t).destroyed;
      }
    case Remove(id, slot) =>
      forall other: Slot, u: Token
        ensures Holds(Drop(s.circuits[id].registry, slot), other, u) ==> Holds(s.circuits[id].registry, other, u)
      {
        DropHolds(s.circuits[id].registry, slot, other, u);
      }
    case TearDown(id) => TearDownKeeps(s, id);
    case Notify(id) => TearDownKeeps(s, id);
    case _ =>
  }

  lemma {:induction false} RunKeeps(states: seq<State>, events: seq<Event>, i: nat)
    requires Run(states, events) && i < |states|
    ensures Located(states[i]) && Covered(states[i])
  {
    if i > 0 {
      RunKeeps(states, events, i - 1);
      StepKeepsLocated(states[i - 1], events[i - 1]);
      StepKeepsChannelCovers(states[i - 1], events[i - 1]);
      StepKeepsOnlyLiveHold(states[i - 1], events[i - 1]);
    }
  }

  // --- the main results -----------------------------------------------------------------

  /** Registrations that were accepted, and are neither replaced, nor unregistered, nor already answered. */
  function Outstanding(s: State): set<Token> {
    set t | t in s.place && !s.place[t].Removed?
  }

  /** Nobody is ever told twice, and nobody is told who was not registered, or who had unregistered first. */
  lemma ToldAtMostOnce(states: seq<State>, events: seq<Event>, i: nat, t: Token)
    requires Run(states, events) && i < |states|
    ensures states[i].told[t] <= 1
    ensures states[i].told[t] == 1 ==> t in Outstanding(states[i])
    ensures forall id, slot :: id in states[i].circuits && Holds(states[i].circuits[id].registry, slot, t) ==>
              states[i].told[t] == 0
  {
    RunKeeps(states, events, i);
  }

  predicate ShutDown(s: State) {
    s.receiver.ShuttingDown? && s.receiver.todo == {}
  }

  /** A teardown that has taken its registrations and not finished telling them. */
  ghost predicate MidTeardown(s: State, t: Token) {
    exists id :: id in s.circuits && t in s.circuits[id].telling
  }

  /**
   * Once the receiver has shut down, every registration not removed has been told exactly once, save those a teardown
   * still in progress is about to tell; no circuit holds a registration, and none can be accepted again.
   */
  lemma ShutDownTellsAll(states: seq<State>, events: seq<Event>, i: nat)
    requires Run(states, events) && i < |states| && ShutDown(states[i])
    ensures forall t :: t in Outstanding(states[i]) ==>
              if MidTeardown(states[i], t) then states[i].told[t] == 0 else states[i].told[t] == 1
    ensures forall id, slot, t :: id in states[i].circuits ==> !Holds(states[i].circuits[id].registry, slot, t)
    ensures forall id :: id in states[i].circuits && states[i].circuits[id].attached ==>
              states[i].circuits[id].registry.destroyed
  {
    RunKeeps(states, events, i);
    var s := states[i];
    forall t | t in Outstanding(s) ensures if MidTeardown(s, t) then s.told[t] == 0 else s.told[t] == 1 {
      if s.place[t].Telling? {
        assert t in s.circuits[s.place[t].id].telling;
      }
    }
  }

  /** Shutting down is final: afterwards no registration changes anything, in any continuation of the run. */
  lemma {:induction false} RefusedAfterShutDown(states: seq<State>, events: seq<Event>, i: nat, k: nat)
    requires Run(states, events) && i <= k < |states| && ShutDown(states[i])
    ensures ShutDown(states[k])
    ensures k < |events| && events[k].Register? ==> states[k + 1] == states[k]
    ensures k < |events| && events[k].Attach? ==> states[k + 1] == states[k]
  {
    if i < k {
      RefusedAfterShutDown(states, events, i, k - 1);
    }
    ShutDownTellsAll(states, events, k);
    RunKeeps(states, events, k);
  }
}
