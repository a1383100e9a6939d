/**
 * The client's pools (`_client/torclient.py`): circuits by isolation key and channels by guard. A resource is built
 * outside the lock and published under it, so every locked section is one step and threads interleave between them.
 */
module ClientPool {
  import opened Bytes

  type Key = nat
  type Id = nat

  // --- the locked sections -------------------------------------------------------------

  datatype Pool = Pool(entries: map<Key, Id>, closed: bool)

  /** Circuits are refused on a closed client and pruned on every look; channels are neither. */
  datatype Policy = Circuits | Channels

  datatype Look = Refused | Reuse(id: Id) | MustBuild

  function Pruned(entries: map<Key, Id>, live: set<Id>): map<Key, Id> {
    map k | k in entries && entries[k] in live :: entries[k]
  }

  /** The first look: reuse a live entry, or build. */
  function LookUp(policy: Policy, p: Pool, key: Key, live: set<Id>): (Pool, Look) {
    if policy.Circuits? && p.closed then (p, Refused)
    else
      var entries := if policy.Circuits? then Pruned(p.entries, live) else p.entries;
      (p.(entries := entries), if key in entries && entries[key] in live then Reuse(entries[key]) else MustBuild)
  }

  /** The second look, with a built resource in hand: whose the key is now, if the client is still open. */
  function Publish(p: Pool, key: Key, built: Id, live: set<Id>): (Pool, Option<Id>) {
    if p.closed then (p, None)
    else if key in p.entries && p.entries[key] in live then (p, Some(p.entries[key]))
    else (p.(entries := p.entries[key := built]), Some(built))
  }

  class TorClient {
    var entries: map<Key, Id>
    var closed: bool

    constructor ()
      ensures View() == Pool(map[], false)
    {
      entries, closed := map[], false;
    }

    function View(): Pool
      reads this
    {
      Pool(entries, closed)
    }

    /** `live` are the resources not destroyed at this moment. */
    method FirstLook(policy: Policy, key: Key, live: set<Id>) returns (r: Look)
      modifies this`entries
      ensures (View(), r) == LookUp(policy, old(View()), key, live)
      ensures r == Refused <==> policy.Circuits? && closed
      ensures r.Reuse? ==> key in old(entries) && r.id == old(entries)[key] && r.id in live
      ensures r.MustBuild? ==> key in old(entries) ==> old(entries)[key] !in live
      ensures forall k :: k in entries <==>
                k in old(entries) && (policy.Circuits? && !closed ==> old(entries)[k] in live)
      ensures forall k :: k in entries ==> entries[k] == old(entries)[k]
    {
      if policy.Circuits? {
        if closed {
          return Refused;
        }
        entries := map k | k in entries && entries[k] in live :: entries[k];
      }
      if key in entries && entries[key] in live {
        return Reuse(entries[key]);
      }
      r := MustBuild;
    }

    /** The winner is the caller's own only if nobody published a live one meanwhile; a loser must be closed. */
    method SecondLook(key: Key, built: Id, live: set<Id>) returns (winner: Option<Id>)
      modifies this`entries
      ensures (View(), winner) == Publish(old(View()), key, built, live)
      ensures winner.None? <==> closed
      ensures winner.Some? ==> key in entries && winner.value == entries[key]
      ensures winner.Some? && winner.value != built ==> winner.value in live && entries == old(entries)
      ensures winner == Some(built) && !(key in old(entries) && old(entries)[key] == built) ==>
                key in old(entries) ==> old(entries)[key] !in live
      ensures forall k :: k != key && k in old(entries) ==> k in entries && entries[k] == old(entries)[k]
    {
      if closed {
        return None;
      }
      if key in entries && entries[key] in live {
        return Some(entries[key]);
      }
      entries := entries[key := built];
      winner := Some(built);
    }

    /** `new_identity`: everything pooled is taken, to be closed outside the lock. */
    method TakeAll() returns (taken: set<Id>)
      modifies this`entries
      ensures taken == old(entries).Values && View() == Pool(map[], old(closed))
    {
      taken := entries.Values;
      entries := map[];
    }

    /** `close`: the same, once. */
    method Shut() returns (taken: set<Id>)
      modifies this
      ensures View() == if old(closed) then old(View()) else Pool(map[], true)
      ensures taken == if old(closed) then {} else old(entries).Values
    {
      if closed {
        return {};
      }
      closed := true;
      taken := entries.Values;
      entries := map[];
    }
  }

  // --- threads -----------------------------------------------------------------------------

  /** Where a thread stands between its locked sections, and the resources it answers for. */
  datatype Thread =
    | Idle
    | Building(key: Key)               // choosing a path, or about to retry
    | Trying(key: Key, id: Id)         // a resource exists and is being set up
    | Built(key: Key, id: Id)          // about to publish
    | Discarding(ids: set<Id>)         // closing what it lost or took

  function Holds(t: Thread): set<Id> {
    match t
    case Trying(_, id) => {id}
    case Built(_, id) => {id}
    case Discarding(ids) => ids
    case _ => {}
  }

  /** `keyOf` remembers what each resource was built for; nothing reads it. */
  datatype State = State(pool: Pool, live: set<Id>, keyOf: map<Id, Key>, threads: map<nat, Thread>)

  const START := State(Pool(map[], false), {}, map[], map[])

  datatype Event =
    | Spawn(t: nat)
    | Acquire(t: nat, key: Key)   // first locked section
    | Begin(t: nat, id: Id)       // a resource comes into being
    | FailBuild(t: nat)           // its setup fails and it is torn down; the builder may retry
    | GiveUp(t: nat)              // no path, or no attempts left
    | Finish(t: nat)
    | PublishIt(t: nat)           // second locked section
    | DiscardOne(t: nat, id: Id)
    | NewIdentity(t: nat)
    | Close(t: nat)
    | Die(id: Id)                 // destroyed by the network

  predicate At(s: State, t: nat) {
    t in s.threads
  }

  predicate Enabled(s: State, e: Event) {
    match e
    case Spawn(t) => t !in s.threads
    case Acquire(t, _) => At(s, t) && s.threads[t].Idle?
    case Begin(t, id) => At(s, t) && s.threads[t].Building? && id !in s.keyOf
    case FailBuild(t) => At(s, t) && s.threads[t].Trying?
    case GiveUp(t) => At(s, t) && s.threads[t].Building?
    case Finish(t) => At(s, t) && s.threads[t].Trying?
    case PublishIt(t) => At(s, t) && s.threads[t].Built?
    case DiscardOne(t, id) => At(s, t) && s.threads[t].Discarding? && id in s.threads[t].ids
    case NewIdentity(t) => At(s, t) && s.threads[t].Idle?
    case Close(t) => At(s, t) && s.threads[t].Idle?
    case Die(_) => true
  }

  function To(s: State, t: nat, to: Thread): State {
    s.(threads := s.threads[t := if to == Discarding({}) then Idle else to])
  }

  function Step(policy: Policy, s: State, e: Event): State
    requires Enabled(s, e)
  {
    match e
    case Spawn(t) => To(s, t, Idle)
    case Acquire(t, key) =>
      var (pool, look) := LookUp(policy, s.pool, key, s.live);
      To(s.(pool := pool), t, if look.MustBuild? then Building(key) else Idle)
    case Begin(t, id) =>
      var key := s.threads[t].key;
      To(s.(live := s.live + {id}, keyOf := s.keyOf[id := key]), t, Trying(key, id))
    case FailBuild(t) => To(s.(live := s.live - {s.threads[t].id}), t, Building(s.threads[t].key))
    case GiveUp(t) => To(s, t, Idle)
    case Finish(t) => To(s, t, Built(s.threads[t].key, s.threads[t].id))
    case PublishIt(t) =>
      var mine := s.threads[t].id;
      var (pool, winner) := Publish(s.pool, s.threads[t].key, mine, s.live);
      To(s.(pool := pool), t, if winner == Some(mine) then Idle else Discarding({mine}))
    case DiscardOne(t, id) => To(s.(live := s.live - {id}), t, Discarding(s.threads[t].ids - {id}))
    case NewIdentity(t) =>
      To(s.(pool := s.pool.(entries := map[])), t, Discarding(s.pool.entries.Values))
    case Close(t) =>
      if s.pool.closed then s
      else To(s.(pool := Pool(map[], true)), t, Discarding(s.pool.entries.Values))
    case Die(id) => s.(live := s.live - {id})
  }

  ghost predicate Run(policy: Policy, states: seq<State>, events: seq<Event>) {
    && |states| == |events| + 1
    && states[0] == START
    && forall i :: 0 <= i < |events| ==>
        Enabled(states[i], events[i]) && states[i + 1] == Step(policy, states[i], events[i])
  }

  // --- ownership -----------------------------------------------------------------------------

  predicate Pooled(s: State, id: Id) {
    id in s.keyOf && s.keyOf[id] in s.pool.entries && s.pool.entries[s.keyOf[id]] == id
  }

  ghost predicate Held(s: State, id: Id) {
    exists t :: t in s.threads && id in Holds(s.threads[t])
  }

  ghost predicate Inv(s: State) {
    && (forall k :: k in s.pool.entries ==> s.pool.entries[k] in s.keyOf && s.keyOf[s.pool.entries[k]] == k)
    && (forall t :: t in s.threads && (s.threads[t].Trying? || s.threads[t].Built?) ==>
          s.threads[t].id in s.keyOf && s.keyOf[s.threads[t].id] == s.threads[t].key)
    && (s.pool.closed ==> s.pool.entries == map[])
  }

  /** No live resource is unaccounted for. */
  ghost predicate Owned(s: State) {
    forall id :: id in s.live ==> id in s.keyOf && (Pooled(s, id) || Held(s, id))
  }

  lemma StepKeepsInv(policy: Policy, s: State, e: Event)
    requires Inv(s) && Enabled(s, e)
    ensures Inv(Step(policy, s, e))
  {
  }

  /** A thread that moves keeps holding what it held, apart from the resources it hands over. */
  lemma StillHeld(s: State, s': State, t: nat, id: Id)
    requires Held(s, id) && t in s.threads && t in s'.threads
    requires forall u :: u in s.threads && u != t ==> u in s'.threads && s'.threads[u] == s.threads[u]
    requires id in Holds(s.threads[t]) ==> id in Holds(s'.threads[t])
    ensures Held(s', id)
  {
    var u :| u in s.threads && id in Holds(s.threads[u]);
    assert u in s'.threads && id in Holds(s'.threads[u]);
  }

  lemma StepKeepsOwned(policy: Policy, s: State, e: Event)
    requires Inv(s) && Owned(s) && Enabled(s, e)
    ensures Owned(Step(policy, s, e))
  {
    var s' := Step(policy, s, e);
    forall id | id in s'.live ensures id in s'.keyOf && (Pooled(s', id) || Held(s', id)) {
      if e.Begin? && id == e.id {
        assert id in Holds(s'.threads[e.t]);
      } else if e.Die? {
        if Held(s, id) {
          var u :| u in s.threads && id in Holds(s.threads[u]);
          assert id in Holds(s'.threads[u]);
        }
      } else if e.Spawn? {
        if Held(s, id) {
          var u :| u in s.threads && id in Holds(s.threads[u]);
          assert id in Holds(s'.threads[u]);
        }
      } else {
        OwnedThrough(policy, s, e, id);
      }
    }
  }

  lemma OwnedThrough(policy: Policy, s: State, e: Event, id: Id)
    requires Inv(s) && Owned(s) && Enabled(s, e) && !e.Die? && !e.Spawn?
    requires id in Step(policy, s, e).live && id in s.live
    ensures var s' := Step(policy, s, e); id in s'.keyOf && (Pooled(s', id) || Held(s', id))
  {
    var s' := Step(policy, s, e);
    var t := e.t;
    if Held(s, id) && (id in Holds(s.threads[t]) ==> id in Holds(s'.threads[t])) {
      StillHeld(s, s', t, id);
    } else if Pooled(s, id) {
      if s.pool.entries[s.keyOf[id]] in s.pool.entries.Values && !Pooled(s', id) {
        assert id in Holds(s'.threads[t]);
      }
    }
  }

  lemma {:induction false} RunKeeps(policy: Policy, states: seq<State>, events: seq<Event>, i: nat)
    requires Run(policy, states, events) && i < |states|
    ensures Inv(states[i]) && Owned(states[i])
  {
    if i > 0 {
      RunKeeps(policy, states, events, i - 1);
      StepKeepsInv(policy, states[i - 1], events[i - 1]);
      StepKeepsOwned(policy, states[i - 1], events[i - 1]);
    }
  }

  // --- the main results -------------------------------------------------------------------------

  /**
   * Under any interleaving, every live resource is in the pool under its key, or held by a thread that will publish
   * it or close it.
   */
  lemma NothingLeaks(policy: Policy, states: seq<State>, events: seq<Event>, i: nat, id: Id)
    requires Run(policy, states, events) && i < |states| && id in states[i].live
    ensures Pooled(states[i], id) || Held(states[i], id)
  {
    RunKeeps(policy, states, events, i);
  }

  /**
   * What a look hands out: only a live resource that was built for the very key asked for. The thread is sent to build
   * exactly when the client takes requests and no live resource is pooled under that key, and it builds for that key.
   */
  lemma ReuseIsOwn(policy: Policy, states: seq<State>, events: seq<Event>, i: nat, t: nat, key: Key)
    requires Run(policy, states, events) && i < |events| && events[i] == Acquire(t, key)
    ensures var s, look := states[i], LookUp(policy, states[i].pool, key, states[i].live).1;
            && (look.Refused? <==> policy.Circuits? && s.pool.closed)
            && (look.Reuse? ==>
                  look.id in s.live && look.id in s.keyOf && s.keyOf[look.id] == key && Pooled(s, look.id))
            && (look.MustBuild? <==>
                  !look.Refused? && forall id :: id in s.live && Pooled(s, id) ==> s.keyOf[id] != key)
            && states[i + 1].threads[t] == if look.MustBuild? then Building(key) else Idle
  {
    RunKeeps(policy, states, events, i);
    var s := states[i];
    if key in s.pool.entries && s.pool.entries[key] in s.live {
      assert Pooled(s, s.pool.entries[key]);
    }
  }

  /**
   * What publishing hands out: nothing on a closed client; otherwise a live resource built for the thread's own key,
   * which is pooled under that key from then on. The thread's own resource loses only to a live one with the same key.
   */
  lemma PublishIsOwn(policy: Policy, states: seq<State>, events: seq<Event>, i: nat, t: nat)
    requires Run(policy, states, events) && i < |events| && events[i] == PublishIt(t)
    ensures var s, s' := states[i], states[i + 1];
            var key, mine := s.threads[t].key, s.threads[t].id;
            var winner := Publish(s.pool, key, mine, s.live).1;
            && (winner.None? <==> s.pool.closed)
            && (winner.Some? ==> winner.value in s'.keyOf && s'.keyOf[winner.value] == key && Pooled(s', winner.value))
            && (winner.Some? && winner.value != mine ==> winner.value in s.live && Pooled(s, winner.value))
            && (winner == Some(mine) ==> s'.threads[t] == Idle)
            && (winner != Some(mine) ==> s'.threads[t] == Discarding({mine}) && s'.pool == s.pool)
            && (forall id :: id in s.live && id != mine && Pooled(s, id) && s.keyOf[id] == key ==>
                  winner == (if s.pool.closed then None else Some(id)))
  {
    RunKeeps(policy, states, events, i);
    RunKeeps(policy, states, events, i + 1);
  }

  ghost predicate Quiet(s: State) {
    forall t :: t in s.threads ==> s.threads[t].Idle?
  }

  /** With no operation in progress there is at most one live resource per key, and it is the pooled one. */
  lemma OneLivePerKey(policy: Policy, states: seq<State>, events: seq<Event>, i: nat)
    requires Run(policy, states, events) && i < |states| && Quiet(states[i])
    ensures var s := states[i];
            && (forall a, b ::
                  a in s.live && b in s.live && a in s.keyOf && b in s.keyOf && s.keyOf[a] == s.keyOf[b] ==> a == b)
            && s.live <= s.pool.entries.Values && s.live <= s.keyOf.Keys
  {
    RunKeeps(policy, states, events, i);
    var s := states[i];
    forall id | id in s.live ensures Pooled(s, id) && id in s.pool.entries.Values {
      assert !Held(s, id);
    }
  }

  /** Once the client has closed and every operation has finished, nothing that was ever built is still alive. */
  lemma ClosedMeansDestroyed(policy: Policy, states: seq<State>, events: seq<Event>, i: nat)
    requires Run(policy, states, events) && i < |states| && states[i].pool.closed && Quiet(states[i])
    ensures states[i].live == {}
  {
    RunKeeps(policy, states, events, i);
    OneLivePerKey(policy, states, events, i);
  }

  /** Closing is final. */
  lemma {:induction false} ClosedForever(policy: Policy, states: seq<State>, events: seq<Event>, i: nat, k: nat)
    requires Run(policy, states, events) && i <= k < |states| && states[i].pool.closed
    ensures states[k].pool == Pool(map[], true)
  {
    RunKeeps(policy, states, events, i);
    if i < k {
      ClosedForever(policy, states, events, i, k - 1);
      assert states[k] == Step(policy, states[k - 1], events[k - 1]);
      assert Pruned(map[], states[k - 1].live) == map[];
    }
  }
}
