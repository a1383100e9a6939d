/** What a circuit must notify when it dies: its streams and the callers waiting for replies (`_net/circuit.py`). */
module Registries {
  import opened Bytes

  /** One registration: a stream handler under an id, or a waiter for a build reply or a control command. */
  type Token = nat

  datatype Slot = Stream(id: u16) | Build | Control(command: byte)

  datatype Registry = Registry(destroyed: bool, streams: map<u16, Token>, build: Option<Token>,
                               control: map<byte, Token>)

  const EMPTY_REGISTRY := Registry(false, map[], None, map[])

  predicate Holds(r: Registry, slot: Slot, t: Token) {
    match slot
    case Stream(id) => id in r.streams && r.streams[id] == t
    case Build => r.build == Some(t)
    case Control(command) => command in r.control && r.control[command] == t
  }

  function At(r: Registry, slot: Slot): Option<Token> {
    match slot
    case Stream(id) => if id in r.streams then Some(r.streams[id]) else None
    case Build => r.build
    case Control(command) => if command in r.control then Some(r.control[command]) else None
  }

  /** Registering under a slot replaces whatever was there; it is refused once the circuit is destroyed. */
  function Put(r: Registry, slot: Slot, t: Token): Registry
    requires !r.destroyed
  {
    match slot
    case Stream(id) => r.(streams := r.streams[id := t])
    case Build => r.(build := Some(t))
    case Control(command) => r.(control := r.control[command := t])
  }

  function Drop(r: Registry, slot: Slot): Registry {
    match slot
    case Stream(id) => r.(streams := r.streams - {id})
    case Build => r.(build := None)
    case Control(command) => r.(control := r.control - {command})
  }

  function Tokens(r: Registry): set<Token> {
    r.streams.Values + r.control.Values + (match r.build case Some(t) => {t} case None => {})
  }

  /** The locked section of a teardown: whoever gets there first takes everything to notify. */
  function TornDown(r: Registry): (Registry, set<Token>) {
    if r.destroyed then (r, {}) else (EMPTY_REGISTRY.(destroyed := true), Tokens(r))
  }

  lemma HoldsAt(r: Registry, slot: Slot, t: Token)
    ensures Holds(r, slot, t) <==> At(r, slot) == Some(t)
  {
  }

  lemma PutHolds(r: Registry, slot: Slot, t: Token, other: Slot, u: Token)
    requires !r.destroyed
    ensures Holds(Put(r, slot, t), other, u) <==> if other == slot then u == t else Holds(r, other, u)
  {
  }

  lemma DropHolds(r: Registry, slot: Slot, other: Slot, u: Token)
    ensures Holds(Drop(r, slot), other, u) <==> other != slot && Holds(r, other, u)
  {
  }

  lemma TokensHeld(r: Registry, t: Token)
    ensures t in Tokens(r) <==> exists slot :: Holds(r, slot, t)
  {
    if t in r.streams.Values {
      var id :| id in r.streams && r.streams[id] == t;
      assert Holds(r, Stream(id), t);
    }
    if t in r.control.Values {
      var command :| command in r.control && r.control[command] == t;
      assert Holds(r, Control(command), t);
    }
    if r.build == Some(t) {
      assert Holds(r, Build, t);
    }
  }
}
