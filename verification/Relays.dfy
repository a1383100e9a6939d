/** Relays as the consensus lists them, and the weighted draw (`_dir/models.py`, `_dir/pathselect.py`). */
module Relays {
  import opened Bytes

  type Fingerprint = bytes
  type Flag = string

  /**
   * `address` is the dotted quad, split at its dots; `digest` names the relay's microdescriptor; `family` is what that
   * declares, empty while it has not been resolved into the entry.
   */
  datatype Router = Router(nickname: string, fingerprint: Fingerprint, address: seq<string>, flags: set<Flag>,
                           digest: Option<bytes>, family: set<Fingerprint>) {
    predicate IsExit() {
      "Exit" in flags && "BadExit" !in flags
    }

    predicate IsV2Dir() {
      "V2Dir" in flags
    }
  }

  const GUARD_FLAGS: set<Flag> := {"Guard", "Stable", "Fast", "V2Dir", "Running", "Valid"}
  const MIDDLE_FLAGS: set<Flag> := {"Running", "Valid"}

  /** The bandwidth factors a consensus publishes. */
  datatype Weights = Weights(factors: map<string, int>, scale: int)

  datatype Position = Guard | Middle | Exit

  datatype DrawFault = NoUsableRelay | MissingWeight | ZeroScale

  /** The weight a relay is scaled by; an exit-only relay has none as a guard, and counts nothing there. */
  function WeightKey(router: Router, position: Position): Option<string> {
    var guard, exit := "Guard" in router.flags, router.IsExit();
    match position
    case Guard =>
      if guard && exit then Some("Wgd") else if guard then Some("Wgg") else if exit then None else Some("Wgm")
    case Middle =>
      Some(if guard && exit then "Wmd" else if guard then "Wmg" else if exit then "Wme" else "Wmm")
    case Exit =>
      Some(if guard && exit then "Wed" else if guard then "Weg" else if exit then "Wee" else "Wem")
  }

  function Unweighable(router: Router, position: Position, weights: Weights): Option<DrawFault> {
    var key := WeightKey(router, position);
    if key.None? then None
    else if key.value !in weights.factors then Some(MissingWeight)
    else if weights.scale == 0 then Some(ZeroScale)
    else None
  }

  /** Why no draw from `candidates` is possible: the first candidate that cannot be weighed decides. */
  function DrawFails(candidates: seq<Router>, position: Position, weights: Option<Weights>): Option<DrawFault> {
    if candidates == [] then Some(NoUsableRelay)
    else if weights.None? then None
    else FirstUnweighable(candidates, position, weights.value)
  }

  function FirstUnweighable(candidates: seq<Router>, position: Position, weights: Weights): Option<DrawFault> {
    if candidates == [] then None
    else
      var fault := Unweighable(candidates[0], position, weights);
      if fault.Some? then fault else FirstUnweighable(candidates[1..], position, weights)
  }

  /** The key is `W`, the letter of the position, and the letter of the relay's own class: g, e, both (d) or neither. */
  lemma WeightKeyLetters(router: Router, position: Position)
    ensures var guard, exit := "Guard" in router.flags, "Exit" in router.flags && "BadExit" !in router.flags;
            var key := WeightKey(router, position);
            && (key == None <==> position == Guard && exit && !guard)
            && (key.Some? ==>
                  && |key.value| == 3 && key.value[0] == 'W'
                  && (key.value[1] == 'g' <==> position == Guard) && (key.value[1] == 'm' <==> position == Middle)
                  && (key.value[1] == 'e' <==> position == Exit)
                  && (key.value[2] == 'd' <==> guard && exit) && (key.value[2] == 'g' <==> guard && !exit)
                  && (key.value[2] == 'e' <==> exit && !guard) && (key.value[2] == 'm' <==> !exit && !guard))
  {
  }

  /**
   * A draw fails only for want of candidates, or because some candidate's weight is needed and is either not published
   * or cannot be divided by a scale of zero. Which of these it is, the first such candidate decides.
   */
  lemma {:induction false} DrawFailsMeans(candidates: seq<Router>, position: Position, weights: Option<Weights>)
    ensures DrawFails(candidates, position, weights) == Some(NoUsableRelay) <==> candidates == []
    ensures candidates != [] && weights.None? ==> DrawFails(candidates, position, weights) == None
    ensures weights.Some? && candidates != [] && DrawFails(candidates, position, weights) == None ==>
              forall c :: c in candidates && WeightKey(c, position).Some? ==>
                  WeightKey(c, position).value in weights.value.factors && weights.value.scale != 0
    ensures weights.Some? && candidates != [] && DrawFails(candidates, position, weights).Some? ==>
              exists i :: 0 <= i < |candidates| && WeightKey(candidates[i], position).Some?
                && DrawFails(candidates, position, weights)
                   == Some(if WeightKey(candidates[i], position).value in weights.value.factors then ZeroScale
                           else MissingWeight)
                && (weights.value.scale == 0 || WeightKey(candidates[i], position).value !in weights.value.factors)
                && forall j :: 0 <= j < i ==> Unweighable(candidates[j], position, weights.value) == None
  {
    hide WeightKey;
    if weights.Some? && candidates != [] {
      var w, rest := weights.value, candidates[1..];
      if Unweighable(candidates[0], position, w) == None && rest != [] {
        DrawFailsMeans(rest, position, weights);
        assert candidates == [candidates[0]] + rest;
        if DrawFails(rest, position, weights).Some? {
          var i :| 0 <= i < |rest| && WeightKey(rest[i], position).Some?
            && DrawFails(rest, position, weights)
               == Some(if WeightKey(rest[i], position).value in w.factors then ZeroScale else MissingWeight)
            && (w.scale == 0 || WeightKey(rest[i], position).value !in w.factors)
            && forall j :: 0 <= j < i ==> Unweighable(rest[j], position, w) == None;
          assert candidates[i + 1] == rest[i];
          forall j | 0 <= j < i + 1 ensures Unweighable(candidates[j], position, w) == None {
            assert j == 0 || candidates[j] == rest[j - 1];
          }
        }
      } else if Unweighable(candidates[0], position, w) == None {
        assert candidates == [candidates[0]] && FirstUnweighable(rest, position, w) == None;
      } else {
        assert DrawFails(candidates, position, weights) == Unweighable(candidates[0], position, w);
        assert WeightKey(candidates[0], position).Some?;
      }
    }
  }

  lemma {:induction false} FirstUnweighableAt(candidates: seq<Router>, position: Position, weights: Weights, i: nat)
    requires i <= |candidates| && forall j :: 0 <= j < i ==> Unweighable(candidates[j], position, weights) == None
    ensures FirstUnweighable(candidates, position, weights) == FirstUnweighable(candidates[i..], position, weights)
  {
    if i > 0 {
      FirstUnweighableAt(candidates[1..], position, weights, i - 1);
      assert candidates[1..][i - 1..] == candidates[i..];
    } else {
      assert candidates[0..] == candidates;
    }
  }

  /** The draw, for any random source: it fails exactly when it must, and otherwise may return any candidate. */
  method WeightedChoice(candidates: seq<Router>, position: Position, weights: Option<Weights>)
    returns (r: Result<Router, DrawFault>)
    ensures match DrawFails(candidates, position, weights)
            case Some(fault) => r == Err(fault)
            case None => r.Ok? && r.value in candidates
  {
    hide WeightKey;
    if candidates == [] {
      return Err(NoUsableRelay);
    }
    if weights.Some? {
      var i := 0;
      while i < |candidates|
        invariant 0 <= i <= |candidates|
        invariant forall j :: 0 <= j < i ==> Unweighable(candidates[j], position, weights.value) == None
      {
        FirstUnweighableAt(candidates, position, weights.value, i);
        var key := WeightKey(candidates[i], position);
        if key.Some? {
          if key.value !in weights.value.factors {
            return Err(MissingWeight);
          }
          if weights.value.scale == 0 {
            return Err(ZeroScale);
          }
        }
        i := i + 1;
      }
      FirstUnweighableAt(candidates, position, weights.value, i);
    }
    var index: nat :| index < |candidates|;
    return Ok(candidates[index]);
  }
}
