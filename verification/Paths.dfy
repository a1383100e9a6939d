/** The paths a directory hands out (`_client/bootstrap.py`): drawn hop by hop, and redrawn until free of family. */
module Paths {
  import opened Bytes
  import opened Guards
  import opened PathSelect
  import opened Relays

  /** `exitPorts` is None where the document says "reject 1-65535". */
  datatype Microdescriptor = Microdescriptor(family: set<Fingerprint>, exitPorts: Option<set<nat>>, onionKey: bytes,
                                             edIdentity: Option<bytes>)

  datatype RelayInfo = RelayInfo(address: seq<string>, onionKey: bytes, identity: Fingerprint, edIdentity: bytes)

  datatype PathFault = CannotDraw(fault: DrawFault) | NoExit | NoCache | FetchFailed | NoMicrodescriptor | NoEdIdentity

  datatype Goal = ToPort(port: nat) | ToRelay(target: Router) | ToRendezvous | ToCache

  const FAMILY_SELECT_ATTEMPTS := 8

  /** What came of asking the mirrors once: the documents that arrived, and whether the whole request was served. */
  datatype Answer = Answer(documents: set<bytes>, complete: bool)

  // --- what a path is --------------------------------------------------------------------

  /** No two hops share an identity, a /16 or a family that the consensus entries themselves declare. */
  predicate Spread(path: seq<Router>) {
    forall i, j :: 0 <= i < |path| && 0 <= j < |path| && i != j ==> !Conflicts(path[i], path[j])
  }

  function FamilyOf(router: Router, known: map<bytes, Microdescriptor>): set<Fingerprint> {
    if router.digest.Some? && router.digest.value in known then known[router.digest.value].family else {}
  }

  predicate InFamily(a: Router, b: Router, known: map<bytes, Microdescriptor>) {
    FamilyConflict(a.fingerprint, FamilyOf(a, known), b.fingerprint, FamilyOf(b, known))
  }

  predicate HasFamilyConflict(relays: seq<Router>, known: map<bytes, Microdescriptor>) {
    exists i, j :: 0 <= i < j < |relays| && InFamily(relays[i], relays[j], known)
  }

  /** What a draw for `goal` guarantees, whatever the random source did. */
  predicate Drawn(path: seq<Router>, goal: Goal, routers: seq<Router>, known: map<bytes, Microdescriptor>,
                  prefer: seq<Router>)
  {
    && |path| == 3 && Spread(path)
    && GUARD_FLAGS <= path[0].flags && path[0] in routers
    && MIDDLE_FLAGS <= path[1].flags && path[1] in routers
    && Reaches(path[2], goal, routers, known)
    && Preferred(path, goal, prefer)
  }

  predicate Reaches(last: Router, goal: Goal, routers: seq<Router>, known: map<bytes, Microdescriptor>) {
    match goal
    case ToPort(port) => last in routers && AllowsPort(last, port, known)
    case ToRelay(target) => last == target
    case ToRendezvous => last in routers && MIDDLE_FLAGS <= last.flags
    case ToCache => last in routers && last.IsV2Dir()
  }

  predicate AllowsPort(router: Router, port: nat, known: map<bytes, Microdescriptor>) {
    && router.IsExit() && router.digest.Some? && router.digest.value in known
    && known[router.digest.value].exitPorts.Some? && port in known[router.digest.value].exitPorts.value
  }

  /** The first hop is the first primary guard usable with the last hop, if there is one. */
  predicate Preferred(path: seq<Router>, goal: Goal, prefer: seq<Router>)
    requires |path| == 3
  {
    forall k: nat :: k < |prefer| && FirstUsable(prefer, k, GUARD_FLAGS, if goal.ToRendezvous? then []
        else [path[2]]) ==>
      path[0] == prefer[k]
  }

  /** What a draw guarantees, said of the consensus entries themselves. */
  lemma DrawnMeans(path: seq<Router>, goal: Goal, routers: seq<Router>, known: map<bytes, Microdescriptor>,
                   prefer: seq<Router>)
    requires Drawn(path, goal, routers, known, prefer)
    ensures |path| == 3 && path[0] in routers && path[1] in routers
    ensures {"Guard", "Stable", "Fast", "V2Dir", "Running", "Valid"} <= path[0].flags
    ensures {"Running", "Valid"} <= path[1].flags
    ensures forall i, j :: 0 <= i < 3 && 0 <= j < 3 && i != j ==>
              && path[i].fingerprint != path[j].fingerprint && path[i].fingerprint !in path[j].family
              && !ShareSlash16(path[i].address, path[j].address)
    ensures match goal
            case ToPort(port) =>
              && path[2] in routers && "Exit" in path[2].flags && "BadExit" !in path[2].flags
              && HasDocument(path[2], known) && known[path[2].digest.value].exitPorts.Some?
              && port in known[path[2].digest.value].exitPorts.value
            case ToRelay(target) => path[2] == target
            case ToRendezvous => path[2] in routers && {"Running", "Valid"} <= path[2].flags
            case ToCache => path[2] in routers && "V2Dir" in path[2].flags
  {
    forall i, j | 0 <= i < 3 && 0 <= j < 3 && i != j
      ensures path[i].fingerprint != path[j].fingerprint && path[i].fingerprint !in path[j].family
      ensures !ShareSlash16(path[i].address, path[j].address)
    {
      assert !Conflicts(path[i], path[j]);
      ConflictsMeans(path[i], path[j]);
    }
  }

  /** Relays are in family exactly if one's own document names the other. */
  lemma FamilyMeans(relays: seq<Router>, known: map<bytes, Microdescriptor>)
    ensures HasFamilyConflict(relays, known) <==>
              exists i, j :: 0 <= i < |relays| && 0 <= j < |relays| && i != j && HasDocument(relays[i], known)
                && relays[j].fingerprint in known[relays[i].digest.value].family
  {
    if i, j :| 0 <= i < |relays| && 0 <= j < |relays| && i != j && HasDocument(relays[i], known)
               && relays[j].fingerprint in known[relays[i].digest.value].family {
      assert if i < j then InFamily(relays[i], relays[j], known) else InFamily(relays[j], relays[i], known);
    }
    if i, j :| 0 <= i < j < |relays| && InFamily(relays[i], relays[j], known) {
      if relays[j].fingerprint in FamilyOf(relays[i], known) {
        assert HasDocument(relays[i], known);
      } else {
        assert HasDocument(relays[j], known) && relays[i].fingerprint in known[relays[j].digest.value].family;
      }
    }
  }

  function Where(routers: seq<Router>, p: Router -> bool): (s: seq<Router>)
    ensures forall r :: r in s <==> r in routers && p(r)
  {
    if routers == [] then []
    else
      var last := routers[|routers| - 1];
      assert routers == routers[..|routers| - 1] + [last];
      Where(routers[..|routers| - 1], p) + if p(last) then [last] else []
  }

  /** The relays an exit for `port` is drawn from, once their documents are known. */
  function ExitsFor(routers: seq<Router>, port: nat, known: map<bytes, Microdescriptor>): seq<Router> {
    Allowing(Where(routers, (r: Router) => r.IsExit()), port, known)
  }

  function Allowing(exits: seq<Router>, port: nat, known: map<bytes, Microdescriptor>): (s: seq<Router>)
    ensures forall r :: r in s <==> r in exits && AllowsPort(r, port, known)
  {
    if exits == [] then []
    else
      var last := exits[|exits| - 1];
      assert exits == exits[..|exits| - 1] + [last];
      Allowing(exits[..|exits| - 1], port, known) + if AllowsPort(last, port, known) then [last] else []
  }

  /** Of the requests numbered from `a` up to `b`, every one was served in full, but for the last one if `failed`. */
  predicate Served(mirrors: nat -> Answer, a: nat, b: nat, failed: bool) {
    && a <= b && (failed ==> a < b && !mirrors(b - 1).complete)
    && forall n: nat :: a <= n < (if failed then b - 1 else b) ==> mirrors(n).complete
  }

  lemma ServedThen(mirrors: nat -> Answer, a: nat, b: nat, c: nat, failed: bool)
    requires Served(mirrors, a, b, false) && Served(mirrors, b, c, failed)
    ensures Served(mirrors, a, c, failed)
  {
  }

  // --- why there is no path --------------------------------------------------------------

  /** The last hop cannot be drawn for the reason `e`. */
  predicate NoLast(goal: Goal, routers: seq<Router>, known: map<bytes, Microdescriptor>, weights: Option<Weights>,
                   e: PathFault)
  {
    match goal
    case ToPort(port) =>
      var exits := ExitsFor(routers, port, known);
      if exits == [] then e == NoExit
      else e.CannotDraw? && DrawFails(exits, Exit, weights) == Some(e.fault)
    case ToCache =>
      var caches := Where(routers, (r: Router) => r.IsV2Dir());
      if caches == [] then e == NoCache
      else e.CannotDraw? && DrawFails(caches, Middle, weights) == Some(e.fault)
    case _ => false
  }

  /** With `exclude` chosen, no preferred relay is usable as the guard, and none can be drawn. */
  predicate NoGuard(routers: seq<Router>, weights: Option<Weights>, prefer: seq<Router>, exclude: seq<Router>,
                    e: PathFault)
  {
    && NoneUsable(prefer, GUARD_FLAGS, exclude)
    && e.CannotDraw? && DrawFails(UsableOf(routers, GUARD_FLAGS, exclude), Guard, weights) == Some(e.fault)
  }

  predicate NoMiddle(routers: seq<Router>, weights: Option<Weights>, chosen: seq<Router>, e: PathFault) {
    e.CannotDraw? && DrawFails(UsableOf(routers, MIDDLE_FLAGS, chosen), Middle, weights) == Some(e.fault)
  }

  /** Choosing `chosen` so far, in the order of the path, is what the draws for `goal` may have done. */
  predicate Chosen(chosen: seq<Router>, goal: Goal, routers: seq<Router>, known: map<bytes, Microdescriptor>,
                   prefer: seq<Router>)
  {
    && (goal.ToRendezvous? ==> 1 <= |chosen| <= 2) && (!goal.ToRendezvous? ==> |chosen| == 2)
    && chosen[0] in routers
    && (goal.ToRendezvous? ==> Usable(chosen[0], GUARD_FLAGS, []))
    && (goal.ToRendezvous? && |chosen| == 2 ==> chosen[1] in routers && Usable(chosen[1], MIDDLE_FLAGS, chosen[..1]))
    && (!goal.ToRendezvous? ==>
          Reaches(chosen[1], goal, routers, known) && Usable(chosen[0], GUARD_FLAGS, [chosen[1]]))
  }

  /** Some draw for `goal` gets stuck for the reason `e`: at its last hop, at its guard or at a middle relay. */
  ghost predicate NoDraw(goal: Goal, routers: seq<Router>, known: map<bytes, Microdescriptor>, weights: Option<Weights>,
                         prefer: seq<Router>, e: PathFault)
  {
    || NoLast(goal, routers, known, weights, e)
    || (goal.ToRendezvous? && NoGuard(routers, weights, prefer, [], e))
    || (!goal.ToRendezvous?
        && exists last :: Reaches(last, goal, routers, known) && NoGuard(routers, weights, prefer, [last], e))
    || exists chosen :: Chosen(chosen, goal, routers, known, prefer) && NoMiddle(routers, weights, chosen, e)
  }

  lemma NoDrawFaults(goal: Goal, routers: seq<Router>, known: map<bytes, Microdescriptor>, weights: Option<Weights>,
                     prefer: seq<Router>, e: PathFault)
    requires NoDraw(goal, routers, known, weights, prefer, e)
    ensures e.CannotDraw? || (e.NoExit? && goal.ToPort?) || (e.NoCache? && goal.ToCache?)
  {
  }

  lemma NoRendezvousGuard(routers: seq<Router>, known: map<bytes, Microdescriptor>, weights: Option<Weights>,
                          prefer: seq<Router>, e: PathFault)
    requires NoGuard(routers, weights, prefer, [], e)
    ensures NoDraw(ToRendezvous, routers, known, weights, prefer, e)
  {
  }

  lemma NoRendezvousMiddle(chosen: seq<Router>, routers: seq<Router>, known: map<bytes, Microdescriptor>,
                           weights: Option<Weights>, prefer: seq<Router>, e: PathFault)
    requires 1 <= |chosen| <= 2 && forall r :: r in chosen ==> r in routers
    requires Usable(chosen[0], GUARD_FLAGS, []) && (|chosen| == 2 ==> Usable(chosen[1], MIDDLE_FLAGS, [chosen[0]]))
    requires NoMiddle(routers, weights, chosen, e)
    ensures NoDraw(ToRendezvous, routers, known, weights, prefer, e)
  {
    hide NoMiddle, NoGuard, NoLast, Usable;
    assert chosen[..1] == [chosen[0]] && chosen[0] in chosen && (|chosen| == 2 ==> chosen[1] in chosen);
    assert Chosen(chosen, ToRendezvous, routers, known, prefer);
  }

  lemma RendezvousDrawn(guard: Router, middle: Router, rp: Router, routers: seq<Router>,
                        known: map<bytes, Microdescriptor>, prefer: seq<Router>)
    requires guard in routers && middle in routers && rp in routers
    requires forall k: nat :: FirstUsable(prefer, k, GUARD_FLAGS, []) ==> guard == prefer[k]
    requires Usable(guard, GUARD_FLAGS, []) && Usable(middle, MIDDLE_FLAGS, [guard])
    requires Usable(rp, MIDDLE_FLAGS, [guard, middle])
    ensures Drawn([guard, middle, rp], ToRendezvous, routers, known, prefer)
  {
    hide FirstUsable, Conflicts;
    SpreadOut(guard, middle, rp);
  }

  // --- the directory ---------------------------------------------------------------------

  class Directory {
    const routers: seq<Router>
    const selector: PathSelector
    const guards: GuardManager
    const weights: Option<Weights>
    /** Documents are stored under their own digest; this is the document each digest belongs to. */
    const archive: bytes -> Microdescriptor
    /** What the network will answer to each request in turn; any documents, some or none of them asked for. */
    const mirrors: nat -> Answer
    var requests: nat
    var microdescriptors: map<bytes, Microdescriptor>

    ghost predicate Valid()
      reads this, guards
    {
      && guards.Valid()
      && selector.routers == routers && selector.weights == weights
      && forall d :: d in microdescriptors ==> microdescriptors[d] == archive(d)
    }

    constructor (routers: seq<Router>, weights: Option<Weights>, guards: GuardManager,
        archive: bytes -> Microdescriptor, mirrors: nat -> Answer)
      requires guards.Valid()
      ensures Valid() && this.guards == guards && this.routers == routers && this.weights == weights
      ensures microdescriptors == map[] && requests == 0
    {
      this.routers, this.weights, this.guards, this.archive := routers, weights, guards, archive;
      this.mirrors, requests := mirrors, 0;
      selector := new PathSelector(routers, weights);
      microdescriptors := map[];
    }

    /** Asks for what is missing, if anything is, and keeps whatever arrives. */
    method Fetch(relays: seq<Router>) returns (ok: bool)
      requires Valid()
      modifies this`microdescriptors, this`requests
      ensures Valid() && old(microdescriptors.Items) <= microdescriptors.Items
      ensures if forall r :: r in relays && r.digest.Some? ==> r.digest.value in old(microdescriptors)
              then ok && requests == old(requests) && microdescriptors == old(microdescriptors)
              else
                && requests == old(requests) + 1 && ok == mirrors(old(requests)).complete
                && microdescriptors.Keys == old(microdescriptors).Keys + mirrors(old(requests)).documents
      ensures Served(mirrors, old(requests), requests, !ok)
    {
      ok := true;
      if exists r :: r in relays && r.digest.Some? && r.digest.value !in microdescriptors {
        var answer := mirrors(requests);
        requests := requests + 1;
        ok := answer.complete;
        ghost var was := microdescriptors;
        microdescriptors := microdescriptors + map d | d in answer.documents :: archive(d);
        forall item | item in was.Items ensures item in microdescriptors.Items {
          assert item.0 in microdescriptors && microdescriptors[item.0] == archive(item.0) == was[item.0];
        }
      }
    }

    method AllowedOf(exits: seq<Router>, port: nat) returns (allowed: seq<Router>)
      requires forall r :: r in exits ==> r.IsExit()
      ensures allowed == Allowing(exits, port, microdescriptors)
    {
      allowed := [];
      var i := 0;
      while i < |exits|
        invariant 0 <= i <= |exits|
        invariant allowed == Allowing(exits[..i], port, microdescriptors)
      {
        assert exits[..i + 1][..i] == exits[..i] && exits[i] in exits;
        var md := exits[i].digest;
        if md.Some? && md.value in microdescriptors && microdescriptors[md.value].exitPorts.Some?
           && port in microdescriptors[md.value].exitPorts.value
        {
          allowed := allowed + [exits[i]];
        }
        i := i + 1;
      }
      assert exits[..i] == exits;
    }

    /** Fails when a document is missing and cannot be had, when no exit allows the port, or when the draw does. */
    method SelectExit(port: nat) returns (r: Result<Router, PathFault>)
      requires Valid()
      modifies this`microdescriptors, this`requests
      ensures Valid() && old(microdescriptors.Items) <= microdescriptors.Items
      ensures r.Ok? ==> Reaches(r.value, ToPort(port), routers, microdescriptors)
      ensures requests <= old(requests) + 1
      ensures requests == old(requests) <==> forall x ::
                x in routers && x.IsExit() && x.digest.Some? ==> x.digest.value in old(microdescriptors)
      ensures Served(mirrors, old(requests), requests, r == Err(FetchFailed))
      ensures r != Err(FetchFailed) ==>
                if ExitsFor(routers, port, microdescriptors) == [] then r == Err(NoExit)
                else match DrawFails(ExitsFor(routers, port, microdescriptors), Exit, weights)
                  case Some(fault) => r == Err(CannotDraw(fault))
                  case None => r.Ok? && r.value in ExitsFor(routers, port, microdescriptors)
    {
      var exits := Where(routers, (r: Router) => r.IsExit());
      var fetched := Fetch(exits);
      if !fetched {
        return Err(FetchFailed);
      }
      var allowed := AllowedOf(exits, port);
      if allowed == [] {
        return Err(NoExit);
      }
      var choice := WeightedChoice(allowed, Exit, weights);
      r := if choice.Ok? then Ok(choice.value) else Err(CannotDraw(choice.error));
    }

    /** The last hop of a draw, where it is drawn before the guard. */
    method SelectLast(goal: Goal) returns (r: Result<Router, PathFault>)
      requires Valid() && !goal.ToRendezvous?
      modifies this`microdescriptors, this`requests
      ensures Valid() && old(microdescriptors.Items) <= microdescriptors.Items
      ensures r.Ok? ==> Reaches(r.value, goal, routers, microdescriptors)
      ensures r.Err? ==> r.error == FetchFailed || NoLast(goal, routers, microdescriptors, weights, r.error)
      ensures Served(mirrors, old(requests), requests, r == Err(FetchFailed))
    {
      match goal
      case ToPort(port) => r := SelectExit(port);
      case ToRelay(target) => r := Ok(target);
      case ToCache =>
        var caches := Where(routers, (r: Router) => r.IsV2Dir());
        if caches == [] {
          return Err(NoCache);
        }
        var choice := WeightedChoice(caches, Middle, weights);
        r := if choice.Ok? then Ok(choice.value) else Err(CannotDraw(choice.error));
    }

    /** The guard and the middle relay before a last hop that is already chosen. */
    method DrawBefore(goal: Goal, last: Router) returns (r: Result<seq<Router>, PathFault>)
      requires Valid() && !goal.ToRendezvous? && Reaches(last, goal, routers, microdescriptors)
      ensures r.Ok? ==> Drawn(r.value, goal, routers, microdescriptors,
          Primary(guards.entries, routers, guards.sampleSize))
      ensures r.Err? ==> NoDraw(goal, routers, microdescriptors, weights,
          Primary(guards.entries, routers, guards.sampleSize), r.error)
    {
      hide Reaches, Primary;
      var prefer := guards.PrimaryGuards(routers);
      PrimaryInRouters(guards.entries, routers, guards.sampleSize);
      var guard := selector.SelectGuard([last], prefer);
      if guard.Err? {
        assert NoGuard(routers, weights, prefer, [last], CannotDraw(guard.error));
        return Err(CannotDraw(guard.error));
      }
      assert guard.value in routers && Usable(guard.value, GUARD_FLAGS, [last]);
      var middle := selector.SelectMiddle([guard.value, last]);
      if middle.Err? {
        assert Chosen([guard.value, last], goal, routers, microdescriptors, prefer);
        assert NoMiddle(routers, weights, [guard.value, last], CannotDraw(middle.error));
        return Err(CannotDraw(middle.error));
      }
      SpreadOut(guard.value, middle.value, last);
      return Ok([guard.value, middle.value, last]);
    }

    /** The draw for a rendezvous point, which picks its last hop last. */
    method DrawRendezvous() returns (r: Result<seq<Router>, PathFault>)
      requires Valid()
      ensures r.Ok? ==> Drawn(r.value, ToRendezvous, routers, microdescriptors,
          Primary(guards.entries, routers, guards.sampleSize))
      ensures r.Err? ==> NoDraw(ToRendezvous, routers, microdescriptors, weights,
          Primary(guards.entries, routers, guards.sampleSize), r.error)
    {
      hide Primary, Drawn, NoDraw, Usable, FirstUsable, NoneUsable;
      var prefer := guards.PrimaryGuards(routers);
      PrimaryInRouters(guards.entries, routers, guards.sampleSize);
      var guard := selector.SelectGuard([], prefer);
      if guard.Err? {
        NoRendezvousGuard(routers, microdescriptors, weights, prefer, CannotDraw(guard.error));
        return Err(CannotDraw(guard.error));
      }
      var middle := selector.SelectMiddle([guard.value]);
      if middle.Err? {
        NoRendezvousMiddle([guard.value], routers, microdescriptors, weights, prefer, CannotDraw(middle.error));
        return Err(CannotDraw(middle.error));
      }
      var rp := selector.SelectMiddle([guard.value, middle.value]);
      if rp.Err? {
        NoRendezvousMiddle([guard.value, middle.value], routers, microdescriptors, weights, prefer,
                           CannotDraw(rp.error));
        return Err(CannotDraw(rp.error));
      }
      RendezvousDrawn(guard.value, middle.value, rp.value, routers, microdescriptors, prefer);
      return Ok([guard.value, middle.value, rp.value]);
    }

    /** One call of a path's `select`. */
    method Draw(goal: Goal) returns (r: Result<seq<Router>, PathFault>)
      requires Valid()
      modifies this`microdescriptors, this`requests
      ensures Valid() && old(microdescriptors.Items) <= microdescriptors.Items
      ensures r.Ok? ==> Drawn(r.value, goal, routers, microdescriptors,
          Primary(guards.entries, routers, guards.sampleSize))
      ensures r.Err? ==> r.error == FetchFailed || NoDraw(goal, routers, microdescriptors, weights,
          Primary(guards.entries, routers, guards.sampleSize), r.error)
      ensures Served(mirrors, old(requests), requests, r == Err(FetchFailed))
    {
      hide Drawn, Reaches, Primary, NoLast, NoGuard, NoMiddle, Chosen, Where;
      ghost var prefer := Primary(guards.entries, routers, guards.sampleSize);
      if goal.ToRendezvous? {
        r := DrawRendezvous();
      } else {
        var last := SelectLast(goal);
        if last.Err? {
          return Err(last.error);
        }
        r := DrawBefore(goal, last.value);
      }
      if r.Err? {
        NoDrawFaults(goal, routers, microdescriptors, weights, prefer, r.error);
      }
    }

    method InConflict(relays: seq<Router>) returns (b: bool)
      ensures b == HasFamilyConflict(relays, microdescriptors)
    {
      var i := 0;
      while i < |relays|
        invariant 0 <= i <= |relays|
        invariant forall p, q :: 0 <= p < i && p < q < |relays| ==> !InFamily(relays[p], relays[q], microdescriptors)
      {
        var j := i + 1;
        while j < |relays|
          invariant i < j <= |relays|
          invariant forall q :: i < q < j ==> !InFamily(relays[i], relays[q], microdescriptors)
        {
          if InFamily(relays[i], relays[j], microdescriptors) {
            return true;
          }
          j := j + 1;
        }
        i := i + 1;
      }
      return false;
    }

    /**
     * Draws until a draw is free of family, and at most eight times; the eighth is returned whatever it is. `draws`
     * lists every draw made.
     */
    method SelectFamilyDisjoint(goal: Goal) returns (r: Result<seq<Router>, PathFault>, ghost draws: seq<seq<Router>>)
      requires Valid()
      modifies this`microdescriptors, this`requests
      ensures Valid() && old(microdescriptors.Items) <= microdescriptors.Items
      ensures |draws| <= FAMILY_SELECT_ATTEMPTS
      ensures AllDrawn(draws, goal, routers, microdescriptors, Primary(guards.entries, routers, guards.sampleSize))
      ensures r.Ok? ==> draws != [] && r.value == draws[|draws| - 1] && Rejected(draws[..|draws| - 1], microdescriptors)
      ensures r.Ok? && |draws| < FAMILY_SELECT_ATTEMPTS ==> !HasFamilyConflict(r.value, microdescriptors)
      ensures r.Err? ==> r.error == FetchFailed || NoDraw(goal, routers, microdescriptors, weights,
          Primary(guards.entries, routers, guards.sampleSize), r.error)
      ensures Served(mirrors, old(requests), requests, r == Err(FetchFailed))
    {
      hide Drawn, HasFamilyConflict, NoDraw, Served;
      ghost var prefer := Primary(guards.entries, routers, guards.sampleSize);
      draws := [];
      r := Draw(goal);
      if r.Err? {
        return;
      }
      draws := [r.value];
      var attempt := 0;
      while attempt < FAMILY_SELECT_ATTEMPTS - 1
        invariant 0 <= attempt <= FAMILY_SELECT_ATTEMPTS - 1
        invariant Valid() && old(microdescriptors.Items) <= microdescriptors.Items
        invariant |draws| == attempt + 1 && r == Ok(draws[attempt])
        invariant AllDrawn(draws, goal, routers, microdescriptors, prefer)
        invariant Rejected(draws[..attempt], microdescriptors)
        invariant Served(mirrors, old(requests), requests, false)
      {
        ghost var was, asked := microdescriptors, requests;
        var fetched := Fetch(r.value);
        ServedThen(mirrors, old(requests), asked, requests, !fetched);
        KnowingMore(draws, goal, routers, was, microdescriptors, prefer);
        KnowingMoreRejects(draws[..attempt], was, microdescriptors);
        if !fetched {
          r := Err(FetchFailed);
          return;
        }
        var conflict := InConflict(r.value);
        if !conflict {
          return;
        }
        assert draws[..attempt + 1] == draws[..attempt] + [r.value];
        was, asked := microdescriptors, requests;
        r := Draw(goal);
        ServedThen(mirrors, old(requests), asked, requests, r == Err(FetchFailed));
        KnowingMore(draws, goal, routers, was, microdescriptors, prefer);
        KnowingMoreRejects(draws[..attempt + 1], was, microdescriptors);
        if r.Err? {
          return;
        }
        draws := draws + [r.value];
        attempt := attempt + 1;
        assert draws[..attempt] == draws[..|draws| - 1];
      }
      ghost var was, asked := microdescriptors, requests;
      var fetched := Fetch(r.value);
      ServedThen(mirrors, old(requests), asked, requests, !fetched);
      KnowingMore(draws, goal, routers, was, microdescriptors, prefer);
      KnowingMoreRejects(draws[..attempt], was, microdescriptors);
      if !fetched {
        r := Err(FetchFailed);
      }
    }

    /** `_relay_info`. */
    method Describe(router: Router) returns (r: Result<RelayInfo, PathFault>)
      ensures r.Ok? ==> DescribedBy(r.value, router, microdescriptors)
      ensures r.Ok? ==> microdescriptors[router.digest.value].onionKey == r.value.onionKey
      ensures r.Ok? ==> microdescriptors[router.digest.value].edIdentity == Some(r.value.edIdentity)
      ensures r.Ok? <==> Describable(router, microdescriptors)
      ensures r.Err? ==> r.error == if !HasDocument(router, microdescriptors) then NoMicrodescriptor else NoEdIdentity
    {
      if router.digest.None? || router.digest.value !in microdescriptors {
        return Err(NoMicrodescriptor);
      }
      var md := microdescriptors[router.digest.value];
      if md.edIdentity.None? || "NoEdConsensus" in router.flags {
        return Err(NoEdIdentity);
      }
      return Ok(RelayInfo(router.address, md.onionKey, router.fingerprint, md.edIdentity.value));
    }

    /**
     * `path_provider`, `path_to`, `rendezvous_path` and `dir_circuit_path`: three relays, in order guard, middle and
     * last, no two sharing an identity or a /16.
     */
    method Path(goal: Goal) returns (r: Result<seq<RelayInfo>, PathFault>, ghost relays: seq<Router>, ghost drawn: nat)
      requires Valid()
      modifies this`microdescriptors, this`requests
      ensures Valid() && drawn <= FAMILY_SELECT_ATTEMPTS
      ensures r.Ok? || r.error in {NoMicrodescriptor, NoEdIdentity} ==>
                && Drawn(relays, goal, routers, microdescriptors, Primary(guards.entries, routers, guards.sampleSize))
                && (drawn < FAMILY_SELECT_ATTEMPTS ==> !HasFamilyConflict(relays, microdescriptors))
      ensures r.Ok? ==> Describes(r.value, relays, microdescriptors) && Apart(r.value)
      ensures r.Err? ==>
                || r.error == FetchFailed
                || NoDraw(goal, routers, microdescriptors, weights,
                   Primary(guards.entries, routers, guards.sampleSize), r.error)
                || FirstUndescribed(relays, microdescriptors, r.error)
      ensures Served(mirrors, old(requests), requests, r == Err(FetchFailed))
    {
      hide HasFamilyConflict, Reaches, Preferred, NoDraw, Served;
      ghost var prefer := Primary(guards.entries, routers, guards.sampleSize);
      ghost var draws;
      var path;
      path, draws := SelectFamilyDisjoint(goal);
      relays, drawn := [], |draws|;
      if path.Err? {
        if path.error != FetchFailed {
          NoDrawFaults(goal, routers, microdescriptors, weights, prefer, path.error);
        }
        return Err(path.error), relays, drawn;
      }
      relays := path.value;
      assert relays in draws && Drawn(relays, goal, routers, microdescriptors, prefer);
      var guard := Describe(path.value[0]);
      if guard.Err? {
        return Err(guard.error), relays, drawn;
      }
      var middle := Describe(path.value[1]);
      if middle.Err? {
        return Err(middle.error), relays, drawn;
      }
      var last := Describe(path.value[2]);
      if last.Err? {
        return Err(last.error), relays, drawn;
      }
      r := Ok([guard.value, middle.value, last.value]);
      DescribedApart(r.value, relays, microdescriptors);
    }
  }

  predicate HasDocument(router: Router, known: map<bytes, Microdescriptor>) {
    router.digest.Some? && router.digest.value in known
  }

  predicate Describable(router: Router, known: map<bytes, Microdescriptor>) {
    && HasDocument(router, known) && known[router.digest.value].edIdentity.Some?
    && "NoEdConsensus" !in router.flags
  }

  /** `info` is the consensus entry of `router` with the keys of the router's own microdescriptor. */
  predicate DescribedBy(info: RelayInfo, router: Router, known: map<bytes, Microdescriptor>) {
    && HasDocument(router, known)
    && info.identity == router.fingerprint && info.address == router.address
    && info.onionKey == known[router.digest.value].onionKey
    && Some(info.edIdentity) == known[router.digest.value].edIdentity
  }

  predicate Describes(infos: seq<RelayInfo>, relays: seq<Router>, known: map<bytes, Microdescriptor>) {
    |infos| == |relays| && forall i :: 0 <= i < |infos| ==> DescribedBy(infos[i], relays[i], known)
  }

  /** The first relay of the path that cannot be described decides the error. */
  predicate FirstUndescribed(relays: seq<Router>, known: map<bytes, Microdescriptor>, e: PathFault) {
    exists i :: 0 <= i < |relays| && !Describable(relays[i], known)
                && (forall j :: 0 <= j < i ==> Describable(relays[j], known))
                && e == if HasDocument(relays[i], known) then NoEdIdentity else NoMicrodescriptor
  }

  lemma DescribedApart(infos: seq<RelayInfo>, relays: seq<Router>, known: map<bytes, Microdescriptor>)
    requires Describes(infos, relays, known) && Spread(relays)
    ensures Apart(infos)
  {
    forall i, j | 0 <= i < |infos| && 0 <= j < |infos| && i != j
      ensures infos[i].identity != infos[j].identity
      ensures !ShareSlash16(infos[i].address, infos[j].address)
    {
      assert !Conflicts(relays[i], relays[j]);
      ConflictsMeans(relays[i], relays[j]);
    }
  }

  /** Two addresses with the same first two fields, or the same altogether. */
  predicate ShareSlash16(a: seq<string>, b: seq<string>) {
    a == b || (|a| >= 2 && |b| >= 2 && a[0] == b[0] && a[1] == b[1])
  }

  predicate Apart(hops: seq<RelayInfo>) {
    forall i, j :: 0 <= i < |hops| && 0 <= j < |hops| && i != j ==>
      hops[i].identity != hops[j].identity && !ShareSlash16(hops[i].address, hops[j].address)
  }

  predicate AllDrawn(draws: seq<seq<Router>>, goal: Goal, routers: seq<Router>, known: map<bytes, Microdescriptor>,
                     prefer: seq<Router>) {
    forall path :: path in draws ==> Drawn(path, goal, routers, known, prefer)
  }

  predicate Rejected(draws: seq<seq<Router>>, known: map<bytes, Microdescriptor>) {
    forall path :: path in draws ==> HasFamilyConflict(path, known)
  }

  /** Documents fetched later never undo a draw, nor clear one that was rejected. */
  lemma KnowingMore(draws: seq<seq<Router>>, goal: Goal, routers: seq<Router>, was: map<bytes, Microdescriptor>,
                    now: map<bytes, Microdescriptor>, prefer: seq<Router>)
    requires AllDrawn(draws, goal, routers, was, prefer) && was.Items <= now.Items
    ensures AllDrawn(draws, goal, routers, now, prefer)
  {
    forall path | path in draws ensures Drawn(path, goal, routers, now, prefer) {
      assert Drawn(path, goal, routers, was, prefer);
      DocumentsKept(was, now, path[2]);
    }
  }

  lemma DocumentsKept(was: map<bytes, Microdescriptor>, now: map<bytes, Microdescriptor>, router: Router)
    requires was.Items <= now.Items
    ensures router.digest.Some? && router.digest.value in was ==>
              router.digest.value in now && now[router.digest.value] == was[router.digest.value]
    ensures FamilyOf(router, was) <= FamilyOf(router, now)
  {
    if router.digest.Some? && router.digest.value in was {
      assert (router.digest.value, was[router.digest.value]) in now.Items;
    }
  }

  lemma KnowingMoreRejects(draws: seq<seq<Router>>, was: map<bytes, Microdescriptor>, now: map<bytes, Microdescriptor>)
    requires Rejected(draws, was) && was.Items <= now.Items
    ensures Rejected(draws, now)
  {
    forall path | path in draws ensures HasFamilyConflict(path, now) {
      var i, j :| 0 <= i < j < |path| && InFamily(path[i], path[j], was);
      DocumentsKept(was, now, path[i]);
      DocumentsKept(was, now, path[j]);
      assert InFamily(path[i], path[j], now);
    }
  }

  /** Once every relay of a path has its document, what is known of its families is all there is to know. */
  lemma VerdictIsFinal(path: seq<Router>, was: map<bytes, Microdescriptor>, now: map<bytes, Microdescriptor>)
    requires was.Items <= now.Items
    requires forall r :: r in path ==> r.digest.Some? && r.digest.value in was
    ensures HasFamilyConflict(path, was) <==> HasFamilyConflict(path, now)
  {
    forall i, j | 0 <= i < j < |path| ensures InFamily(path[i], path[j], was) == InFamily(path[i], path[j], now) {
      DocumentsKept(was, now, path[i]);
      DocumentsKept(was, now, path[j]);
    }
  }

  lemma SpreadOut(guard: Router, middle: Router, last: Router)
    requires !Conflicts(guard, last) || !Conflicts(last, guard)
    requires !Conflicts(middle, guard) && (!Conflicts(middle, last) || !Conflicts(last, middle))
    ensures Spread([guard, middle, last])
  {
  }

  lemma {:induction false} ResolvedInRouters(entries: seq<GuardEntry>, routers: seq<Router>)
    ensures forall r :: r in Resolved(entries, ByFingerprint(routers)) ==> r in routers
  {
    if entries != [] {
      ResolvedInRouters(entries[..|entries| - 1], routers);
    }
  }

  lemma PrimaryInRouters(entries: seq<GuardEntry>, routers: seq<Router>, size: nat)
    ensures forall r :: r in Primary(entries, routers, size) ==> r in routers
  {
    ResolvedInRouters(entries, routers);
  }
}
