/** Choosing relays for the positions of a path (`_dir/pathselect.py`). */
module PathSelect {
  import opened Bytes
  import opened Relays

  function Slash16(address: seq<string>): seq<string> {
    if |address| <= 2 then address else address[..2]
  }

  predicate SameSubnet(a: Router, b: Router) {
    Slash16(a.address) == Slash16(b.address)
  }

  /** One way is enough: either relay naming the other. */
  predicate FamilyConflict(a: Fingerprint, familyA: set<Fingerprint>, b: Fingerprint, familyB: set<Fingerprint>) {
    b in familyA || a in familyB
  }

  predicate Conflicts(candidate: Router, chosen: Router) {
    || candidate.fingerprint == chosen.fingerprint
    || SameSubnet(candidate, chosen)
    || FamilyConflict(candidate.fingerprint, candidate.family, chosen.fingerprint, chosen.family)
  }

  /**
   * Two relays conflict exactly if they share a fingerprint, if one's declared family names the other, or if their
   * addresses agree in their first two fields, all their fields where there are fewer.
   */
  lemma ConflictsMeans(a: Router, b: Router)
    ensures Conflicts(a, b) <==>
              || a.fingerprint == b.fingerprint || b.fingerprint in a.family || a.fingerprint in b.family
              || a.address == b.address
              || (|a.address| >= 2 && |b.address| >= 2
                  && a.address[0] == b.address[0] && a.address[1] == b.address[1])
  {
    var x, y := Slash16(a.address), Slash16(b.address);
    if |a.address| >= 2 && |b.address| >= 2 {
      assert x == y <==> x[0] == y[0] && x[1] == y[1];
    } else {
      assert x == y ==> a.address == b.address;
    }
  }

  predicate Clear(candidate: Router, exclude: seq<Router>) {
    forall chosen :: chosen in exclude ==> !Conflicts(candidate, chosen)
  }

  predicate Usable(candidate: Router, required: set<Flag>, exclude: seq<Router>) {
    required <= candidate.flags && Clear(candidate, exclude)
  }

  /** The relays of a list usable in a position, in list order. */
  function UsableOf(routers: seq<Router>, required: set<Flag>, exclude: seq<Router>): (s: seq<Router>)
    ensures forall r :: r in s <==> r in routers && Usable(r, required, exclude)
  {
    if routers == [] then []
    else
      var last := routers[|routers| - 1];
      assert routers == routers[..|routers| - 1] + [last];
      UsableOf(routers[..|routers| - 1], required, exclude) + if Usable(last, required, exclude) then [last] else []
  }

  lemma UsableOne(r: Router, required: set<Flag>, exclude: seq<Router>)
    ensures UsableOf([r], required, exclude)
            == if required <= r.flags && (forall x :: x in exclude ==> !Conflicts(r, x)) then [r] else []
  {
    hide Conflicts;
    assert [r][..0] == [];
  }

  lemma UsableNone(required: set<Flag>, exclude: seq<Router>)
    ensures UsableOf([], required, exclude) == []
  {
  }

  lemma UsableSnoc(a: seq<Router>, r: Router, required: set<Flag>, exclude: seq<Router>)
    ensures UsableOf(a + [r], required, exclude)
            == UsableOf(a, required, exclude) + if Usable(r, required, exclude) then [r] else []
  {
    hide Usable;
    assert (a + [r])[..|a|] == a;
  }

  /** The usable relays of a list are picked out in list order. */
  lemma {:induction false} UsableInOrder(a: seq<Router>, b: seq<Router>, required: set<Flag>, exclude: seq<Router>)
    ensures UsableOf(a + b, required, exclude) == UsableOf(a, required, exclude) + UsableOf(b, required, exclude)
  {
    hide UsableOf;
    if b == [] {
      assert a + b == a;
      UsableNone(required, exclude);
    } else {
      var init, last := b[..|b| - 1], b[|b| - 1];
      UsableInOrder(a, init, required, exclude);
      assert a + b == (a + init) + [last] && b == init + [last];
      UsableSnoc(a + init, last, required, exclude);
      UsableSnoc(init, last, required, exclude);
    }
  }

  /** The `k`th relay of a list is the first that is usable. */
  predicate FirstUsable(routers: seq<Router>, k: nat, required: set<Flag>, exclude: seq<Router>) {
    && k < |routers| && Usable(routers[k], required, exclude)
    && forall j :: 0 <= j < k ==> !Usable(routers[j], required, exclude)
  }

  predicate NoneUsable(routers: seq<Router>, required: set<Flag>, exclude: seq<Router>) {
    forall r :: r in routers ==> !Usable(r, required, exclude)
  }

  class PathSelector {
    const routers: seq<Router>
    const weights: Option<Weights>

    constructor (routers: seq<Router>, weights: Option<Weights>)
      ensures this.routers == routers && this.weights == weights
    {
      this.routers, this.weights := routers, weights;
    }

    /** Fails exactly when no relay is usable or one that is cannot be weighed. */
    method Pick(required: set<Flag>, exclude: seq<Router>, position: Position) returns (r: Result<Router, DrawFault>)
      ensures match DrawFails(UsableOf(routers, required, exclude), position, weights)
              case Some(fault) => r == Err(fault)
              case None => r.Ok? && r.value in routers && Usable(r.value, required, exclude)
    {
      var candidates := [];
      var i := 0;
      while i < |routers|
        invariant 0 <= i <= |routers|
        invariant candidates == UsableOf(routers[..i], required, exclude)
      {
        var router := routers[i];
        assert routers[..i + 1][..i] == routers[..i];
        i := i + 1;
        if !(required <= router.flags) {
          continue;
        }
        if exists chosen :: chosen in exclude && Conflicts(router, chosen) {
          continue;
        }
        candidates := candidates + [router];
      }
      assert routers[..i] == routers;
      r := WeightedChoice(candidates, position, weights);
    }

    /** The first preferred relay that is still usable, or else a draw. */
    method SelectGuard(exclude: seq<Router>, prefer: seq<Router>) returns (r: Result<Router, DrawFault>)
      ensures forall k: nat :: FirstUsable(prefer, k, GUARD_FLAGS, exclude) ==> r == Ok(prefer[k])
      ensures NoneUsable(prefer, GUARD_FLAGS, exclude) ==>
                match DrawFails(UsableOf(routers, GUARD_FLAGS, exclude), Guard, weights)
                case Some(fault) => r == Err(fault)
                case None => r.Ok? && r.value in routers
      ensures r.Ok? ==> (r.value in prefer || r.value in routers) && Usable(r.value, GUARD_FLAGS, exclude)
      ensures r.Err? ==> NoneUsable(prefer, GUARD_FLAGS, exclude)
    {
      hide Usable;
      var i := 0;
      while i < |prefer|
        invariant 0 <= i <= |prefer|
        invariant forall j :: 0 <= j < i ==> !Usable(prefer[j], GUARD_FLAGS, exclude)
      {
        if Usable(prefer[i], GUARD_FLAGS, exclude) {
          return Ok(prefer[i]);
        }
        i := i + 1;
      }
      r := Pick(GUARD_FLAGS, exclude, Guard);
    }

    method SelectMiddle(exclude: seq<Router>) returns (r: Result<Router, DrawFault>)
      ensures match DrawFails(UsableOf(routers, MIDDLE_FLAGS, exclude), Middle, weights)
              case Some(fault) => r == Err(fault)
              case None => r.Ok? && r.value in routers && Usable(r.value, MIDDLE_FLAGS, exclude)
    {
      r := Pick(MIDDLE_FLAGS, exclude, Middle);
    }
  }
}
