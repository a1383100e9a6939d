/**
 * The guard sample (`_dir/guards.py`): a list of relays that only grows, marked at every consensus, whose first few
 * listed members are the primary guards.
 */
module Guards {
  import opened Bytes
  import opened Relays

  datatype GuardEntry = GuardEntry(fingerprint: Fingerprint, listed: bool)

  // --- what a sample is, and what an update makes of it ----------------------------------

  /** The fingerprints a consensus lists with every guard flag. */
  function Eligible(routers: seq<Router>): set<Fingerprint> {
    set r | r in routers && GUARD_FLAGS <= r.flags :: r.fingerprint
  }

  function Sampled(entries: seq<GuardEntry>): set<Fingerprint> {
    set e | e in entries :: e.fingerprint
  }

  predicate Distinct(entries: seq<GuardEntry>) {
    forall i, j :: 0 <= i < j < |entries| ==> entries[i].fingerprint != entries[j].fingerprint
  }

  function Listed(entries: seq<GuardEntry>): nat {
    if entries == [] then 0
    else Listed(entries[..|entries| - 1]) + (if entries[|entries| - 1].listed then 1 else 0)
  }

  predicate Marked(entries: seq<GuardEntry>, eligible: set<Fingerprint>) {
    forall i :: 0 <= i < |entries| ==> entries[i].listed == (entries[i].fingerprint in eligible)
  }

  /** The sample marked against a consensus, then extended by eligible relays not yet in it, if it was short. */
  ghost predicate Refreshed(before: seq<GuardEntry>, routers: seq<Router>, size: nat, after: seq<GuardEntry>) {
    && |before| <= |after|
    && Distinct(after)
    && (forall i :: 0 <= i < |before| ==> after[i].fingerprint == before[i].fingerprint)
    && Marked(after, Eligible(routers))
    && (forall i :: |before| <= i < |after| ==> after[i].listed)
    && (|before| < |after| ==> Listed(after) <= size)
  }

  predicate ToppedUp(routers: seq<Router>, size: nat, after: seq<GuardEntry>) {
    Listed(after) >= if |Eligible(routers)| < size then |Eligible(routers)| else size
  }

  function ByFingerprint(routers: seq<Router>): (m: map<Fingerprint, Router>)
    ensures m.Keys == set r | r in routers :: r.fingerprint
    ensures forall fp :: fp in m ==> m[fp] in routers && m[fp].fingerprint == fp
  {
    if routers == [] then map[]
    else
      var last := routers[|routers| - 1];
      assert routers == routers[..|routers| - 1] + [last];
      ByFingerprint(routers[..|routers| - 1])[last.fingerprint := last]
  }

  function Resolved(entries: seq<GuardEntry>, routers: map<Fingerprint, Router>): seq<Router> {
    if entries == [] then []
    else
      var last := entries[|entries| - 1];
      Resolved(entries[..|entries| - 1], routers)
      + if last.listed && last.fingerprint in routers then [routers[last.fingerprint]] else []
  }

  function Take<T>(n: nat, s: seq<T>): seq<T> {
    if |s| <= n then s else s[..n]
  }

  function Primary(entries: seq<GuardEntry>, routers: seq<Router>, size: nat): seq<Router> {
    Take(size, Resolved(entries, ByFingerprint(routers)))
  }

  // --- the manager -----------------------------------------------------------------------

  class GuardManager {
    const sampleSize: nat
    var entries: seq<GuardEntry>

    ghost predicate Valid()
      reads this
    {
      sampleSize >= 1 && Distinct(entries)
    }

    constructor (sampleSize: nat)
      requires sampleSize >= 1
      ensures Valid() && entries == [] && this.sampleSize == sampleSize
    {
      this.sampleSize := sampleSize;
      entries := [];
    }

    /** The checks of `__init__`: None where it raises. */
    static method Create(sampleSize: int) returns (manager: GuardManager?)
      ensures manager == null <==> sampleSize < 1
      ensures manager != null ==> fresh(manager) && manager.Valid()
      ensures manager != null ==> manager.sampleSize == sampleSize && manager.entries == []
    {
      manager := null;
      if sampleSize >= 1 {
        manager := new GuardManager(sampleSize);
      }
    }

    /** Marks every entry against the consensus. */
    method Mark(eligible: map<Fingerprint, Router>)
      requires Valid()
      modifies this`entries
      ensures Valid() && |entries| == |old(entries)|
      ensures forall i :: 0 <= i < |entries| ==>
                entries[i] == GuardEntry(old(entries)[i].fingerprint, old(entries)[i].fingerprint in eligible)
    {
      var i := 0;
      while i < |entries|
        invariant 0 <= i <= |entries| == |old(entries)|
        invariant forall k :: 0 <= k < |entries| ==> entries[k].fingerprint == old(entries)[k].fingerprint
        invariant forall k :: 0 <= k < i ==> entries[k].listed == (entries[k].fingerprint in eligible)
      {
        entries := entries[i := entries[i].(listed := entries[i].fingerprint in eligible)];
        i := i + 1;
      }
    }

    /** A draw that cannot be made leaves the sample marked, and extended by the draws before it. */
    method Update(routers: seq<Router>, weights: Option<Weights>) returns (r: Result<(), DrawFault>)
      requires Valid()
      modifies this`entries
      ensures Valid()
      ensures Refreshed(old(entries), routers, sampleSize, entries)
      ensures r.Ok? ==> ToppedUp(routers, sampleSize, entries)
      ensures weights.None? ==> r.Ok?
      ensures r.Err? ==>
                && weights.Some? && Listed(entries) < sampleSize
                && exists x :: x in routers && GUARD_FLAGS <= x.flags && x.fingerprint !in Sampled(entries)
                    && Unweighable(x, Guard, weights.value) == Some(r.error)
    {
      hide Eligible, Sampled, Unweighable, FirstUnweighable;
      var eligible := EligibleRouters(routers);
      Mark(eligible);
      var remaining := Unsampled(eligible, entries);
      while Listed(entries) < sampleSize && remaining != []
        invariant Refreshed(old(entries), routers, sampleSize, entries)
        invariant NoTwins(remaining) && Prints(remaining) == Eligible(routers) - Sampled(entries)
        invariant forall x :: x in remaining ==> x in routers && GUARD_FLAGS <= x.flags
        decreases |remaining|
      {
        var pick := WeightedChoice(remaining, Guard, weights);
        if pick.Err? {
          var x := CannotBeWeighed(remaining, weights, pick.error);
          assert x.fingerprint in Prints(remaining);
          return Err(pick.error);
        }
        RemoveCandidate(remaining, pick.value);
        RemoveOnly(remaining, pick.value);
        remaining := Remove(remaining, pick.value);
        ghost var was := entries;
        entries := entries + [GuardEntry(pick.value.fingerprint, true)];
        Extended(old(entries), routers, sampleSize, was, pick.value.fingerprint);
      }
      if Listed(entries) < sampleSize {
        assert Prints(remaining) == {};
        forall fp | fp in Eligible(routers) ensures fp in Sampled(entries) {
          assert fp !in Eligible(routers) - Sampled(entries);
        }
        EveryEligibleIsListed(entries, Eligible(routers));
      }
      return Ok(());
    }

    method PrimaryGuards(routers: seq<Router>) returns (primary: seq<Router>)
      requires Valid()
      ensures primary == Primary(entries, routers, sampleSize)
    {
      var byFingerprint := ByFingerprint(routers);
      primary := [];
      var i := 0;
      while i < |entries|
        invariant 0 <= i <= |entries|
        invariant primary == Resolved(entries[..i], byFingerprint) && |primary| < sampleSize
      {
        var entry := entries[i];
        assert entries[..i + 1][..i] == entries[..i];
        ResolvedPrefix(entries, i + 1, byFingerprint);
        i := i + 1;
        if !entry.listed {
          continue;
        }
        if entry.fingerprint in byFingerprint {
          primary := primary + [byFingerprint[entry.fingerprint]];
        }
        if |primary| == sampleSize {
          return;
        }
      }
      assert entries[..i] == entries;
    }
  }

  /** The dictionary display of `update`. */
  function EligibleRouters(routers: seq<Router>): (m: map<Fingerprint, Router>)
    ensures m.Keys == Eligible(routers)
    ensures forall fp :: fp in m ==> m[fp] in routers && m[fp].fingerprint == fp && GUARD_FLAGS <= m[fp].flags
  {
    if routers == [] then map[]
    else
      var last := routers[|routers| - 1];
      var m := EligibleRouters(routers[..|routers| - 1]);
      assert routers == routers[..|routers| - 1] + [last];
      if GUARD_FLAGS <= last.flags then m[last.fingerprint := last] else m
  }

  function Prints(routers: seq<Router>): set<Fingerprint> {
    set r | r in routers :: r.fingerprint
  }

  predicate NoTwins(routers: seq<Router>) {
    forall i, j :: 0 <= i < j < |routers| ==> routers[i].fingerprint != routers[j].fingerprint
  }

  lemma NoCandidates()
    ensures NoTwins([]) && Prints([]) == {}
  {
  }

  lemma AddCandidate(routers: seq<Router>, r: Router)
    requires NoTwins(routers) && r.fingerprint !in Prints(routers)
    ensures NoTwins(routers + [r]) && Prints(routers + [r]) == Prints(routers) + {r.fingerprint}
  {
    forall i | 0 <= i < |routers| ensures routers[i].fingerprint != r.fingerprint {
      assert routers[i] in routers;
    }
    assert forall x :: x in routers + [r] <==> x in routers || x == r;
  }

  /** In dictionary order, which the draw makes unobservable. */
  method Unsampled(eligible: map<Fingerprint, Router>, entries: seq<GuardEntry>) returns (remaining: seq<Router>)
    requires forall fp :: fp in eligible ==> eligible[fp].fingerprint == fp
    ensures NoTwins(remaining) && Prints(remaining) == eligible.Keys - Sampled(entries)
    ensures forall x :: x in remaining ==> x.fingerprint in eligible && eligible[x.fingerprint] == x
  {
    hide Sampled, NoTwins, Prints;
    NoCandidates();
    var sampled := Sampled(entries);
    var todo := eligible.Keys - sampled;
    remaining := [];
    while todo != {}
      invariant todo <= eligible.Keys - sampled
      invariant NoTwins(remaining) && Prints(remaining) == eligible.Keys - sampled - todo
      invariant forall x :: x in remaining ==> x.fingerprint in eligible && eligible[x.fingerprint] == x
      decreases |todo|
    {
      var fp :| fp in todo;
      AddCandidate(remaining, eligible[fp]);
      remaining := remaining + [eligible[fp]];
      todo := todo - {fp};
    }
  }

  /** `list.remove`. */
  function Remove(s: seq<Router>, x: Router): seq<Router> {
    if s == [] then [] else if s[0] == x then s[1..] else [s[0]] + Remove(s[1..], x)
  }

  lemma {:induction false} RemoveOnly(s: seq<Router>, x: Router)
    ensures forall r :: r in Remove(s, x) ==> r in s
  {
    if s != [] && s[0] != x {
      RemoveOnly(s[1..], x);
      assert s == [s[0]] + s[1..];
    }
  }

  lemma CannotBeWeighed(candidates: seq<Router>, weights: Option<Weights>, fault: DrawFault) returns (x: Router)
    requires candidates != [] && DrawFails(candidates, Guard, weights) == Some(fault)
    ensures weights.Some? && x in candidates && Unweighable(x, Guard, weights.value) == Some(fault)
  {
    hide WeightKey;
    DrawFailsMeans(candidates, Guard, weights);
    var i :| 0 <= i < |candidates| && WeightKey(candidates[i], Guard).Some?
      && fault == (if WeightKey(candidates[i], Guard).value in weights.value.factors then ZeroScale else MissingWeight)
      && (weights.value.scale == 0 || WeightKey(candidates[i], Guard).value !in weights.value.factors);
    x := candidates[i];
  }

  lemma {:induction false} RemoveCandidate(s: seq<Router>, pick: Router)
    requires NoTwins(s) && pick in s
    ensures Prints(Remove(s, pick)) == Prints(s) - {pick.fingerprint}
    ensures NoTwins(Remove(s, pick)) && |Remove(s, pick)| == |s| - 1
  {
    var rest := s[1..];
    assert s == [s[0]] + rest;
    assert forall r :: r in s <==> r == s[0] || r in rest;
    assert s[0].fingerprint !in Prints(rest);
    if s[0] != pick {
      RemoveCandidate(rest, pick);
      ConsCandidate(s[0], Remove(rest, pick));
    }
  }

  lemma ConsCandidate(r: Router, routers: seq<Router>)
    requires NoTwins(routers) && r.fingerprint !in Prints(routers)
    ensures NoTwins([r] + routers) && Prints([r] + routers) == {r.fingerprint} + Prints(routers)
  {
    forall i | 0 <= i < |routers| ensures routers[i].fingerprint != r.fingerprint {
      assert routers[i] in routers;
    }
    assert forall x :: x in [r] + routers <==> x == r || x in routers;
  }

  lemma AppendEntry(entries: seq<GuardEntry>, fp: Fingerprint)
    requires Distinct(entries) && fp !in Sampled(entries)
    ensures Distinct(entries + [GuardEntry(fp, true)])
    ensures Sampled(entries + [GuardEntry(fp, true)]) == Sampled(entries) + {fp}
    ensures Listed(entries + [GuardEntry(fp, true)]) == Listed(entries) + 1
  {
    var longer := entries + [GuardEntry(fp, true)];
    assert longer[..|entries|] == entries;
    forall i | 0 <= i < |entries| ensures entries[i].fingerprint != fp {
      assert entries[i] in entries;
    }
    assert forall e :: e in longer <==> e in entries || e == GuardEntry(fp, true);
  }

  lemma Extended(before: seq<GuardEntry>, routers: seq<Router>, size: nat, after: seq<GuardEntry>, fp: Fingerprint)
    requires Refreshed(before, routers, size, after) && Listed(after) < size
    requires fp in Eligible(routers) - Sampled(after)
    ensures Refreshed(before, routers, size, after + [GuardEntry(fp, true)])
    ensures Sampled(after + [GuardEntry(fp, true)]) == Sampled(after) + {fp}
  {
    hide Distinct, Sampled, Listed, Eligible;
    AppendEntry(after, fp);
  }

  /** A sample that holds every eligible relay lists them all. */
  lemma {:induction false} EveryEligibleIsListed(entries: seq<GuardEntry>, eligible: set<Fingerprint>)
    requires Distinct(entries) && Marked(entries, eligible)
    requires eligible <= Sampled(entries)
    ensures Listed(entries) == |eligible|
  {
    if entries == [] {
      assert eligible == {};
    } else {
      var rest, last := entries[..|entries| - 1], entries[|entries| - 1];
      assert entries == rest + [last];
      assert last.fingerprint !in Sampled(rest);
      EveryEligibleIsListed(rest, eligible - {last.fingerprint});
    }
  }

  lemma {:induction false} ResolvedPrefix(entries: seq<GuardEntry>, k: nat, routers: map<Fingerprint, Router>)
    requires k <= |entries|
    ensures Resolved(entries[..k], routers) <= Resolved(entries, routers)
  {
    if k < |entries| {
      ResolvedPrefix(entries[..|entries| - 1], k, routers);
      assert entries[..|entries| - 1][..k] == entries[..k];
    } else {
      assert entries[..k] == entries;
    }
  }

  // --- every sequence of consensuses -----------------------------------------------------

  /** The samples after each of a sequence of updates, successful or not, from an empty one. */
  ghost predicate History(samples: seq<seq<GuardEntry>>, consensuses: seq<seq<Router>>, size: nat) {
    && size >= 1 && |samples| == |consensuses| + 1 && samples[0] == []
    && forall i :: 0 <= i < |consensuses| ==> Refreshed(samples[i], consensuses[i], size, samples[i + 1])
  }

  /** No relay is ever sampled twice, and an earlier sample is a prefix of every later one. */
  lemma {:induction false} SampleOnlyGrows(samples: seq<seq<GuardEntry>>, consensuses: seq<seq<Router>>, size: nat,
                                           i: nat, j: nat)
    requires History(samples, consensuses, size) && i <= j < |samples|
    ensures Distinct(samples[j]) && |samples[i]| <= |samples[j]|
    ensures forall k :: 0 <= k < |samples[i]| ==> samples[j][k].fingerprint == samples[i][k].fingerprint
    decreases j
  {
    hide Listed, Marked;
    if i < j {
      assert Refreshed(samples[j - 1], consensuses[j - 1], size, samples[j]);
      SampleOnlyGrows(samples, consensuses, size, i, j - 1);
    } else if j > 0 {
      assert Refreshed(samples[j - 1], consensuses[j - 1], size, samples[j]);
    }
  }

  ghost predicate DistinctRouters(routers: seq<Router>) {
    forall r, s :: r in routers && s in routers && r.fingerprint == s.fingerprint ==> r == s
  }

  /** The eligible relays of the sample, in sample order. */
  function EligibleInOrder(entries: seq<GuardEntry>, eligible: set<Fingerprint>): seq<Fingerprint> {
    if entries == [] then []
    else
      var last := entries[|entries| - 1];
      EligibleInOrder(entries[..|entries| - 1], eligible)
      + if last.fingerprint in eligible then [last.fingerprint] else []
  }

  function Fingerprints(routers: seq<Router>): seq<Fingerprint> {
    seq(|routers|, i requires 0 <= i < |routers| => routers[i].fingerprint)
  }

  lemma {:induction false} ResolvedAreEligible(entries: seq<GuardEntry>, routers: seq<Router>)
    requires Marked(entries, Eligible(routers))
    ensures Fingerprints(Resolved(entries, ByFingerprint(routers))) == EligibleInOrder(entries, Eligible(routers))
    ensures DistinctRouters(routers) ==>
              forall r :: r in Resolved(entries, ByFingerprint(routers)) ==> r in routers && GUARD_FLAGS <= r.flags
  {
    if entries != [] {
      var rest, last := entries[..|entries| - 1], entries[|entries| - 1];
      ResolvedAreEligible(rest, routers);
      if last.listed {
        var g :| g in routers && GUARD_FLAGS <= g.flags && g.fingerprint == last.fingerprint;
        assert last.fingerprint in ByFingerprint(routers);
      }
    }
  }

  /**
   * Asked about the consensus it was last refreshed with, the manager names the first `size` eligible relays of its
   * sample, in sample order; with distinct fingerprints each is a relay that carries every guard flag.
   */
  lemma PrimaryAreFirstEligible(samples: seq<seq<GuardEntry>>, consensuses: seq<seq<Router>>, size: nat, i: nat)
    requires History(samples, consensuses, size) && i < |consensuses|
    ensures Fingerprints(Primary(samples[i + 1], consensuses[i], size))
            == Take(size, EligibleInOrder(samples[i + 1], Eligible(consensuses[i])))
    ensures DistinctRouters(consensuses[i]) ==>
              forall r :: r in Primary(samples[i + 1], consensuses[i], size) ==>
                  r in consensuses[i] && GUARD_FLAGS <= r.flags
  {
    assert Refreshed(samples[i], consensuses[i], size, samples[i + 1]);
    ResolvedAreEligible(samples[i + 1], consensuses[i]);
  }

  /** How many of the first `k` sampled relays are eligible. */
  function EligibleAhead(entries: seq<GuardEntry>, k: nat, eligible: set<Fingerprint>): nat
    requires k <= |entries|
  {
    |EligibleInOrder(entries[..k], eligible)|
  }

  lemma {:induction false} InOrderPrefix(entries: seq<GuardEntry>, k: nat, eligible: set<Fingerprint>)
    requires k <= |entries|
    ensures EligibleInOrder(entries[..k], eligible) <= EligibleInOrder(entries, eligible)
  {
    if k < |entries| {
      InOrderPrefix(entries[..|entries| - 1], k, eligible);
      assert entries[..|entries| - 1][..k] == entries[..k];
    } else {
      assert entries[..k] == entries;
    }
  }

  lemma {:induction false} InOrderFrom(entries: seq<GuardEntry>, eligible: set<Fingerprint>, fp: Fingerprint)
    ensures fp in EligibleInOrder(entries, eligible) <==> fp in Sampled(entries) && fp in eligible
  {
    if entries != [] {
      var rest, last := entries[..|entries| - 1], entries[|entries| - 1];
      InOrderFrom(rest, eligible, fp);
      assert entries == rest + [last];
      assert Sampled(entries) == Sampled(rest) + {last.fingerprint};
    }
  }

  /**
   * A sampled relay is primary exactly when it is eligible and fewer than `size` eligible ones come before it; their
   * number is then its place.
   */
  lemma {:induction false} PrimaryIff(entries: seq<GuardEntry>, k: nat, eligible: set<Fingerprint>, size: nat)
    requires Distinct(entries) && k < |entries|
    ensures entries[k].fingerprint in Take(size, EligibleInOrder(entries, eligible))
            <==> entries[k].fingerprint in eligible && EligibleAhead(entries, k, eligible) < size
    ensures entries[k].fingerprint in eligible && EligibleAhead(entries, k, eligible) < size ==>
              var primary, ahead := Take(size, EligibleInOrder(entries, eligible)), EligibleAhead(entries, k, eligible);
              ahead < |primary| && primary[ahead] == entries[k].fingerprint
    ensures EligibleAhead(entries, k + 1, eligible)
            == EligibleAhead(entries, k, eligible) + if entries[k].fingerprint in eligible then 1 else 0
    ensures EligibleAhead(entries, 0, eligible) == 0
  {
    var fp, all := entries[k].fingerprint, EligibleInOrder(entries, eligible);
    var ahead := EligibleInOrder(entries[..k], eligible);
    InOrderFrom(entries, eligible, fp);
    assert entries[..k + 1][..k] == entries[..k];
    if fp in eligible {
      assert entries[k] in entries;
      InOrderPrefix(entries, k + 1, eligible);
      assert ahead + [fp] <= all;
      InOrderOnce(entries, eligible);
      assert all[|ahead|] == fp;
    }
  }

  lemma {:induction false} InOrderOnce(entries: seq<GuardEntry>, eligible: set<Fingerprint>)
    requires Distinct(entries)
    ensures var s := EligibleInOrder(entries, eligible); forall i, j :: 0 <= i < j < |s| ==> s[i] != s[j]
  {
    if entries != [] {
      var rest, last := entries[..|entries| - 1], entries[|entries| - 1];
      InOrderOnce(rest, eligible);
      InOrderFrom(rest, eligible, last.fingerprint);
    }
  }

  lemma {:induction false} AheadCompares(a: seq<GuardEntry>, b: seq<GuardEntry>, was: set<Fingerprint>,
      now: set<Fingerprint>)
    requires |a| == |b| && forall k :: 0 <= k < |a| ==> a[k].fingerprint == b[k].fingerprint
    requires forall k :: 0 <= k < |a| && a[k].fingerprint in now ==> a[k].fingerprint in was
    ensures |EligibleInOrder(b, now)| <= |EligibleInOrder(a, was)|
  {
    if a != [] {
      AheadCompares(a[..|a| - 1], b[..|b| - 1], was, now);
    }
  }

  /**
   * The entry into the network is stable: a primary guard is primary again at any later consensus that lists it,
   * however long it was gone, unless a relay sampled before it has come back meanwhile.
   */
  lemma ReturningGuardRegainsItsPlace(samples: seq<seq<GuardEntry>>, consensuses: seq<seq<Router>>, size: nat,
                                      i: nat, j: nat, k: nat)
    requires History(samples, consensuses, size) && i <= j < |consensuses| && k < |samples[i + 1]|
    requires var fp := samples[i + 1][k].fingerprint;
             && fp in Fingerprints(Primary(samples[i + 1], consensuses[i], size))
             && fp in Eligible(consensuses[j])
    requires forall e :: e in samples[i + 1][..k] && e.fingerprint in Eligible(consensuses[j]) ==>
               e.fingerprint in Eligible(consensuses[i])
    ensures samples[i + 1][k].fingerprint in Fingerprints(Primary(samples[j + 1], consensuses[j], size))
  {
    hide Eligible, Primary, EligibleInOrder, Refreshed;
    SampleOnlyGrows(samples, consensuses, size, i + 1, j + 1);
    SampleOnlyGrows(samples, consensuses, size, i + 1, i + 1);
    PrimaryAreFirstEligible(samples, consensuses, size, i);
    PrimaryAreFirstEligible(samples, consensuses, size, j);
    PrimaryIff(samples[i + 1], k, Eligible(consensuses[i]), size);
    PrimaryIff(samples[j + 1], k, Eligible(consensuses[j]), size);
    AheadCompares(samples[i + 1][..k], samples[j + 1][..k], Eligible(consensuses[i]), Eligible(consensuses[j]));
  }
}
