/**
 * When a consensus counts as signed (`_dir/consensus.py`), against the authorities that bootstrap hands it
 * (`_client/bootstrap.py`, `_authorities_with_keys`). Parsing, digests and RSA recovery are parameters.
 */
module Quorum {
  import opened Bytes
  import opened FiniteSets

  type Identity = bytes
  type Pem = bytes
  type RsaKey = bytes

  datatype Signature = Signature(algorithm: string, identity: Identity, signingKeyDigest: bytes, signature: bytes)

  datatype Consensus = Consensus(validAfter: int, validUntil: int, signatures: seq<Signature>, routers: bytes)

  datatype Authority = Authority(nickname: string, v3ident: Identity, signingKey: Option<Pem>)

  datatype Moment = Aware(at: int) | Naive

  /** The library code that verification calls into. */
  datatype Tools = Tools(parse: string -> Option<Consensus>, load: Pem -> Option<RsaKey>, keyDigest: RsaKey -> bytes,
                         digest: (string, string) -> bytes, recover: (RsaKey, bytes) -> Option<bytes>)

  datatype Fault =
    | NoAuthorities | NaiveTime | Malformed | NotYetValid | Expired | NoSignatureItem | BadKey
    | TooFew(signers: nat, authorities: nat)

  const MARKER := "\ndirectory-signature "

  // --- the signed region -----------------------------------------------------------------

  predicate MarkerAt(text: string, i: nat) {
    i + |MARKER| <= |text| && text[i..i + |MARKER|] == MARKER
  }

  /** The index of the first `MARKER` at or after `from`, or -1. */
  function FindMarker(text: string, from: nat): (r: int)
    requires from <= |text|
    ensures r == -1 || (r >= from && MarkerAt(text, r))
    ensures forall i: nat :: from <= i && (r == -1 || i < r) ==> !MarkerAt(text, i)
    decreases |text| - from
  {
    if |text| - from < |MARKER| then -1
    else if MarkerAt(text, from) then from
    else FindMarker(text, from + 1)
  }

  function SignedRegion(text: string): Option<string> {
    var index := FindMarker(text, 0);
    if index == -1 then None else Some(text[..index + |MARKER|])
  }

  /** Whatever follows the first signature keyword is outside the region: every authority signs the same bytes. */
  lemma RegionEndsAtFirstMarker(text: string, more: string)
    requires SignedRegion(text).Some?
    ensures SignedRegion(SignedRegion(text).value + more) == SignedRegion(text)
  {
    var index: nat := FindMarker(text, 0);
    var region := text[..index + |MARKER|];
    var longer := region + more;
    forall i: nat | i <= index ensures MarkerAt(longer, i) == MarkerAt(text, i) {
      assert longer[i..i + |MARKER|] == text[i..i + |MARKER|];
    }
    assert longer[..index + |MARKER|] == region;
  }

  // --- counting signatures ---------------------------------------------------------------

  /** A dictionary display over the list: of two authorities with one identity the later stays. */
  function ByIdentity(authorities: seq<Authority>): (m: map<Identity, Authority>)
    ensures forall id :: id in m ==> m[id] in authorities && m[id].v3ident == id
    ensures m.Keys == set a | a in authorities :: a.v3ident
  {
    if authorities == [] then map[]
    else
      var last := authorities[|authorities| - 1];
      var m := ByIdentity(authorities[..|authorities| - 1]);
      assert authorities == authorities[..|authorities| - 1] + [last];
      m[last.v3ident := last]
  }

  predicate KnownAlgorithm(algorithm: string) {
    algorithm == "sha1" || algorithm == "sha256"
  }

  /** A signature whose key has to be loaded. */
  predicate Considered(known: map<Identity, Authority>, s: Signature) {
    KnownAlgorithm(s.algorithm) && s.identity in known && known[s.identity].signingKey.Some?
  }

  predicate NeedsBadKey(tools: Tools, known: map<Identity, Authority>, s: Signature) {
    Considered(known, s) && tools.load(known[s.identity].signingKey.value) == None
  }

  predicate Counts(tools: Tools, known: map<Identity, Authority>, region: string, s: Signature) {
    && Considered(known, s)
    && var key := tools.load(known[s.identity].signingKey.value);
    && key.Some?
    && tools.keyDigest(key.value) == s.signingKeyDigest
    && tools.recover(key.value, s.signature) == Some(tools.digest(s.algorithm, region))
  }

  /** The authorities with at least one signature that counts. */
  function Signers(tools: Tools, known: map<Identity, Authority>, region: string, signatures: seq<Signature>)
    : set<Identity>
  {
    set s | s in signatures && Counts(tools, known, region, s) :: s.identity
  }

  lemma NoSigners(tools: Tools, known: map<Identity, Authority>, region: string)
    ensures Signers(tools, known, region, []) == {}
  {
  }

  lemma SignersSnoc(tools: Tools, known: map<Identity, Authority>, region: string, signatures: seq<Signature>,
                    s: Signature)
    ensures Signers(tools, known, region, signatures + [s])
            == Signers(tools, known, region, signatures) + if Counts(tools, known, region, s) then {s.identity} else {}
  {
    hide Counts;
    assert forall x :: x in signatures + [s] <==> x in signatures || x == s;
  }

  /** Everything decided before a signature is looked at: the parsed document and its signed region, or the fault. */
  function Preflight(tools: Tools, text: string, count: nat, now: Moment): Result<(Consensus, string), Fault> {
    if count == 0 then Err(NoAuthorities)
    else if now.Naive? then Err(NaiveTime)
    else match tools.parse(text)
      case None => Err(Malformed)
      case Some(consensus) =>
        if now.at < consensus.validAfter then Err(NotYetValid)
        else if now.at > consensus.validUntil then Err(Expired)
        else match SignedRegion(text)
          case None => Err(NoSignatureItem)
          case Some(region) => Ok((consensus, region))
  }

  /** The majority test, saying nothing about the order in which signatures are looked at. */
  function Tally(tools: Tools, authorities: seq<Authority>, consensus: Consensus, region: string)
    : Result<Consensus, Fault>
  {
    var known := ByIdentity(authorities);
    if exists s :: s in consensus.signatures && NeedsBadKey(tools, known, s) then Err(BadKey)
    else
      var signers := |Signers(tools, known, region, consensus.signatures)|;
      if 2 * signers <= |authorities| then Err(TooFew(signers, |authorities|)) else Ok(consensus)
  }

  function Verdict(tools: Tools, text: string, authorities: seq<Authority>, now: Moment): Result<Consensus, Fault> {
    match Preflight(tools, text, |authorities|, now)
    case Err(fault) => Err(fault)
    case Ok((consensus, region)) => Tally(tools, authorities, consensus, region)
  }

  // --- what acceptance means ---------------------------------------------------------------

  /** The first place where a signature keyword follows a newline. */
  ghost predicate FirstMarker(text: string, at: nat) {
    MarkerAt(text, at) && forall j: nat :: j < at ==> !MarkerAt(text, j)
  }

  /** No later entry has the same identity. */
  predicate LastAt(authorities: seq<Authority>, k: nat) {
    k < |authorities| && forall j :: k < j < |authorities| ==> authorities[j].v3ident != authorities[k].v3ident
  }

  /** The last entry of the list for its identity, which is the one whose key is used. */
  ghost predicate Decides(authorities: seq<Authority>, a: Authority) {
    exists k: nat :: LastAt(authorities, k) && authorities[k] == a
  }

  /**
   * The signature is by the authority, over the document up to and with its first signature keyword, under the key the
   * authority is known by.
   */
  ghost predicate Signed(tools: Tools, text: string, a: Authority, s: Signature) {
    && s.identity == a.v3ident && (s.algorithm == "sha1" || s.algorithm == "sha256")
    && a.signingKey.Some? && tools.load(a.signingKey.value).Some?
    && var key := tools.load(a.signingKey.value).value;
    && tools.keyDigest(key) == s.signingKeyDigest
    && exists at: nat :: FirstMarker(text, at)
                    && tools.recover(key, s.signature) == Some(tools.digest(s.algorithm, text[..at + |MARKER|]))
  }

  ghost predicate HasSigned(tools: Tools, text: string, authorities: seq<Authority>, doc: Consensus, id: Identity) {
    exists a, s :: Decides(authorities, a) && a.v3ident == id && s in doc.signatures && Signed(tools, text, a, s)
  }

  /** Everything a document needs. */
  ghost predicate Acceptable(tools: Tools, text: string, authorities: seq<Authority>, now: Moment) {
    && authorities != [] && now.Aware? && tools.parse(text).Some? && (exists at: nat :: FirstMarker(text, at))
    && var doc := tools.parse(text).value;
    && doc.validAfter <= now.at <= doc.validUntil
    && !UsesBadKey(tools, authorities, doc)
    && 2 * |SignedIdentities(tools, text, authorities, doc)| > |authorities|
  }

  lemma LastAtSnoc(rest: seq<Authority>, last: Authority, k: nat)
    ensures LastAt(rest + [last], k)
       <==> k == |rest| || (LastAt(rest, k) && rest[k].v3ident != last.v3ident)
  {
    var all := rest + [last];
    if k < |rest| {
      assert all[k] == rest[k] && all[|rest|] == last;
      assert forall j :: k < j < |rest| ==> all[j] == rest[j];
    }
  }

  lemma {:induction false} ByIdentityDecides(authorities: seq<Authority>, a: Authority)
    ensures Decides(authorities, a) <==> a.v3ident in ByIdentity(authorities) && ByIdentity(authorities)[a.v3ident] == a
  {
    hide LastAt;
    if authorities == [] {
      assert !Decides(authorities, a) by { NoneDecides(a); }
    } else {
      var rest, last := authorities[..|authorities| - 1], authorities[|authorities| - 1];
      assert authorities == rest + [last];
      ByIdentityDecides(rest, a);
      forall k: nat
        ensures LastAt(authorities, k)
           <==> k == |rest| || (k < |rest| && LastAt(rest, k) && rest[k].v3ident != last.v3ident)
        ensures LastAt(authorities, k) ==> k < |authorities|
        ensures LastAt(rest, k) ==> k < |rest|
      {
        LastAtSnoc(rest, last, k);
        LastAtBelow(authorities, k);
        LastAtBelow(rest, k);
      }
      if a == last {
        assert LastAt(authorities, |rest|);
      } else if Decides(rest, a) {
        var k: nat :| LastAt(rest, k) && rest[k] == a;
        assert authorities[k] == a;
      }
      if Decides(authorities, a) && a != last {
        var k: nat :| LastAt(authorities, k) && authorities[k] == a;
        assert LastAt(rest, k) && rest[k] == a;
      }
    }
  }

  lemma NoneDecides(a: Authority)
    ensures !Decides([], a)
  {
  }

  lemma LastAtBelow(authorities: seq<Authority>, k: nat)
    ensures LastAt(authorities, k) ==> k < |authorities|
  {
  }

  lemma RegionAtFirstMarker(text: string)
    ensures SignedRegion(text).Some? <==> exists at: nat :: FirstMarker(text, at)
    ensures forall at: nat :: FirstMarker(text, at) ==> SignedRegion(text) == Some(text[..at + |MARKER|])
  {
    var found := FindMarker(text, 0);
    if found != -1 {
      assert FirstMarker(text, found);
    }
    forall at: nat | FirstMarker(text, at) ensures SignedRegion(text) == Some(text[..at + |MARKER|]) {
      assert found == at;
    }
  }

  /** The entry whose key is used for an identity of the list. */
  lemma DecidingEntry(authorities: seq<Authority>, id: Identity)
    requires id in ByIdentity(authorities)
    ensures Decides(authorities, ByIdentity(authorities)[id]) && ByIdentity(authorities)[id].v3ident == id
    ensures forall a :: Decides(authorities, a) && a.v3ident == id ==> a == ByIdentity(authorities)[id]
  {
    hide ByIdentity, Decides;
    ByIdentityDecides(authorities, ByIdentity(authorities)[id]);
    forall a | Decides(authorities, a) && a.v3ident == id ensures a == ByIdentity(authorities)[id] {
      ByIdentityDecides(authorities, a);
    }
  }

  lemma DecidesListed(authorities: seq<Authority>, a: Authority)
    requires Decides(authorities, a)
    ensures a.v3ident in ByIdentity(authorities) && ByIdentity(authorities)[a.v3ident] == a
  {
    ByIdentityDecides(authorities, a);
  }

  lemma CountsIsSigned(tools: Tools, text: string, authorities: seq<Authority>, region: string, s: Signature)
    requires SignedRegion(text) == Some(region)
    ensures Counts(tools, ByIdentity(authorities), region, s)
       <==> exists a :: Decides(authorities, a) && Signed(tools, text, a, s)
  {
    hide ByIdentity, Decides, SignedRegion;
    RegionAtFirstMarker(text);
    if Counts(tools, ByIdentity(authorities), region, s) {
      DecidingEntry(authorities, s.identity);
      assert Signed(tools, text, ByIdentity(authorities)[s.identity], s);
    }
    forall a | Decides(authorities, a) && Signed(tools, text, a, s)
      ensures Counts(tools, ByIdentity(authorities), region, s)
    {
      DecidesListed(authorities, a);
    }
  }

  ghost predicate UsesBadKey(tools: Tools, authorities: seq<Authority>, doc: Consensus) {
    exists a, s :: Decides(authorities, a) && s in doc.signatures && Unusable(tools, a, s)
  }

  /** The signature is said to be by the authority, whose key does not load. */
  predicate Unusable(tools: Tools, a: Authority, s: Signature) {
    && s.identity == a.v3ident && (s.algorithm == "sha1" || s.algorithm == "sha256")
    && a.signingKey.Some? && tools.load(a.signingKey.value).None?
  }

  lemma BadKeyIsUsed(tools: Tools, authorities: seq<Authority>, doc: Consensus)
    ensures (exists s :: s in doc.signatures && NeedsBadKey(tools, ByIdentity(authorities), s))
       <==> UsesBadKey(tools, authorities, doc)
  {
    hide ByIdentity, Decides;
    forall s | s in doc.signatures && NeedsBadKey(tools, ByIdentity(authorities), s)
      ensures UsesBadKey(tools, authorities, doc)
    {
      DecidingEntry(authorities, s.identity);
      assert Unusable(tools, ByIdentity(authorities)[s.identity], s);
    }
    forall a, s | Decides(authorities, a) && s in doc.signatures && Unusable(tools, a, s)
      ensures NeedsBadKey(tools, ByIdentity(authorities), s)
    {
      DecidesListed(authorities, a);
    }
  }

  /** The identities of the list that have signed. */
  ghost function SignedIdentities(tools: Tools, text: string, authorities: seq<Authority>,
      doc: Consensus): set<Identity> {
    set a | a in authorities && HasSigned(tools, text, authorities, doc, a.v3ident) :: a.v3ident
  }

  lemma SignersHaveSigned(tools: Tools, text: string, authorities: seq<Authority>, region: string, doc: Consensus)
    requires SignedRegion(text) == Some(region)
    ensures Signers(tools, ByIdentity(authorities), region, doc.signatures)
            == SignedIdentities(tools, text, authorities, doc)
  {
    hide Counts, Signed, Decides, SignedRegion, ByIdentity;
    var signers, signed :=
      Signers(tools, ByIdentity(authorities), region, doc.signatures), SignedIdentities(tools, text, authorities, doc);
    forall id | id in signers ensures id in signed {
      var s :| s in doc.signatures && Counts(tools, ByIdentity(authorities), region, s) && s.identity == id;
      CountsIsSigned(tools, text, authorities, region, s);
      var a :| Decides(authorities, a) && Signed(tools, text, a, s);
      SignedBy(tools, text, a, s);
      DecidesListed(authorities, a);
    }
    forall id | id in signed ensures id in signers {
      var a, s :| Decides(authorities, a) && a.v3ident == id && s in doc.signatures && Signed(tools, text, a, s);
      CountsIsSigned(tools, text, authorities, region, s);
      SignedBy(tools, text, a, s);
    }
  }

  lemma SignedBy(tools: Tools, text: string, a: Authority, s: Signature)
    requires Signed(tools, text, a, s)
    ensures s.identity == a.v3ident
  {
  }

  /**
   * A document is accepted exactly when it can be parsed, is live, every authority that it names as a signer has a key
   * that loads if it has one, and more than half as many authorities as the list has entries have signed it: each with
   * a signature that recovers, under the key it is known by, to the digest of the text up to its first signature
   * keyword.
   */
  lemma AcceptedIff(tools: Tools, text: string, authorities: seq<Authority>, now: Moment)
    ensures Verdict(tools, text, authorities, now).Ok? <==> Acceptable(tools, text, authorities, now)
    ensures Acceptable(tools, text, authorities, now) ==>
              Verdict(tools, text, authorities, now) == Ok(tools.parse(text).value)
  {
    RegionAtFirstMarker(text);
    if tools.parse(text).Some? {
      var doc := tools.parse(text).value;
      BadKeyIsUsed(tools, authorities, doc);
      if SignedRegion(text).Some? {
        SignersHaveSigned(tools, text, authorities, SignedRegion(text).value, doc);
      }
    }
    hide SignedRegion, Signers, SignedIdentities, NeedsBadKey, UsesBadKey, FirstMarker, ByIdentity;
  }

  /** A rejection says what is wrong with the document. */
  lemma RejectionMeans(tools: Tools, text: string, authorities: seq<Authority>, now: Moment)
    ensures match Verdict(tools, text, authorities, now)
            case Ok(doc) => tools.parse(text) == Some(doc)
            case Err(NoAuthorities) => authorities == []
            case Err(NaiveTime) => now.Naive?
            case Err(Malformed) => tools.parse(text) == None
            case Err(NotYetValid) =>
              now.Aware? && tools.parse(text).Some? && now.at < tools.parse(text).value.validAfter
            case Err(Expired) =>
              now.Aware? && tools.parse(text).Some? && now.at > tools.parse(text).value.validUntil
            case Err(NoSignatureItem) => forall at: nat :: !FirstMarker(text, at)
            case Err(BadKey) => tools.parse(text).Some? && UsesBadKey(tools, authorities, tools.parse(text).value)
            case Err(TooFew(signers, entries)) =>
              && entries == |authorities| && 2 * signers <= entries && tools.parse(text).Some?
              && signers == |SignedIdentities(tools, text, authorities, tools.parse(text).value)|
  {
    RegionAtFirstMarker(text);
    if tools.parse(text).Some? {
      var doc := tools.parse(text).value;
      BadKeyIsUsed(tools, authorities, doc);
      if SignedRegion(text).Some? {
        SignersHaveSigned(tools, text, authorities, SignedRegion(text).value, doc);
      }
    }
    hide SignedRegion, Signers, SignedIdentities, NeedsBadKey, UsesBadKey, FirstMarker, ByIdentity;
  }

  method VerifyConsensus(tools: Tools, text: string, authorities: seq<Authority>, now: Moment)
    returns (r: Result<Consensus, Fault>)
    ensures r == Verdict(tools, text, authorities, now)
    ensures r.Ok? <==> Acceptable(tools, text, authorities, now)
  {
    AcceptedIff(tools, text, authorities, now);
    hide Acceptable;
    if |authorities| == 0 {
      return Err(NoAuthorities);
    }
    if now.Naive? {
      return Err(NaiveTime);
    }
    var parsed := tools.parse(text);
    if parsed.None? {
      return Err(Malformed);
    }
    var consensus := parsed.value;
    if now.at < consensus.validAfter {
      return Err(NotYetValid);
    }
    if now.at > consensus.validUntil {
      return Err(Expired);
    }
    var region := SignedRegion(text);
    if region.None? {
      return Err(NoSignatureItem);
    }
    hide SignedRegion, Signers;
    var byIdentity := ByIdentity(authorities);
    var verified: set<Identity> := {};
    var i := 0;
    assert consensus.signatures[..0] == [];
    NoSigners(tools, byIdentity, region.value);
    while i < |consensus.signatures|
      invariant 0 <= i <= |consensus.signatures|
      invariant forall s :: s in consensus.signatures[..i] ==> !NeedsBadKey(tools, byIdentity, s)
      invariant verified == Signers(tools, byIdentity, region.value, consensus.signatures[..i])
    {
      var s := consensus.signatures[i];
      assert consensus.signatures[..i + 1] == consensus.signatures[..i] + [s];
      SignersSnoc(tools, byIdentity, region.value, consensus.signatures[..i], s);
      i := i + 1;
      if !KnownAlgorithm(s.algorithm) || s.identity !in byIdentity {
        continue;
      }
      var pem := byIdentity[s.identity].signingKey;
      if pem.None? {
        continue;
      }
      var key := tools.load(pem.value);
      if key.None? {
        assert NeedsBadKey(tools, byIdentity, s);
        return Err(BadKey);
      }
      if tools.keyDigest(key.value) != s.signingKeyDigest {
        continue;
      }
      if tools.recover(key.value, s.signature) == Some(tools.digest(s.algorithm, region.value)) {
        verified := verified + {s.identity};
      }
    }
    assert consensus.signatures[..i] == consensus.signatures;
    if 2 * |verified| <= |authorities| {
      return Err(TooFew(|verified|, |authorities|));
    }
    return Ok(consensus);
  }

  // --- quorums ---------------------------------------------------------------------------

  predicate Bare(a: Authority) {
    a.signingKey.None?
  }

  /** How many entries of the list satisfy a predicate. */
  function Count(authorities: seq<Authority>, p: Authority -> bool): nat {
    if authorities == [] then 0
    else Count(authorities[..|authorities| - 1], p) + (if p(authorities[|authorities| - 1]) then 1 else 0)
  }

  function Identities(authorities: seq<Authority>, p: Authority -> bool): set<Identity> {
    set a | a in authorities && p(a) :: a.v3ident
  }

  /** Entries may share an identity, so identities never outnumber entries. */
  lemma {:induction false} IdentitiesAtMost(authorities: seq<Authority>, p: Authority -> bool)
    ensures |Identities(authorities, p)| <= Count(authorities, p) <= |authorities|
  {
    if authorities != [] {
      var rest, last := authorities[..|authorities| - 1], authorities[|authorities| - 1];
      IdentitiesAtMost(rest, p);
      assert authorities == rest + [last];
      assert Identities(authorities, p) == Identities(rest, p) + (if p(last) then {last.v3ident} else {});
    }
  }

  lemma AcceptableHalf(tools: Tools, text: string, authorities: seq<Authority>, now: Moment)
    requires Acceptable(tools, text, authorities, now)
    ensures var doc := tools.parse(text).value;
            2 * |Identities(authorities, (a: Authority) => HasSigned(tools, text, authorities, doc, a.v3ident))|
            > |authorities|
  {
    hide HasSigned, UsesBadKey, FirstMarker;
    var doc := tools.parse(text).value;
    assert Identities(authorities, (a: Authority) => HasSigned(tools, text, authorities, doc, a.v3ident))
        == SignedIdentities(tools, text, authorities, doc);
  }

  /** In entries: more than half of an accepted document's list are for authorities that have signed it. */
  lemma MoreThanHalfSigned(tools: Tools, text: string, authorities: seq<Authority>, now: Moment)
    requires Verdict(tools, text, authorities, now).Ok?
    ensures var doc := tools.parse(text).value;
            2 * Count(authorities, (a: Authority) => HasSigned(tools, text, authorities, doc,
                a.v3ident)) > |authorities|
  {
    var doc := tools.parse(text).value;
    hide HasSigned, Verdict, UsesBadKey, FirstMarker, Acceptable, Count;
    AcceptedIff(tools, text, authorities, now);
    AcceptableHalf(tools, text, authorities, now);
    IdentitiesAtMost(authorities, (a: Authority) => HasSigned(tools, text, authorities, doc, a.v3ident));
  }

  lemma SignersAreAuthorities(tools: Tools, authorities: seq<Authority>, region: string, signatures: seq<Signature>)
    ensures Signers(tools, ByIdentity(authorities), region, signatures) <= Identities(authorities, _ => true)
  {
  }

  /** The authorities a document was accepted on. */
  function AcceptedSigners(tools: Tools, text: string, authorities: seq<Authority>, now: Moment): set<Identity>
    requires Verdict(tools, text, authorities, now).Ok?
  {
    var (consensus, region) := Preflight(tools, text, |authorities|, now).value;
    Signers(tools, ByIdentity(authorities), region, consensus.signatures)
  }

  lemma AcceptedIsMajority(tools: Tools, authorities: seq<Authority>, text: string, now: Moment)
    requires Verdict(tools, text, authorities, now).Ok?
    ensures var signers := AcceptedSigners(tools, text, authorities, now);
            var all := Identities(authorities, _ => true);
            signers <= all && 2 * |signers| > |all|
  {
    var (consensus, region) := Preflight(tools, text, |authorities|, now).value;
    SignersAreAuthorities(tools, authorities, region, consensus.signatures);
    hide ByIdentity, Counts, Preflight, Signers, NeedsBadKey;
    IdentitiesAtMost(authorities, _ => true);
  }

  lemma MajoritiesMeet<T>(a: set<T>, b: set<T>, all: set<T>)
    requires a <= all && b <= all && 2 * |a| > |all| && 2 * |b| > |all|
    ensures exists x :: x in a && x in b
  {
    SubsetCount(a + b, all);
    assert |a + b| == |a| + |b| - |a * b|;
    assert a * b != {};
    var x :| x in a * b;
  }

  /** Any two documents accepted against one authority list share an authority that validly signed both. */
  lemma QuorumIntersection(tools: Tools, authorities: seq<Authority>, text: string, now: Moment, text': string,
      now': Moment)
    requires Verdict(tools, text, authorities, now).Ok? && Verdict(tools, text', authorities, now').Ok?
    ensures exists id :: id in AcceptedSigners(tools, text, authorities, now)
                         && id in AcceptedSigners(tools, text', authorities, now')
  {
    hide Verdict, ByIdentity, Counts, Preflight, Signers;
    var all := Identities(authorities, _ => true);
    AcceptedIsMajority(tools, authorities, text, now);
    AcceptedIsMajority(tools, authorities, text', now');
    MajoritiesMeet(AcceptedSigners(tools, text, authorities, now),
                   AcceptedSigners(tools, text', authorities, now'), all);
  }

  /** Two parses that differ only in the order and repetition of their signatures. */
  ghost predicate SameUpToSignatures(a: Consensus, b: Consensus) {
    && a.(signatures := []) == b.(signatures := [])
    && (forall s :: s in a.signatures <==> s in b.signatures)
  }

  /** Repeating or permuting signatures changes nothing: neither the outcome, nor the fault, nor the count in it. */
  lemma SignatureOrderIrrelevant(tools: Tools, authorities: seq<Authority>, now: Moment, text: string, text': string)
    requires SignedRegion(text) == SignedRegion(text')
    requires tools.parse(text).Some? && tools.parse(text').Some?
    requires SameUpToSignatures(tools.parse(text).value, tools.parse(text').value)
    ensures match Verdict(tools, text, authorities, now)
            case Ok(c) => Verdict(tools, text', authorities, now) == Ok(tools.parse(text').value)
            case Err(fault) => Verdict(tools, text', authorities, now) == Err(fault)
  {
    var c, c' := tools.parse(text).value, tools.parse(text').value;
    if SignedRegion(text).Some? {
      var known, region := ByIdentity(authorities), SignedRegion(text).value;
      assert Signers(tools, known, region, c.signatures) == Signers(tools, known, region, c'.signatures);
    }
  }

  // --- the authority list that bootstrap builds -------------------------------------------

  function Keyed(a: Authority, certs: map<Identity, Pem>): Authority {
    if a.v3ident in certs then a.(signingKey := Some(certs[a.v3ident])) else a
  }

  function KeyedAll(authorities: seq<Authority>, certs: map<Identity, Pem>): (r: seq<Authority>)
    ensures |r| == |authorities|
  {
    seq(|authorities|, i requires 0 <= i < |authorities| => Keyed(authorities[i], certs))
  }

  method AuthoritiesWithKeys(authoritySet: seq<Authority>, certs: map<Identity, Pem>) returns (result: seq<Authority>)
    ensures result == KeyedAll(authoritySet, certs)
    ensures forall i :: 0 <= i < |result| ==>
              && result[i].v3ident == authoritySet[i].v3ident && result[i].nickname == authoritySet[i].nickname
              && result[i].signingKey
                 == if authoritySet[i].v3ident in certs then Some(certs[authoritySet[i].v3ident])
                    else authoritySet[i].signingKey
  {
    result := [];
    var i := 0;
    while i < |authoritySet|
      invariant 0 <= i <= |authoritySet| && |result| == i
      invariant forall k :: 0 <= k < i ==> result[k] == Keyed(authoritySet[k], certs)
    {
      var authority := authoritySet[i];
      if authority.v3ident in certs {
        result := result + [authority.(signingKey := Some(certs[authority.v3ident]))];
      } else {
        result := result + [authority];
      }
      i := i + 1;
    }
  }

  /** Keying commutes with the dictionary: it never changes an identity. */
  lemma {:induction false} KeyedByIdentity(authorities: seq<Authority>, certs: map<Identity, Pem>)
    ensures ByIdentity(KeyedAll(authorities, certs)).Keys == ByIdentity(authorities).Keys
    ensures forall id :: id in ByIdentity(authorities) ==>
              ByIdentity(KeyedAll(authorities, certs))[id] == Keyed(ByIdentity(authorities)[id], certs)
  {
    if authorities != [] {
      var rest := authorities[..|authorities| - 1];
      KeyedByIdentity(rest, certs);
      assert KeyedAll(authorities, certs)[..|authorities| - 1] == KeyedAll(rest, certs);
    }
  }

  /** Certificates with some lost on the way; an authority that loses its own falls back to having no key. */
  ghost predicate Truncated(authorities: seq<Authority>, certs: map<Identity, Pem>, fewer: map<Identity, Pem>) {
    && (forall a :: a in authorities && a.v3ident in fewer ==>
        a.v3ident in certs && fewer[a.v3ident] == certs[a.v3ident])
    && (forall a :: a in authorities && a.v3ident in certs && a.v3ident !in fewer ==> Bare(a))
  }

  /** A signature that counts with fewer certificates counts the same way with all of them. */
  lemma TruncationAddsNoSigner(tools: Tools, authorities: seq<Authority>, certs: map<Identity, Pem>,
                               fewer: map<Identity, Pem>, region: string, s: Signature)
    requires Truncated(authorities, certs, fewer)
    requires Counts(tools, ByIdentity(KeyedAll(authorities, fewer)), region, s)
    ensures Counts(tools, ByIdentity(KeyedAll(authorities, certs)), region, s)
  {
    KeyedByIdentity(authorities, certs);
    KeyedByIdentity(authorities, fewer);
    var a := ByIdentity(authorities)[s.identity];
    assert a in authorities && a.v3ident == s.identity;
  }

  lemma TruncatedSigners(tools: Tools, authorities: seq<Authority>, certs: map<Identity, Pem>,
                         fewer: map<Identity, Pem>, region: string, signatures: seq<Signature>)
    requires Truncated(authorities, certs, fewer)
    ensures Signers(tools, ByIdentity(KeyedAll(authorities, fewer)), region, signatures)
         <= Signers(tools, ByIdentity(KeyedAll(authorities, certs)), region, signatures)
  {
    hide Counts, ByIdentity, Truncated;
    var few := ByIdentity(KeyedAll(authorities, fewer));
    forall s | s in signatures && Counts(tools, few, region, s)
      ensures Counts(tools, ByIdentity(KeyedAll(authorities, certs)), region, s)
    {
      TruncationAddsNoSigner(tools, authorities, certs, fewer, region, s);
    }
  }

  /** A signature that an authority could have made, whose fetched key does not load. */
  predicate FetchedBadKey(tools: Tools, authorities: seq<Authority>, certs: map<Identity, Pem>, s: Signature) {
    KnownAlgorithm(s.algorithm) && s.identity in ByIdentity(authorities) && s.identity in certs
    && tools.load(certs[s.identity]).None?
  }

  lemma TruncationAddsNoBadKey(tools: Tools, authorities: seq<Authority>, certs: map<Identity, Pem>,
                               fewer: map<Identity, Pem>, s: Signature)
    requires Truncated(authorities, certs, fewer)
    ensures NeedsBadKey(tools, ByIdentity(KeyedAll(authorities, certs)), s)
       ==> NeedsBadKey(tools, ByIdentity(KeyedAll(authorities, fewer)), s)
           || FetchedBadKey(tools, authorities, certs, s)
    ensures FetchedBadKey(tools, authorities, certs, s) ==>
        NeedsBadKey(tools, ByIdentity(KeyedAll(authorities, certs)), s)
  {
    KeyedByIdentity(authorities, certs);
    KeyedByIdentity(authorities, fewer);
  }

  /** The count alone, of a document and its signed region. */
  lemma TallyWithAllIff(tools: Tools, authorities: seq<Authority>, certs: map<Identity, Pem>,
                        fewer: map<Identity, Pem>, consensus: Consensus, region: string)
    requires Truncated(authorities, certs, fewer)
    requires Tally(tools, KeyedAll(authorities, fewer), consensus, region).Ok?
    ensures Tally(tools, KeyedAll(authorities, certs), consensus, region).Ok?
       <==> forall s :: s in consensus.signatures ==> !FetchedBadKey(tools, authorities, certs, s)
    ensures Tally(tools, KeyedAll(authorities, certs), consensus, region).Ok? ==>
              Tally(tools, KeyedAll(authorities, certs), consensus, region) == Ok(consensus)
  {
    hide Signers, ByIdentity, NeedsBadKey, KeyedAll, Truncated, FetchedBadKey;
    var few := Signers(tools, ByIdentity(KeyedAll(authorities, fewer)), region, consensus.signatures);
    var all := Signers(tools, ByIdentity(KeyedAll(authorities, certs)), region, consensus.signatures);
    TruncatedSigners(tools, authorities, certs, fewer, region, consensus.signatures);
    SubsetCount(few, all);
    forall s | s in consensus.signatures
      ensures NeedsBadKey(tools, ByIdentity(KeyedAll(authorities, certs)), s)
          <==> FetchedBadKey(tools, authorities, certs, s)
    {
      TruncationAddsNoBadKey(tools, authorities, certs, fewer, s);
    }
  }

  lemma PreflightParses(tools: Tools, text: string, count: nat, now: Moment)
    requires Preflight(tools, text, count, now).Ok?
    ensures tools.parse(text) == Some(Preflight(tools, text, count, now).value.0)
  {
  }

  lemma TallyAccepts(tools: Tools, authorities: seq<Authority>, consensus: Consensus, region: string)
    requires Tally(tools, authorities, consensus, region).Ok?
    ensures Tally(tools, authorities, consensus, region) == Ok(consensus)
  {
  }

  /**
   * For any certificates whatever: a document accepted with fewer is accepted with all, exactly when none of its
   * signatures names an authority whose fetched key does not load.
   */
  lemma AcceptedWithAllIff(tools: Tools, text: string, authorities: seq<Authority>, certs: map<Identity, Pem>,
                           fewer: map<Identity, Pem>, now: Moment)
    requires Truncated(authorities, certs, fewer)
    requires Verdict(tools, text, KeyedAll(authorities, fewer), now).Ok?
    ensures Verdict(tools, text, KeyedAll(authorities, certs), now).Ok?
       <==> forall s :: s in tools.parse(text).value.signatures ==> !FetchedBadKey(tools, authorities, certs, s)
    ensures Verdict(tools, text, KeyedAll(authorities, certs), now).Ok? ==>
              Verdict(tools, text, KeyedAll(authorities, certs), now)
              == Verdict(tools, text, KeyedAll(authorities, fewer), now)
  {
    hide Tally, Preflight, KeyedAll, Truncated, FetchedBadKey;
    var (consensus, region) := Preflight(tools, text, |authorities|, now).value;
    PreflightParses(tools, text, |authorities|, now);
    TallyWithAllIff(tools, authorities, certs, fewer, consensus, region);
    TallyAccepts(tools, KeyedAll(authorities, fewer), consensus, region);
  }

  /** `KeyCerts.FetchedKeysLoad`: no other key is ever fetched. */
  ghost predicate AllLoad(tools: Tools, certs: map<Identity, Pem>) {
    forall id :: id in certs ==> tools.load(certs[id]).Some?
  }

  /**
   * Losing fetched certificates, whichever they are, never gets a document accepted that all of them together would
   * not: the verdict with fewer, if it is acceptance, is the verdict with all.
   */
  lemma TruncationNeverHelps(tools: Tools, text: string, authorities: seq<Authority>, certs: map<Identity, Pem>,
                             fewer: map<Identity, Pem>, now: Moment)
    requires Truncated(authorities, certs, fewer) && AllLoad(tools, certs)
    requires Verdict(tools, text, KeyedAll(authorities, fewer), now).Ok?
    ensures Verdict(tools, text, KeyedAll(authorities, certs), now)
            == Verdict(tools, text, KeyedAll(authorities, fewer), now)
  {
    hide Verdict, Truncated, ByIdentity;
    AcceptedWithAllIff(tools, text, authorities, certs, fewer, now);
  }

  // --- nothing weaker would do -------------------------------------------------------------

  /** The authorities whose key was fetched. */
  function Certified(authorities: seq<Authority>, certs: map<Identity, Pem>): set<Identity> {
    Identities(authorities, (a: Authority) => a.v3ident in certs)
  }

  /** A library in which a signature is its key, so that only the right key recovers it. */
  function Ideal(signatures: seq<Signature>): Tools {
    Tools(_ => Some(Consensus(0, 0, signatures, [])), pem => Some(pem), key => key, (_, _) => [],
          (key, signature) => if key == signature then Some([]) else None)
  }

  function SignedWith(id: Identity, key: Pem): Signature {
    Signature("sha1", id, key, key)
  }

  /** What the authorities `ids` sign, each with its key in `keys`. */
  lemma {:induction false} Sign(ids: set<Identity>, keys: map<Identity, Pem>) returns (signatures: seq<Signature>)
    requires ids <= keys.Keys
    ensures forall s :: s in signatures <==> s.identity in ids && s == SignedWith(s.identity, keys[s.identity])
  {
    if ids == {} {
      return [];
    }
    var id :| id in ids;
    var rest := Sign(ids - {id}, keys);
    signatures := [SignedWith(id, keys[id])] + rest;
  }

  lemma {:induction false} SubsetOfSize(ids: set<Identity>, id: Identity, size: nat) returns (some: set<Identity>)
    requires id in ids && 1 <= size <= |ids|
    ensures id in some && some <= ids && |some| == size
    decreases |ids|
  {
    if size == |ids| {
      return ids;
    }
    assert |ids - {id}| > 0;
    var other :| other in ids - {id};
    some := SubsetOfSize(ids - {other}, id, size);
  }

  lemma IdealCounts(authorities: seq<Authority>, keys: map<Identity, Pem>, region: string, signatures: seq<Signature>,
                    s: Signature)
    requires forall a :: a in authorities ==> Bare(a)
    requires s.identity in ByIdentity(authorities) && s == SignedWith(s.identity, s.signature)
    ensures Counts(Ideal(signatures), ByIdentity(KeyedAll(authorities, keys)), region, s)
       <==> s.identity in keys && keys[s.identity] == s.signature
    ensures !NeedsBadKey(Ideal(signatures), ByIdentity(KeyedAll(authorities, keys)), s)
  {
    KeyedByIdentity(authorities, keys);
  }

  lemma MarkerAlone()
    ensures SignedRegion(MARKER) == Some(MARKER)
  {
    assert MARKER[0..|MARKER|] == MARKER == MARKER[..|MARKER|];
    assert MarkerAt(MARKER, 0);
  }

  /**
   * That certificates are lost and not exchanged is needed: wherever fewer certificates, enough for a majority, hold
   * another key for one of the authorities, some document is accepted with them and has too few signatures without.
   */
  lemma ExchangedKeyHelps(authorities: seq<Authority>, certs: map<Identity, Pem>, fewer: map<Identity, Pem>,
      id: Identity)
    returns (tools: Tools, text: string, now: Moment, signatures: seq<Signature>)
    requires forall a :: a in authorities ==> Bare(a)
    requires 2 * |Certified(authorities, fewer)| > |authorities|
    requires id in Certified(authorities, fewer) && (id in certs ==> certs[id] != fewer[id])
    ensures tools == Ideal(signatures) && AllLoad(tools, certs) && AllLoad(tools, fewer)
    ensures Verdict(tools, text, KeyedAll(authorities, fewer), now).Ok?
    ensures var full := Verdict(tools, text, KeyedAll(authorities, certs), now); full.Err? && full.error.TooFew?
  {
    CertifiedHaveKeys(authorities, fewer);
    var ids := SubsetOfSize(Certified(authorities, fewer), id, |authorities| / 2 + 1);
    signatures := Sign(ids, fewer);
    tools, text, now := Ideal(signatures), MARKER, Aware(0);
    hide Verdict, Tally, Ideal, Certified, KeyedAll;
    IdealVerdict(authorities, fewer, signatures);
    IdealVerdict(authorities, certs, signatures);
    IdealTally(authorities, fewer, fewer, ids, signatures);
    IdealTally(authorities, certs, fewer, ids, signatures);
    assert (set i | i in ids && i in fewer && fewer[i] == fewer[i]) == ids;
    var kept := set i | i in ids && i in certs && certs[i] == fewer[i];
    assert kept <= ids - {id};
    SubsetCount(kept, ids - {id});
    IdealLoads(signatures, certs);
    IdealLoads(signatures, fewer);
  }

  lemma CertifiedHaveKeys(authorities: seq<Authority>, keys: map<Identity, Pem>)
    ensures Certified(authorities, keys) <= keys.Keys
  {
  }

  lemma IdealLoads(signatures: seq<Signature>, keys: map<Identity, Pem>)
    ensures AllLoad(Ideal(signatures), keys)
  {
  }

  lemma IdealVerdict(authorities: seq<Authority>, keys: map<Identity, Pem>, signatures: seq<Signature>)
    requires authorities != []
    ensures Verdict(Ideal(signatures), MARKER, KeyedAll(authorities, keys), Aware(0))
            == Tally(Ideal(signatures), KeyedAll(authorities, keys), Consensus(0, 0, signatures, []), MARKER)
  {
    hide Tally, SignedRegion;
    MarkerAlone();
  }

  lemma IdealTally(authorities: seq<Authority>, keys: map<Identity, Pem>, made: map<Identity, Pem>, ids: set<Identity>,
                   signatures: seq<Signature>)
    requires forall a :: a in authorities ==> Bare(a)
    requires ids <= Certified(authorities, made) && ids <= made.Keys
    requires forall s :: s in signatures <==> s.identity in ids && s == SignedWith(s.identity, made[s.identity])
    ensures var signers := |set i | i in ids && i in keys && keys[i] == made[i]|;
            Tally(Ideal(signatures), KeyedAll(authorities, keys), Consensus(0, 0, signatures, []), MARKER)
            == if 2 * signers <= |authorities| then Err(TooFew(signers, |authorities|))
               else Ok(Consensus(0, 0, signatures, []))
  {
    var tools, known := Ideal(signatures), ByIdentity(KeyedAll(authorities, keys));
    forall s | s in signatures
      ensures Counts(tools, known, MARKER, s) <==> s.identity in keys && keys[s.identity] == made[s.identity]
      ensures !NeedsBadKey(tools, known, s)
    {
      IdealCounts(authorities, keys, MARKER, signatures, s);
    }
    hide Counts, NeedsBadKey, ByIdentity, KeyedAll, Ideal;
    var signers := Signers(tools, known, MARKER, signatures);
    forall i ensures i in signers <==> i in ids && i in keys && keys[i] == made[i] {
      if i in ids {
        assert SignedWith(i, made[i]) in signatures;
      }
    }
    assert signers == set i | i in ids && i in keys && keys[i] == made[i];
  }

  /** `fetched * 2 <= len(authority_set)`: bootstrap gives up early. */
  predicate TooFewCerts(authorities: seq<Authority>, certs: map<Identity, Pem>) {
    2 * Count(authorities, (a: Authority) => a.v3ident in certs) <= |authorities|
  }

  /** Giving up early loses nothing: without certificates for a majority no document could be accepted. */
  lemma GivingUpEarlyLosesNothing(tools: Tools, text: string, authorities: seq<Authority>, certs: map<Identity, Pem>,
                                  now: Moment)
    requires forall a :: a in authorities ==> Bare(a)
    requires TooFewCerts(authorities, certs)
    ensures Verdict(tools, text, KeyedAll(authorities, certs), now).Err?
  {
    var p := (a: Authority) => a.v3ident in certs;
    if Verdict(tools, text, KeyedAll(authorities, certs), now).Ok? {
      var (consensus, region) := Preflight(tools, text, |authorities|, now).value;
      var signers := Signers(tools, ByIdentity(KeyedAll(authorities, certs)), region, consensus.signatures);
      KeyedByIdentity(authorities, certs);
      forall id | id in signers ensures id in Identities(authorities, p) {
        var a := ByIdentity(authorities)[id];
        assert a in authorities && Bare(a);
      }
      SubsetCount(signers, Identities(authorities, p));
      IdentitiesAtMost(authorities, p);
      assert false;
    }
  }
}
