/**
 * The authority key certificates that bootstrap fetches in clear (`_dir/keycerts.py`), and what losing some of them can
 * do to a verdict. Standard: dir-spec, "Creating key certificates".
 */
module KeyCerts {
  import opened Bytes
  import opened Quorum

  /** What the expressions of the parser find in one certificate; a part is None where its decoding raises. */
  datatype Fields = Fields(fingerprint: Identity, identityPem: Pem, signingPem: Pem, signature: Option<bytes>,
                           certified: Option<string>)

  datatype KeyCertificate = KeyCertificate(v3ident: Identity, signingKeyPem: Pem)

  datatype Outcome = Verified(certificate: KeyCertificate) | Rejected | Raised

  type Reader = string -> Option<Fields>

  function ParseOne(tools: Tools, read: Reader, chunk: string): Outcome {
    match read(chunk)
    case None => Rejected
    case Some(f) =>
      var key := tools.load(f.identityPem);
      if key.None? then Raised
      else if tools.keyDigest(key.value) != f.fingerprint || f.certified.None? then Rejected
      else if f.signature.None? then Raised
      else if tools.recover(key.value, f.signature.value) != Some(tools.digest("sha1", f.certified.value)) then Rejected
      else if tools.load(f.signingPem).None? then Raised
      else Verified(KeyCertificate(f.fingerprint, f.signingPem))
  }

  /** The certificates that verify, in order; one that is malformed does not spoil the others. */
  function Certificates(tools: Tools, read: Reader, chunks: seq<string>): seq<KeyCertificate> {
    if chunks == [] then []
    else
      var outcome := ParseOne(tools, read, chunks[|chunks| - 1]);
      Certificates(tools, read, chunks[..|chunks| - 1]) + if outcome.Verified? then [outcome.certificate] else []
  }

  method ParseKeyCertificates(tools: Tools, read: Reader, chunks: seq<string>) returns (certs: seq<KeyCertificate>)
    ensures certs == Certificates(tools, read, chunks)
  {
    certs := [];
    var i := 0;
    while i < |chunks|
      invariant 0 <= i <= |chunks| && certs == Certificates(tools, read, chunks[..i])
    {
      assert chunks[..i + 1][..i] == chunks[..i];
      var outcome := ParseOne(tools, read, chunks[i]);
      i := i + 1;
      if outcome.Raised? {
        continue;
      }
      if outcome.Verified? {
        certs := certs + [outcome.certificate];
      }
    }
    assert chunks[..i] == chunks;
  }

  /** The dictionary that bootstrap makes of them: of two for one identity the later stays. */
  function ByIdent(certs: seq<KeyCertificate>): (m: map<Identity, Pem>)
    ensures forall id :: id in m ==> KeyCertificate(id, m[id]) in certs
    ensures forall c :: c in certs ==> c.v3ident in m
  {
    if certs == [] then map[]
    else
      var last := certs[|certs| - 1];
      assert certs == certs[..|certs| - 1] + [last];
      ByIdent(certs[..|certs| - 1])[last.v3ident := last.signingKeyPem]
  }

  /**
   * What is kept is exactly what loads and was certified: by a certificate that names an identity key with the
   * fingerprint it claims, which recovers the signature over what it certifies.
   */
  lemma FetchedKeysLoad(tools: Tools, read: Reader, chunks: seq<string>)
    ensures AllLoad(tools, ByIdent(Certificates(tools, read, chunks)))
    ensures forall c :: c in Certificates(tools, read, chunks) <==>
              tools.load(c.signingKeyPem).Some? && exists chunk :: chunk in chunks && Vouches(tools, read, chunk, c)
  {
    var certs := Certificates(tools, read, chunks);
    hide Certificates, Vouches;
    forall c ensures c in certs <==>
                       tools.load(c.signingKeyPem).Some?
                       && exists chunk :: chunk in chunks && Vouches(tools, read, chunk, c)
    {
      if c in certs {
        var chunk := KeptIsCertified(tools, read, chunks, c);
      }
      forall chunk | chunk in chunks && Vouches(tools, read, chunk, c) && tools.load(c.signingKeyPem).Some?
        ensures c in certs
      {
        CertifiedIsKept(tools, read, chunks, chunk, c);
      }
    }
  }

  lemma {:induction false} KeptIsCertified(tools: Tools, read: Reader, chunks: seq<string>, c: KeyCertificate)
    returns (chunk: string)
    requires c in Certificates(tools, read, chunks)
    ensures chunk in chunks && Vouches(tools, read, chunk, c) && tools.load(c.signingKeyPem).Some?
  {
    var rest, last := chunks[..|chunks| - 1], chunks[|chunks| - 1];
    if c in Certificates(tools, read, rest) {
      chunk := KeptIsCertified(tools, read, rest, c);
    } else {
      chunk := last;
    }
  }

  lemma {:induction false} CertifiedIsKept(tools: Tools, read: Reader, chunks: seq<string>, chunk: string,
                                           c: KeyCertificate)
    requires chunk in chunks && Vouches(tools, read, chunk, c) && tools.load(c.signingKeyPem).Some?
    ensures c in Certificates(tools, read, chunks)
  {
    var rest, last := chunks[..|chunks| - 1], chunks[|chunks| - 1];
    assert chunks == rest + [last];
    if chunk in rest {
      CertifiedIsKept(tools, read, rest, chunk, c);
    } else {
      assert ParseOne(tools, read, last) == Verified(c);
    }
  }

  predicate Vouches(tools: Tools, read: Reader, chunk: string, c: KeyCertificate) {
    && read(chunk).Some?
    && var f := read(chunk).value;
    && f.signingPem == c.signingKeyPem && f.fingerprint == c.v3ident && f.certified.Some? && f.signature.Some?
    && var key := tools.load(f.identityPem);
    && key.Some? && tools.keyDigest(key.value) == c.v3ident
    && tools.recover(key.value, f.signature.value) == Some(tools.digest("sha1", f.certified.value))
  }

  // --- losing certificates ----------------------------------------------------------------

  /** No identity has certificates for two keys. */
  predicate OneKeyEach(certs: seq<KeyCertificate>) {
    forall c, d :: c in certs && d in certs && c.v3ident == d.v3ident ==> c.signingKeyPem == d.signingKeyPem
  }

  /** What the shorter list keeps for an identity, the longer one keeps too. */
  predicate Agrees(some: seq<KeyCertificate>, all: seq<KeyCertificate>) {
    forall id :: id in ByIdent(some) ==> id in ByIdent(all) && ByIdent(some)[id] == ByIdent(all)[id]
  }

  lemma OneKeyAgrees(some: seq<KeyCertificate>, all: seq<KeyCertificate>)
    requires OneKeyEach(all) && forall c :: c in some ==> c in all
    ensures Agrees(some, all)
  {
    forall id | id in ByIdent(some) ensures id in ByIdent(all) && ByIdent(some)[id] == ByIdent(all)[id] {
      assert KeyCertificate(id, ByIdent(some)[id]) in all && KeyCertificate(id, ByIdent(all)[id]) in all;
    }
  }

  lemma KeptAtCut(certs: seq<KeyCertificate>, i: nat)
    requires i < |certs| && Agrees(certs[..i + 1], certs)
    ensures ByIdent(certs)[certs[i].v3ident] == certs[i].signingKeyPem
  {
    assert certs[..i + 1][..i] == certs[..i];
    assert certs[i].v3ident in ByIdent(certs[..i + 1]);
  }

  /**
   * Cutting the list short never exchanges the key that is kept for an identity, exactly when there is one key each.
   */
  lemma CutsAgreeIff(certs: seq<KeyCertificate>)
    ensures OneKeyEach(certs) <==> forall k: nat :: k <= |certs| ==> Agrees(certs[..k], certs)
  {
    hide ByIdent, Agrees;
    if OneKeyEach(certs) {
      forall k: nat | k <= |certs| ensures Agrees(certs[..k], certs) {
        OneKeyAgrees(certs[..k], certs);
      }
    }
    if forall k: nat :: k <= |certs| ==> Agrees(certs[..k], certs) {
      forall i: nat | i < |certs| ensures ByIdent(certs)[certs[i].v3ident] == certs[i].signingKeyPem {
        KeptAtCut(certs, i);
      }
    }
  }

  /**
   * With one key each, losing any of the certificates that were served never gets a document accepted that would not be
   * accepted with all of them.
   */
  lemma LosingCertificatesNeverHelps(tools: Tools, read: Reader, served: seq<string>, received: seq<string>,
                                     authorities: seq<Authority>, text: string, now: Moment)
    requires forall a :: a in authorities ==> Bare(a)
    requires OneKeyEach(Certificates(tools, read, served))
    requires forall c :: c in Certificates(tools, read, received) ==> c in Certificates(tools, read, served)
    requires Verdict(tools, text, KeyedAll(authorities, ByIdent(Certificates(tools, read, received))), now).Ok?
    ensures Verdict(tools, text, KeyedAll(authorities, ByIdent(Certificates(tools, read, served))), now)
            == Verdict(tools, text, KeyedAll(authorities, ByIdent(Certificates(tools, read, received))), now)
  {
    hide Verdict, Certificates, KeyedAll;
    var all, some := ByIdent(Certificates(tools, read, served)), ByIdent(Certificates(tools, read, received));
    OneKeyAgrees(Certificates(tools, read, received), Certificates(tools, read, served));
    FetchedKeysLoad(tools, read, served);
    TruncationNeverHelps(tools, text, authorities, all, some, now);
  }

  // --- one key each is needed ---------------------------------------------------------------

  /** A certificate by an identity key that is its own digest and its own signature. */
  function FieldsOf(c: KeyCertificate): Fields {
    Fields(c.v3ident, c.v3ident, c.signingKeyPem, Some(c.v3ident), Some(""))
  }

  /** Texts that stand for certificates by their length, and the reader that knows them. */
  function TextOf(i: nat): string {
    seq(i, _ => ' ')
  }

  function Texts(n: nat): seq<string> {
    seq(n, i requires 0 <= i < n => TextOf(i))
  }

  function ReaderOf(certs: seq<KeyCertificate>): Reader {
    (chunk: string) => if |chunk| < |certs| then Some(FieldsOf(certs[|chunk|])) else None
  }

  lemma {:induction false} TextsRead(certs: seq<KeyCertificate>, signatures: seq<Signature>, n: nat)
    requires n <= |certs|
    ensures Certificates(Ideal(signatures), ReaderOf(certs), Texts(n)) == certs[..n]
  {
    if n > 0 {
      TextsRead(certs, signatures, n - 1);
      assert Texts(n)[..n - 1] == Texts(n - 1) && Texts(n)[n - 1] == TextOf(n - 1);
      assert certs[..n] == certs[..n - 1] + [certs[n - 1]];
      assert ParseOne(Ideal(signatures), ReaderOf(certs), TextOf(n - 1)) == Verified(certs[n - 1]);
    }
  }

  /**
   * Wherever a list of certificates keeps another key for an authority than a cut of it does, and the cut still
   * certifies a majority, a document exists that has too few signatures with the whole list, and is accepted when the
   * download is cut: one that is signed with the keys the cut keeps.
   */
  lemma LosingTheLaterKeyHelps(authorities: seq<Authority>, certs: seq<KeyCertificate>, k: nat, id: Identity)
    returns (tools: Tools, read: Reader, served: seq<string>, text: string, now: Moment)
    requires forall a :: a in authorities ==> Bare(a)
    requires k <= |certs| && 2 * |Certified(authorities, ByIdent(certs[..k]))| > |authorities|
    requires id in Certified(authorities, ByIdent(certs[..k])) && id in ByIdent(certs[..k])
    requires ByIdent(certs[..k])[id] != ByIdent(certs)[id]
    ensures |served| == |certs| && Certificates(tools, read, served) == certs
    ensures Certificates(tools, read, served[..k]) == certs[..k]
    ensures Verdict(tools, text, KeyedAll(authorities, ByIdent(certs[..k])), now).Ok?
    ensures var full := Verdict(tools, text, KeyedAll(authorities, ByIdent(certs)), now);
            full.Err? && full.error.TooFew?
  {
    hide Verdict, KeyedAll, Certificates, Certified;
    ghost var signatures;
    tools, text, now, signatures := ExchangedKeyHelps(authorities, ByIdent(certs), ByIdent(certs[..k]), id);
    read, served := ReaderOf(certs), Texts(|certs|);
    TextsRead(certs, signatures, |certs|);
    TextsRead(certs, signatures, k);
    assert Texts(|certs|)[..k] == Texts(k);
    assert certs[..|certs|] == certs;
  }

  /** The smallest case: one authority with an older and a newer certificate, of which the second is cut off. */
  lemma ReissuedKeyExample()
    returns (tools: Tools, read: Reader, served: seq<string>, text: string, now: Moment)
    ensures |served| == 2
    ensures var authorities := [Authority("", [1], None)];
            var before := KeyedAll(authorities, ByIdent(Certificates(tools, read, served)));
            var after := KeyedAll(authorities, ByIdent(Certificates(tools, read, served[..1])));
            Verdict(tools, text, before, now) == Err(TooFew(0, 1)) && Verdict(tools, text, after, now).Ok?
  {
    var older, newer := KeyCertificate([1], [2]), KeyCertificate([1], [3]);
    var authority, certs := Authority("", [1], None), [older, newer];
    assert certs[..1] == [older] && certs[..2] == certs;
    TwoForOne(older, newer);
    OneCertified(authority, ByIdent([older]));
    tools, read, served, text, now := LosingTheLaterKeyHelps([authority], certs, 1, [1]);
    hide Tally, KeyedAll, ByIdent, Certificates;
    RejectedByNone(tools, text, KeyedAll([authority], ByIdent(certs)), now);
  }

  lemma TwoForOne(older: KeyCertificate, newer: KeyCertificate)
    requires older.v3ident == newer.v3ident
    ensures ByIdent([older]) == map[older.v3ident := older.signingKeyPem]
    ensures ByIdent([older, newer]) == map[older.v3ident := newer.signingKeyPem]
  {
    assert [older][..0] == [] && [older, newer][..1] == [older];
  }

  lemma OneCertified(a: Authority, keys: map<Identity, Pem>)
    requires a.v3ident in keys
    ensures Certified([a], keys) == {a.v3ident}
  {
  }

  /** With one authority, too few signatures means none. */
  lemma RejectedByNone(tools: Tools, text: string, authorities: seq<Authority>, now: Moment)
    requires |authorities| == 1
    requires var full := Verdict(tools, text, authorities, now); full.Err? && full.error.TooFew?
    ensures Verdict(tools, text, authorities, now) == Err(TooFew(0, 1))
  {
  }
}
