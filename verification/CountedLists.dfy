/**
 * The two counted lists of typed byte strings: certificates in a CERTS cell (`_proto/cells.py`), whose lengths take two
 * bytes, and link specifiers (`_proto/linkspec.py`), whose lengths take one.
 * Standard: tor-spec, "CERTS cells" (section 4.2) and "EXTEND2" (section 5.1.2).
 */
module CountedLists {
  import opened Bytes
  import opened Sequences

  datatype Entry = Entry(kind: int, data: bytes)

  datatype Fault = Empty | TruncatedHeader | TruncatedBody

  /** How many bytes a length takes. */
  type Width = w: int | 1 <= w <= 2 witness 1

  const CERT: Width := 2
  const SPEC: Width := 1

  function Limit(w: Width): int {
    if w == 1 then 0x100 else 0x1_0000
  }

  function PackLength(n: int, w: Width): (b: bytes)
    requires 0 <= n < Limit(w)
    ensures |b| == w
  {
    if w == 1 then [n] else PackU16(n)
  }

  function LengthOf(b: bytes, w: Width): (n: int)
    requires |b| == w
    ensures 0 <= n < Limit(w)
  {
    if w == 1 then b[0] else UnpackU16(b)
  }

  lemma LengthRoundTrip(n: int, b: bytes, w: Width)
    requires 0 <= n < Limit(w) && |b| == w
    ensures LengthOf(PackLength(n, w), w) == n && PackLength(LengthOf(b, w), w) == b
  {
    if w == 2 {
      U16RoundTrip(n, b);
    }
  }

  // --- encoding --------------------------------------------------------------------------

  /** None where `pack` raises. */
  function PackEntry(e: Entry, w: Width): Option<bytes> {
    if 0 <= e.kind < 256 && |e.data| < Limit(w) then Some([e.kind] + PackLength(|e.data|, w) + e.data) else None
  }

  /** Some bytes, then what packing yields if it raises nothing. */
  function After(body: bytes, r: Option<bytes>): Option<bytes> {
    if r.None? then None else Some(body + r.value)
  }

  function PackEntries(entries: seq<Entry>, w: Width): Option<bytes> {
    if entries == [] then Some([])
    else
      var first := PackEntry(entries[0], w);
      if first.None? then None else After(first.value, PackEntries(entries[1..], w))
  }

  /** `bytes([len(...)])` needs a count below 256. */
  function PackList(entries: seq<Entry>, w: Width): Option<bytes> {
    if |entries| > 255 then None
    else After([|entries|], PackEntries(entries, w))
  }

  /** `CertsCell.to_raw`: the payload built up one certificate at a time. */
  method CertsToRaw(certs: seq<Entry>) returns (payload: Option<bytes>)
    ensures payload == PackList(certs, CERT)
  {
    hide PackEntry;
    if |certs| > 255 {
      return None;
    }
    var body: bytes := [|certs|];
    var i := 0;
    assert certs[0..] == certs;
    while i < |certs|
      invariant 0 <= i <= |certs|
      invariant PackList(certs, CERT) == After(body, PackEntries(certs[i..], CERT))
    {
      assert certs[i..][1..] == certs[i + 1..];
      var cert := PackEntry(certs[i], CERT);
      if cert.None? {
        return None;
      }
      AfterTwice(body, cert.value, PackEntries(certs[i + 1..], CERT));
      body := body + cert.value;
      i := i + 1;
    }
    assert body + [] == body;
    return Some(body);
  }

  lemma AfterTwice(a: bytes, b: bytes, r: Option<bytes>)
    ensures After(a, After(b, r)) == After(a + b, r)
  {
    if r.Some? {
      assert a + (b + r.value) == a + b + r.value;
    }
  }

  // --- decoding --------------------------------------------------------------------------

  /** The entry at the front of `data`, and what follows it. */
  function ParseEntry(data: bytes, w: Width): Result<(Entry, bytes), Fault> {
    if |data| < 1 + w then Err(TruncatedHeader)
    else
      var n := LengthOf(data[1..1 + w], w);
      if |data| < 1 + w + n then Err(TruncatedBody)
      else Ok((Entry(data[0], data[1 + w..1 + w + n]), data[1 + w + n..]))
  }

  function ParseEntries(count: nat, data: bytes, w: Width): Result<(seq<Entry>, bytes), Fault> {
    if count == 0 then Ok(([], data))
    else match ParseEntry(data, w)
      case Err(fault) => Err(fault)
      case Ok((e, rest)) =>
        match ParseEntries(count - 1, rest, w)
        case Err(fault) => Err(fault)
        case Ok((entries, left)) => Ok(([e] + entries, left))
  }

  /** The entries a count announces, and the bytes after them, which are ignored. */
  function ParseList(data: bytes, w: Width): Result<(seq<Entry>, bytes), Fault> {
    if data == [] then Err(Empty) else ParseEntries(data[0], data[1..], w)
  }

  /** `CertsCell.from_raw`. */
  method CertsFromRaw(data: bytes) returns (r: Result<seq<Entry>, Fault>)
    ensures match ParseList(data, CERT) case Err(fault) => r == Err(fault) case Ok((certs, _)) => r == Ok(certs)
  {
    hide ParseEntry;
    if data == [] {
      return Err(Empty);
    }
    var count: nat := data[0];
    var offset := 1;
    var certs := [];
    var i := 0;
    PrependNothing(ParseEntries(count, data[1..], CERT));
    while i < count
      invariant 0 <= i <= count && 1 <= offset <= |data|
      invariant ParseList(data, CERT) == Prepended(certs, ParseEntries(count - i, data[offset..], CERT))
    {
      ParseEntryAt(data, offset, CERT);
      ParseStep(count - i, data[offset..], CERT);
      if offset + 3 > |data| {
        return Err(TruncatedHeader);
      }
      var kind, n := data[offset], UnpackU16(data[offset + 1..offset + 3]);
      offset := offset + 3;
      if offset + n > |data| {
        return Err(TruncatedBody);
      }
      PrependTwice(certs, [Entry(kind, data[offset..offset + n])],
          ParseEntries(count - i - 1, data[offset + n..], CERT));
      certs := certs + [Entry(kind, data[offset..offset + n])];
      offset := offset + n;
      i := i + 1;
    }
    assert certs + [] == certs;
    return Ok(certs);
  }

  /** `parse_block`. */
  method ParseBlock(data: bytes) returns (r: Result<seq<Entry>, Fault>)
    ensures match ParseList(data, SPEC) case Err(fault) => r == Err(fault) case Ok((specs, _)) => r == Ok(specs)
  {
    hide ParseEntry;
    if data == [] {
      return Err(Empty);
    }
    var count: nat := data[0];
    var offset := 1;
    var specs := [];
    var i := 0;
    PrependNothing(ParseEntries(count, data[1..], SPEC));
    while i < count
      invariant 0 <= i <= count && 1 <= offset <= |data|
      invariant ParseList(data, SPEC) == Prepended(specs, ParseEntries(count - i, data[offset..], SPEC))
    {
      ParseEntryAt(data, offset, SPEC);
      ParseStep(count - i, data[offset..], SPEC);
      if offset + 2 > |data| {
        return Err(TruncatedHeader);
      }
      var kind, n := data[offset], data[offset + 1];
      offset := offset + 2;
      if offset + n > |data| {
        return Err(TruncatedBody);
      }
      PrependTwice(specs, [Entry(kind, data[offset..offset + n])],
          ParseEntries(count - i - 1, data[offset + n..], SPEC));
      specs := specs + [Entry(kind, data[offset..offset + n])];
      offset := offset + n;
      i := i + 1;
    }
    assert specs + [] == specs;
    return Ok(specs);
  }

  /** The entry at an offset, in terms of the whole. */
  lemma ParseEntryAt(data: bytes, offset: nat, w: Width)
    requires offset <= |data|
    ensures var at := offset + 1 + w;
            ParseEntry(data[offset..], w)
            == if at > |data| then Err(TruncatedHeader)
               else
                 var n := LengthOf(data[offset + 1..at], w);
                 if at + n > |data| then Err(TruncatedBody)
                 else Ok((Entry(data[offset], data[at..at + n]), data[at + n..]))
  {
    var left, at := data[offset..], offset + 1 + w;
    if at <= |data| {
      assert left[1..1 + w] == data[offset + 1..at];
      var n := LengthOf(data[offset + 1..at], w);
      if at + n <= |data| {
        assert left[1 + w..1 + w + n] == data[at..at + n] && left[1 + w + n..] == data[at + n..];
      }
    }
  }

  lemma ParseStep(count: nat, data: bytes, w: Width)
    requires count > 0
    ensures ParseEntries(count, data, w)
            == match ParseEntry(data, w)
               case Err(fault) => Err(fault)
               case Ok((e, rest)) => Prepended([e], ParseEntries(count - 1, rest, w))
  {
  }

  // --- each undoes the other -------------------------------------------------------------

  lemma EntryRoundTrip(e: Entry, w: Width, tail: bytes)
    requires PackEntry(e, w).Some?
    ensures ParseEntry(PackEntry(e, w).value + tail, w) == Ok((e, tail))
  {
    var data, n := PackEntry(e, w).value + tail, |e.data|;
    var length := PackLength(n, w);
    LengthRoundTrip(n, length, w);
    assert data == [e.kind] + length + e.data + tail;
    assert data[1..1 + w] == length;
    assert data[1 + w..1 + w + n] == e.data && data[1 + w + n..] == tail;
  }

  lemma {:induction false} EntriesRoundTrip(entries: seq<Entry>, w: Width, tail: bytes)
    requires PackEntries(entries, w).Some?
    ensures ParseEntries(|entries|, PackEntries(entries, w).value + tail, w) == Ok((entries, tail))
  {
    hide PackEntry, ParseEntry;
    if entries == [] {
      assert [] + tail == tail;
    } else {
      var rest := PackEntries(entries[1..], w).value;
      EntriesRoundTrip(entries[1..], w, tail);
      EntryRoundTrip(entries[0], w, rest + tail);
      assert PackEntries(entries, w).value + tail == PackEntry(entries[0], w).value + (rest + tail);
      assert entries == [entries[0]] + entries[1..];
    }
  }

  /** Parsing a packed list gives back its entries, and leaves whatever followed it. */
  lemma ListRoundTrip(entries: seq<Entry>, w: Width, tail: bytes)
    requires PackList(entries, w).Some?
    ensures ParseList(PackList(entries, w).value + tail, w) == Ok((entries, tail))
  {
    hide PackEntries, ParseEntries;
    EntriesRoundTrip(entries, w, tail);
    var data := PackList(entries, w).value + tail;
    assert data[1..] == PackEntries(entries, w).value + tail;
  }

  lemma PackAfterParseEntry(data: bytes, w: Width)
    requires ParseEntry(data, w).Ok?
    ensures var (e, rest) := ParseEntry(data, w).value;
            PackEntry(e, w).Some? && data == PackEntry(e, w).value + rest
  {
    var (e, rest) := ParseEntry(data, w).value;
    LengthRoundTrip(0, data[1..1 + w], w);
    assert data == [data[0]] + data[1..1 + w] + e.data + rest;
  }

  lemma {:induction false} PackAfterParseEntries(count: nat, data: bytes, w: Width)
    requires ParseEntries(count, data, w).Ok?
    ensures var (entries, left) := ParseEntries(count, data, w).value;
            |entries| == count && PackEntries(entries, w).Some? && data == PackEntries(entries, w).value + left
  {
    hide ParseEntry, PackEntry;
    if count == 0 {
      assert [] + data == data;
    } else {
      var (e, rest) := ParseEntry(data, w).value;
      var (entries, left) := ParseEntries(count - 1, rest, w).value;
      PackAfterParseEntry(data, w);
      PackAfterParseEntries(count - 1, rest, w);
      assert ([e] + entries)[1..] == entries;
    }
  }

  /** Packing a parsed list gives back the bytes it was parsed from, up to the ones ignored after it. */
  lemma PackAfterParse(data: bytes, w: Width)
    requires ParseList(data, w).Ok?
    ensures var (entries, left) := ParseList(data, w).value;
            PackList(entries, w).Some? && data == PackList(entries, w).value + left
  {
    hide PackEntries, ParseEntries;
    PackAfterParseEntries(data[0], data[1..], w);
    assert data == [data[0]] + data[1..];
  }

  // --- the bytes themselves --------------------------------------------------------------

  /** At `at` stand the kind, how many bytes follow, and those bytes. */
  predicate EntryAt(data: bytes, at: nat, e: Entry, w: Width) {
    && at + 1 + w + |e.data| <= |data|
    && data[at] == e.kind
    && Number(data[at + 1..at + 1 + w]) == |e.data|
    && data[at + 1 + w..at + 1 + w + |e.data|] == e.data
  }

  /** How many bytes entries take up. */
  function Extent(entries: seq<Entry>, w: Width): nat {
    if entries == [] then 0 else 1 + w + |entries[0].data| + Extent(entries[1..], w)
  }

  lemma PackedEntryAt(before: bytes, e: Entry, w: Width, after: bytes)
    requires PackEntry(e, w).Some?
    ensures |PackEntry(e, w).value| == 1 + w + |e.data|
    ensures EntryAt(before + PackEntry(e, w).value + after, |before|, e, w)
  {
    var length := PackLength(|e.data|, w);
    var packed := PackEntry(e, w).value;
    assert packed == [e.kind] + length + e.data;
    var data, at := before + packed + after, |before|;
    LengthRoundTrip(|e.data|, length, w);
    assert data[at..at + |packed|] == packed;
    assert data[at] == packed[0] && data[at + 1..at + 1 + w] == packed[1..1 + w] == length;
    assert data[at + 1 + w..at + |packed|] == packed[1 + w..] == e.data;
    if w == 2 {
      TwoBytes(length);
    } else {
      assert length[..0] == [] && Number(length) == length[0];
    }
  }

  lemma {:induction false} PackedEntriesAt(before: bytes, entries: seq<Entry>, w: Width, i: nat)
    requires PackEntries(entries, w).Some?
    ensures |PackEntries(entries, w).value| == Extent(entries, w)
    ensures i < |entries| ==>
              EntryAt(before + PackEntries(entries, w).value, |before| + Extent(entries[..i], w), entries[i], w)
    decreases |entries|
  {
    hide PackEntry, EntryAt;
    if entries != [] {
      var first, rest := PackEntry(entries[0], w).value, PackEntries(entries[1..], w).value;
      var data := before + PackEntries(entries, w).value;
      PackedEntryAt(before, entries[0], w, rest);
      assert data == before + first + rest;
      if i == 0 {
        PackedEntriesAt(before, entries[1..], w, 0);
        assert entries[..0] == [];
      } else {
        PackedEntriesAt(before + first, entries[1..], w, i - 1);
        if i < |entries| {
          assert entries[..i][1..] == entries[1..][..i - 1] && entries[..i][0] == entries[0];
        }
      }
    }
  }

  lemma {:induction false} PackEntriesFits(entries: seq<Entry>, w: Width)
    ensures PackEntries(entries, w).Some? <==>
              forall e :: e in entries ==> 0 <= e.kind < 256 && |e.data| < if w == 1 then 256 else 65536
  {
    if entries != [] {
      PackEntriesFits(entries[1..], w);
      assert entries == [entries[0]] + entries[1..];
    }
  }

  /**
   * A packed list, byte by byte: the count, then each entry where the ones before it end, and nothing more. Packing
   * fails exactly where a count, a kind or a length has no room.
   */
  lemma PackedLayout(entries: seq<Entry>, w: Width, i: nat)
    ensures PackList(entries, w).Some? <==>
              && |entries| < 256
              && forall e :: e in entries ==> 0 <= e.kind < 256 && |e.data| < if w == 1 then 256 else 65536
    ensures PackList(entries, w).Some? ==>
              var data := PackList(entries, w).value;
              && |data| == 1 + Extent(entries, w) && data[0] == |entries|
              && (i < |entries| ==> EntryAt(data, 1 + Extent(entries[..i], w), entries[i], w))
  {
    hide PackEntries, EntryAt;
    PackEntriesFits(entries, w);
    if PackList(entries, w).Some? {
      PackedEntriesAt([|entries|], entries, w, i);
    }
  }
}
