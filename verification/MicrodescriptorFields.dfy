/**
 * What a microdescriptor says (`_dir/parsers.py`, `_parse_microdescriptor` and `_exit_policy`), and a whole batch of
 * them: cut apart, then read one by one. Decoding base64 and integers, and hashing, are parameters.
 */
module MicrodescriptorFields {
  import opened Bytes
  import opened Sequences
  import opened Texts
  import Microdescriptors
  import Netdoc

  type Item = Netdoc.Item

  datatype Decoders = Decoders(base64: string -> Option<bytes>, number: string -> Option<int>, sha256: string -> bytes)

  datatype ExitPolicy = ExitPolicy(accept: bool, ports: seq<(int, int)>)

  datatype Microdescriptor = Microdescriptor(digest: bytes, onionKey: bytes, edIdentity: Option<bytes>,
                                             exitPolicy: Option<ExitPolicy>, family: set<string>)

  datatype Fault =
    | Batch(cut: Microdescriptors.Fault) | Grammar(fault: Netdoc.Fault)
    | MissingArgument | MalformedKey | MalformedPolicy | NoOnionKey

  // --- one line ------------------------------------------------------------------------------

  function Key32(d: Decoders, value: string): (r: Result<bytes, Fault>)
    ensures r.Ok? <==> d.base64(value).Some? && |d.base64(value).value| == 32
    ensures r.Ok? ==> d.base64(value) == Some(r.value)
    ensures r.Err? ==> r.error == MalformedKey
  {
    var raw := d.base64(value);
    if raw.None? || |raw.value| != 32 then Err(MalformedKey) else Ok(raw.value)
  }

  function IndexOf(s: string, c: char): (n: nat)
    ensures n <= |s| && c !in s[..n] && (n < |s| ==> s[n] == c)
  {
    if s == "" || s[0] == c then 0
    else
      var n := IndexOf(s[1..], c);
      assert s[..n + 1] == [s[0]] + s[1..][..n];
      n + 1
  }

  /** `str.split(c)`. */
  function SplitAt(s: string, c: char): (parts: seq<string>)
    ensures parts != [] && forall p :: p in parts ==> c !in p
    decreases |s|
  {
    var n := IndexOf(s, c);
    if n == |s| then [s] else [s[..n]] + SplitAt(s[n + 1..], c)
  }

  /** One port, or two with a dash between them. */
  function PortRange(d: Decoders, part: string): Result<(int, int), Fault> {
    var n := IndexOf(part, '-');
    var low := d.number(part[..n]);
    var high := if n < |part| then d.number(part[n + 1..]) else low;
    if low.None? || high.None? || !(1 <= low.value <= high.value <= 65535) then Err(MalformedPolicy)
    else Ok((low.value, high.value))
  }

  function PortRanges(d: Decoders, parts: seq<string>): Result<seq<(int, int)>, Fault> {
    if parts == [] then Ok([])
    else
      var before := PortRanges(d, parts[..|parts| - 1]);
      var last := PortRange(d, parts[|parts| - 1]);
      if before.Err? then before else if last.Err? then Err(last.error) else Ok(before.value + [last.value])
  }

  predicate PolicyLine(args: seq<string>) {
    |args| >= 2 && (args[0] == "accept" || args[0] == "reject")
  }

  function Policy(d: Decoders, args: seq<string>): Result<ExitPolicy, Fault> {
    if !PolicyLine(args) then Err(MalformedPolicy)
    else
      var ports := PortRanges(d, SplitAt(args[1], ','));
      if ports.Err? then Err(ports.error) else Ok(ExitPolicy(args[0] == "accept", ports.value))
  }

  method ParseExitPolicy(d: Decoders, args: seq<string>) returns (r: Result<ExitPolicy, Fault>)
    ensures r == Policy(d, args)
  {
    if !PolicyLine(args) {
      return Err(MalformedPolicy);
    }
    var parts := SplitAt(args[1], ',');
    var ranges: seq<(int, int)> := [];
    var i := 0;
    while i < |parts|
      invariant 0 <= i <= |parts| && PortRanges(d, parts[..i]) == Ok(ranges)
    {
      assert parts[..i + 1][..i] == parts[..i];
      var range := PortRange(d, parts[i]);
      if range.Err? {
        FirstBadRange(d, parts, i);
        return Err(range.error);
      }
      ranges := ranges + [range.value];
      i := i + 1;
    }
    assert parts[..i] == parts;
    return Ok(ExitPolicy(args[0] == "accept", ranges));
  }

  /** The parts with the separator put back between them. */
  function Joined(parts: seq<string>, c: char): string {
    if parts == [] then "" else if |parts| == 1 then parts[0] else parts[0] + [c] + Joined(parts[1..], c)
  }

  /** Joining what splitting finds gives back the text. */
  lemma {:induction false} JoinedSplit(s: string, c: char)
    ensures Joined(SplitAt(s, c), c) == s
    decreases |s|
  {
    hide IndexOf;
    var n := IndexOf(s, c);
    if n < |s| {
      var parts := SplitAt(s[n + 1..], c);
      JoinedSplit(s[n + 1..], c);
      assert ([s[..n]] + parts)[1..] == parts;
      assert s == s[..n] + [c] + s[n + 1..];
    }
  }

  lemma {:induction false} IndexAfter(part: string, c: char, rest: string)
    requires c !in part
    ensures IndexOf(part, c) == |part| && IndexOf(part + [c] + rest, c) == |part|
  {
    if part != "" {
      IndexAfter(part[1..], c, rest);
      assert (part + [c] + rest)[1..] == part[1..] + [c] + rest;
    }
  }

  /** Splitting finds the parts that were joined. */
  lemma {:induction false} SplitJoined(c: char, parts: seq<string>)
    requires parts != [] && forall p :: p in parts ==> c !in p
    ensures SplitAt(Joined(parts, c), c) == parts
  {
    hide IndexOf;
    var whole := Joined(parts, c);
    assert parts[0] in parts;
    if |parts| == 1 {
      IndexAfter(parts[0], c, "");
    } else {
      var rest := Joined(parts[1..], c);
      SplitJoined(c, parts[1..]);
      IndexAfter(parts[0], c, rest);
      assert whole[..|parts[0]|] == parts[0] && whole[|parts[0]| + 1..] == rest;
    }
  }

  /** A part without a dash is one port; otherwise what stands before and after its first dash are the two ends. */
  lemma PortRangeMeans(d: Decoders, low: string, high: string)
    requires '-' !in low
    ensures var port := d.number(low);
            PortRange(d, low) == if port.Some? && 1 <= port.value <= 65535 then Ok((port.value, port.value))
                                 else Err(MalformedPolicy)
    ensures var l, h := d.number(low), d.number(high);
            PortRange(d, low + "-" + high)
            == if l.Some? && h.Some? && 1 <= l.value <= h.value <= 65535 then Ok((l.value, h.value))
               else Err(MalformedPolicy)
  {
    assert IndexOf(low, '-') == |low| && low[..|low|] == low;
    var part := low + "-" + high;
    assert part[|low|] == '-' && part[..|low|] == low && part[|low| + 1..] == high;
    assert IndexOf(part, '-') == |low|;
  }

  /** `ExitPolicySummary.allows`. */
  predicate Allows(policy: ExitPolicy, port: int) {
    var listed := exists r :: r in policy.ports && r.0 <= port <= r.1;
    if policy.accept then listed else !listed
  }

  /** Some part of a port list names a range that holds the port. */
  ghost predicate Names(d: Decoders, list: string, port: int) {
    exists part :: part in SplitAt(list, ',') && PortRange(d, part).Ok?
                   && PortRange(d, part).value.0 <= port <= PortRange(d, part).value.1
  }

  /**
   * A policy line is read exactly if its first word is "accept" or "reject" and every part of the second a valid range;
   * it then allows what an accepting line names, or what a rejecting line does not name.
   */
  lemma PolicyMeans(d: Decoders, args: seq<string>, port: int)
    ensures Policy(d, args).Ok? <==>
              && |args| >= 2 && args[0] in {"accept", "reject"}
              && forall part :: part in SplitAt(args[1], ',') ==> PortRange(d, part).Ok?
    ensures Policy(d, args).Err? ==> Policy(d, args).error == MalformedPolicy
    ensures Policy(d, args).Ok? && args[0] == "accept" ==>
              (Allows(Policy(d, args).value, port) <==> Names(d, args[1], port))
    ensures Policy(d, args).Ok? && args[0] == "reject" ==>
              (Allows(Policy(d, args).value, port) <==> !Names(d, args[1], port))
  {
    if |args| >= 2 {
      var parts := SplitAt(args[1], ',');
      hide PortRange, SplitAt;
      RangeOfEach(d, parts);
      if PortRanges(d, parts).Ok? {
        var ranges := PortRanges(d, parts).value;
        forall part | part in parts && PortRange(d, part).Ok? ensures PortRange(d, part).value in ranges {
          var i :| 0 <= i < |parts| && parts[i] == part;
          assert ranges[i] in ranges;
        }
        forall r | r in ranges ensures exists part :: part in parts && PortRange(d, part) == Ok(r) {
          var i :| 0 <= i < |ranges| && ranges[i] == r;
          assert parts[i] in parts;
        }
      }
    }
  }

  lemma {:induction false} RangeOfEach(d: Decoders, parts: seq<string>)
    ensures PortRanges(d, parts).Ok? <==> forall part :: part in parts ==> PortRange(d, part).Ok?
    ensures PortRanges(d, parts).Err? ==> PortRanges(d, parts).error == MalformedPolicy
    ensures PortRanges(d, parts).Ok? ==>
              && |PortRanges(d, parts).value| == |parts|
              && forall i :: 0 <= i < |parts| ==> PortRange(d, parts[i]) == Ok(PortRanges(d, parts).value[i])
  {
    if parts != [] {
      var init, last := parts[..|parts| - 1], parts[|parts| - 1];
      RangeOfEach(d, init);
      assert parts == init + [last];
      assert PortRange(d, last).Err? ==> PortRange(d, last).error == MalformedPolicy;
    }
  }

  lemma {:induction false} FirstBadRange(d: Decoders, parts: seq<string>, i: nat)
    requires i < |parts| && PortRanges(d, parts[..i]).Ok? && PortRange(d, parts[i]).Err?
    ensures PortRanges(d, parts) == Err(PortRange(d, parts[i]).error)
  {
    if i == |parts| - 1 {
      assert parts[..|parts| - 1] == parts[..i];
    } else {
      assert parts[..|parts| - 1][..i] == parts[..i];
      FirstBadRange(d, parts[..|parts| - 1], i);
    }
  }

  /** A policy that is accepted has ports only, in ranges that are not empty. */
  lemma {:induction false} RangesAreInOrder(d: Decoders, parts: seq<string>)
    requires PortRanges(d, parts).Ok?
    ensures |PortRanges(d, parts).value| == |parts|
    ensures forall r :: r in PortRanges(d, parts).value ==> 1 <= r.0 <= r.1 <= 65535
  {
    if parts != [] {
      RangesAreInOrder(d, parts[..|parts| - 1]);
    }
  }

  // --- one microdescriptor ---------------------------------------------------------------------

  /** What has been read so far. */
  datatype Fields = Fields(onionKey: Option<bytes>, edIdentity: Option<bytes>, exitPolicy: Option<ExitPolicy>,
                           family: set<string>)

  const NO_FIELDS := Fields(None, None, None, {})

  predicate IsOnionKey(item: Item) {
    item.keyword == "ntor-onion-key"
  }

  predicate IsIdentity(item: Item) {
    item.keyword == "id" && item.args != [] && item.args[0] == "ed25519"
  }

  predicate IsPolicy(item: Item) {
    item.keyword == "p"
  }

  predicate IsFamily(item: Item) {
    item.keyword == "family"
  }

  /** Which lines are read, by what stands in them. */
  lemma KindsMean(item: Item)
    ensures IsOnionKey(item) <==> item.keyword == "ntor-onion-key"
    ensures IsIdentity(item) <==> item.keyword == "id" && item.args[..if item.args == [] then 0 else 1] == ["ed25519"]
    ensures IsPolicy(item) <==> item.keyword == "p"
    ensures IsFamily(item) <==> item.keyword == "family"
  {
    if item.args != [] {
      assert item.args[..1] == [item.args[0]];
    }
  }

  /** One item; keywords this client does not need are skipped. */
  function Field(d: Decoders, f: Fields, item: Item): Result<Fields, Fault> {
    if IsOnionKey(item) then
      if item.args == [] then Err(MissingArgument)
      else match Key32(d, item.args[0])
        case Err(fault) => Err(fault)
        case Ok(key) => Ok(f.(onionKey := Some(key)))
    else if IsIdentity(item) then
      if |item.args| < 2 then Err(MissingArgument)
      else match Key32(d, item.args[1])
        case Err(fault) => Err(fault)
        case Ok(key) => Ok(f.(edIdentity := Some(key)))
    else if IsPolicy(item) then
      match Policy(d, item.args)
      case Err(fault) => Err(fault)
      case Ok(policy) => Ok(f.(exitPolicy := Some(policy)))
    else if IsFamily(item) then Ok(f.(family := set a | a in item.args))
    else Ok(f)
  }

  function FieldsOf(d: Decoders, items: seq<Item>): Result<Fields, Fault> {
    if items == [] then Ok(NO_FIELDS)
    else match FieldsOf(d, items[..|items| - 1])
      case Err(fault) => Err(fault)
      case Ok(f) => Field(d, f, items[|items| - 1])
  }

  /** The items come one at a time, so a malformed field is met before a later breach of the grammar. */
  function Read(d: Decoders, items: seq<Item>, breach: Option<Netdoc.Fault>, digest: bytes)
    : Result<Microdescriptor, Fault>
  {
    match FieldsOf(d, items)
    case Err(fault) => Err(fault)
    case Ok(f) =>
      if breach.Some? then Err(Grammar(breach.value))
      else if f.onionKey.None? then Err(NoOnionKey)
      else Ok(Microdescriptor(digest, f.onionKey.value, f.edIdentity, f.exitPolicy, f.family))
  }

  function ReadChunk(d: Decoders, chunk: string): Result<Microdescriptor, Fault> {
    var (items, breach) := Netdoc.Parse(Lines(chunk));
    Read(d, items, breach, d.sha256(chunk))
  }

  method ParseMicrodescriptor(d: Decoders, chunk: string) returns (r: Result<Microdescriptor, Fault>)
    ensures r == ReadChunk(d, chunk)
  {
    hide Policy, Key32;
    var items, breach := Netdoc.Items(Lines(chunk));
    var onionKey: Option<bytes>, edIdentity: Option<bytes>, exitPolicy: Option<ExitPolicy> := None, None, None;
    var family: set<string> := {};
    var i := 0;
    while i < |items|
      invariant 0 <= i <= |items|
      invariant FieldsOf(d, items[..i]) == Ok(Fields(onionKey, edIdentity, exitPolicy, family))
    {
      var item := items[i];
      assert items[..i + 1][..i] == items[..i];
      if IsOnionKey(item) {
        if item.args == [] {
          FirstBadField(d, items, i);
          return Err(MissingArgument);
        }
        var key := Key32(d, item.args[0]);
        if key.Err? {
          FirstBadField(d, items, i);
          return Err(key.error);
        }
        onionKey := Some(key.value);
      } else if IsIdentity(item) {
        if |item.args| < 2 {
          FirstBadField(d, items, i);
          return Err(MissingArgument);
        }
        var key := Key32(d, item.args[1]);
        if key.Err? {
          FirstBadField(d, items, i);
          return Err(key.error);
        }
        edIdentity := Some(key.value);
      } else if IsPolicy(item) {
        var policy := ParseExitPolicy(d, item.args);
        if policy.Err? {
          FirstBadField(d, items, i);
          return Err(policy.error);
        }
        exitPolicy := Some(policy.value);
      } else if IsFamily(item) {
        family := set a | a in item.args;
      }
      i := i + 1;
    }
    assert items[..i] == items;
    if breach.Some? {
      return Err(Grammar(breach.value));
    }
    if onionKey.None? {
      return Err(NoOnionKey);
    }
    return Ok(Microdescriptor(d.sha256(chunk), onionKey.value, edIdentity, exitPolicy, family));
  }

  lemma {:induction false} FirstBadField(d: Decoders, items: seq<Item>, i: nat)
    requires i < |items| && FieldsOf(d, items[..i]).Ok? && Field(d, FieldsOf(d, items[..i]).value, items[i]).Err?
    ensures FieldsOf(d, items) == Err(Field(d, FieldsOf(d, items[..i]).value, items[i]).error)
  {
    hide Field;
    if i == |items| - 1 {
      assert items[..|items| - 1] == items[..i];
    } else {
      assert items[..|items| - 1][..i] == items[..i];
      FirstBadField(d, items[..|items| - 1], i);
    }
  }

  // --- what the loop means -----------------------------------------------------------------------

  /** The last item of a kind. */
  function Last(items: seq<Item>, kind: Item -> bool): (last: Option<Item>)
    ensures last.Some? ==> last.value in items && kind(last.value)
  {
    if items == [] then None
    else if kind(items[|items| - 1]) then Some(items[|items| - 1])
    else Last(items[..|items| - 1], kind)
  }

  /** The 32 bytes that argument `n` of the last item of a kind decodes to. */
  predicate KeyOfLast(d: Decoders, items: seq<Item>, kind: Item -> bool, n: nat, key: Option<bytes>) {
    match Last(items, kind)
    case None => key == None
    case Some(i) => n < |i.args| && Key32(d, i.args[n]).Ok? && key == Some(Key32(d, i.args[n]).value)
  }

  predicate PolicyOfLast(d: Decoders, items: seq<Item>, policy: Option<ExitPolicy>) {
    match Last(items, IsPolicy)
    case None => policy == None
    case Some(i) => Policy(d, i.args).Ok? && policy == Some(Policy(d, i.args).value)
  }

  predicate FamilyOfLast(items: seq<Item>, family: set<string>) {
    family == match Last(items, IsFamily) case None => {} case Some(i) => set a | a in i.args
  }

  predicate LastCounts(d: Decoders, items: seq<Item>, f: Fields) {
    && KeyOfLast(d, items, IsOnionKey, 0, f.onionKey) && KeyOfLast(d, items, IsIdentity, 1, f.edIdentity)
    && PolicyOfLast(d, items, f.exitPolicy) && FamilyOfLast(items, f.family)
  }

  lemma LastStep(items: seq<Item>, item: Item, kind: Item -> bool)
    ensures Last(items + [item], kind) == if kind(item) then Some(item) else Last(items, kind)
  {
    assert (items + [item])[..|items|] == items;
  }

  lemma LastCountsStep(d: Decoders, items: seq<Item>, f: Fields, item: Item)
    requires LastCounts(d, items, f) && Field(d, f, item).Ok?
    ensures LastCounts(d, items + [item], Field(d, f, item).value)
  {
    hide Last, Policy, Key32;
    LastStep(items, item, IsOnionKey);
    LastStep(items, item, IsIdentity);
    LastStep(items, item, IsPolicy);
    LastStep(items, item, IsFamily);
  }

  /**
   * Every field is what the last item of its kind says; earlier ones must be well formed, and are not otherwise used.
   */
  lemma {:induction false} LastOneCounts(d: Decoders, items: seq<Item>)
    requires FieldsOf(d, items).Ok?
    ensures LastCounts(d, items, FieldsOf(d, items).value)
    ensures forall i :: i in items ==> Field(d, NO_FIELDS, i).Ok?
  {
    if items != [] {
      var init, last := items[..|items| - 1], items[|items| - 1];
      LastOneCounts(d, init);
      assert items == init + [last];
      LastCountsStep(d, init, FieldsOf(d, init).value, last);
      hide LastCounts;
      FieldAlike(d, FieldsOf(d, init).value, NO_FIELDS, last);
    }
  }

  lemma FieldAlike(d: Decoders, f: Fields, g: Fields, item: Item)
    ensures Field(d, f, item).Ok? <==> Field(d, g, item).Ok?
  {
    hide Policy, Key32;
  }

  // --- a whole batch -------------------------------------------------------------------------------

  function ReadAll(d: Decoders, chunks: seq<string>): Result<seq<Microdescriptor>, Fault> {
    if chunks == [] then Ok([])
    else
      var before := ReadAll(d, chunks[..|chunks| - 1]);
      if before.Err? then before
      else match ReadChunk(d, chunks[|chunks| - 1])
        case Err(fault) => Err(fault)
        case Ok(md) => Ok(before.value + [md])
  }

  function ReadBatch(d: Decoders, text: string): Result<seq<Microdescriptor>, Fault> {
    match Microdescriptors.Chunks(text)
    case Err(cut) => Err(Batch(cut))
    case Ok(chunks) => ReadAll(d, chunks)
  }

  method ParseMicrodescriptors(d: Decoders, text: string) returns (r: Result<seq<Microdescriptor>, Fault>)
    ensures r == ReadBatch(d, text)
  {
    hide ReadChunk;
    var cut := Microdescriptors.CutBatch(text);
    if cut.Err? {
      return Err(Batch(cut.error));
    }
    var chunks := cut.value;
    var mds: seq<Microdescriptor> := [];
    var i := 0;
    while i < |chunks|
      invariant 0 <= i <= |chunks| && ReadAll(d, chunks[..i]) == Ok(mds)
    {
      assert chunks[..i + 1][..i] == chunks[..i];
      var md := ParseMicrodescriptor(d, chunks[i]);
      if md.Err? {
        FirstBadChunk(d, chunks, i);
        return Err(md.error);
      }
      mds := mds + [md.value];
      i := i + 1;
    }
    assert chunks[..i] == chunks;
    return Ok(mds);
  }

  lemma {:induction false} FirstBadChunk(d: Decoders, chunks: seq<string>, i: nat)
    requires i < |chunks| && ReadAll(d, chunks[..i]).Ok? && ReadChunk(d, chunks[i]).Err?
    ensures ReadAll(d, chunks) == Err(ReadChunk(d, chunks[i]).error)
  {
    hide ReadChunk;
    if i == |chunks| - 1 {
      assert chunks[..|chunks| - 1] == chunks[..i];
    } else {
      assert chunks[..|chunks| - 1][..i] == chunks[..i];
      FirstBadChunk(d, chunks[..|chunks| - 1], i);
    }
  }

  lemma {:induction false} ReadAllEach(d: Decoders, chunks: seq<string>)
    ensures (forall i :: 0 <= i < |chunks| ==> ReadChunk(d, chunks[i]).Ok?) <==> ReadAll(d, chunks).Ok?
    ensures ReadAll(d, chunks).Ok? ==>
              && |ReadAll(d, chunks).value| == |chunks|
              && forall i :: 0 <= i < |chunks| ==> ReadChunk(d, chunks[i]) == Ok(ReadAll(d, chunks).value[i])
  {
    hide ReadChunk;
    if chunks != [] {
      var init := chunks[..|chunks| - 1];
      ReadAllEach(d, init);
      assert forall i :: 0 <= i < |init| ==> init[i] == chunks[i];
    }
  }

  /**
   * The digests of an accepted batch account for its text: hashed in order are stretches that join up to the whole text
   * from its first `onion-key` line on, one for each microdescriptor.
   */
  lemma DigestsCoverTheText(d: Decoders, text: string) returns (chunks: seq<string>)
    requires ReadBatch(d, text).Ok? && !AllSpace(text)
    ensures var mds := ReadBatch(d, text).value;
            && |mds| == |chunks| && |Flatten(chunks)| <= |text|
            && text == text[..|text| - |Flatten(chunks)|] + Flatten(chunks)
            && AllSpace(text[..|text| - |Flatten(chunks)|])
            && forall i :: 0 <= i < |mds| ==>
                Microdescriptors.IsEntry(chunks[i]) && mds[i].digest == d.sha256(chunks[i])
  {
    chunks := Microdescriptors.Chunks(text).value;
    Microdescriptors.ChunksAreEntries(text);
    ReadAllEach(d, chunks);
    var mds := ReadBatch(d, text).value;
    hide Microdescriptors.Chunks, Microdescriptors.IsEntry, ReadAll, AllSpace, Flatten, ReadChunk;
    forall i | 0 <= i < |mds| ensures mds[i].digest == d.sha256(chunks[i]) && Microdescriptors.IsEntry(chunks[i]) {
      assert ReadChunk(d, chunks[i]) == Ok(mds[i]) && chunks[i] in chunks;
      OwnDigest(d, chunks[i]);
    }
  }

  lemma OwnDigest(d: Decoders, chunk: string)
    requires ReadChunk(d, chunk).Ok?
    ensures ReadChunk(d, chunk).value.digest == d.sha256(chunk)
  {
    hide FieldsOf, Lines;
  }

  // --- writing and reading a batch -----------------------------------------------------------------

  /** Pieces that print as one microdescriptor: the first line says `onion-key`, and no other does. */
  predicate Document(pieces: seq<Netdoc.Piece>) {
    && (forall p :: p in pieces ==> Netdoc.WellFormed(p) && Netdoc.NewlineFree(p))
    && var lines := Netdoc.Print(pieces);
    && lines != [] && lines[0] == Microdescriptors.ONION_KEY
    && Microdescriptors.ONION_KEY !in lines[1..]
  }

  function Written(pieces: seq<Netdoc.Piece>): string {
    Unlines(Netdoc.Print(pieces))
  }

  function WrittenAll(documents: seq<seq<Netdoc.Piece>>): (texts: seq<string>)
    ensures |texts| == |documents| && forall i :: 0 <= i < |texts| ==> texts[i] == Written(documents[i])
  {
    seq(|documents|, i requires 0 <= i < |documents| => Written(documents[i]))
  }

  lemma {:induction false} UnlinesEnded(lines: seq<string>)
    ensures Microdescriptors.Ended(Unlines(lines))
  {
    if lines != [] {
      UnlinesEnded(lines[1..]);
      if |lines| == 1 {
        assert Unlines(lines[1..]) == "";
      }
    }
  }

  lemma {:induction false} NoStarts(key: string, lines: seq<string>, offset: int)
    requires key !in lines
    ensures Microdescriptors.Starts(key, lines, offset) == []
  {
    if lines != [] {
      NoStarts(key, lines[1..], offset + |lines[0]| + 1);
    }
  }

  lemma WrittenIsEntry(pieces: seq<Netdoc.Piece>)
    requires Document(pieces)
    ensures Microdescriptors.IsEntry(Written(pieces)) && Microdescriptors.Ended(Written(pieces))
  {
    hide LineAt, Lines;
    var key, lines, text := Microdescriptors.ONION_KEY, Netdoc.Print(pieces), Written(pieces);
    Netdoc.PrintedLinesAreLines(pieces);
    LinesOfUnlines(lines);
    UnlinesEnded(lines);
    assert (lines + [""])[1..] == lines[1..] + [""] && (lines + [""])[0] == key;
    NoStarts(key, lines[1..] + [""], |key| + 1);
    assert Microdescriptors.Starts(key, Lines(text), 0) == [0];
    Microdescriptors.StartsAreLines(key, text);
    forall b: int ensures LineAt(text, b, key) <==> b == 0 {
      assert b in [0] <==> b == 0;
    }
  }

  /** What a printed document says, read off its items. */
  function Said(d: Decoders, pieces: seq<Netdoc.Piece>): Result<Microdescriptor, Fault> {
    Read(d, Netdoc.Meanings(pieces), None, d.sha256(Written(pieces)))
  }

  /**
   * Written one after the other, any microdescriptors are read back as what each says by itself, in order, each under
   * the digest of its own text; and the batch is refused only for one that would be refused alone.
   */
  lemma BatchRoundTrip(d: Decoders, documents: seq<seq<Netdoc.Piece>>)
    requires documents != [] && forall i :: 0 <= i < |documents| ==> Document(documents[i])
    ensures var r := ReadBatch(d, Flatten(WrittenAll(documents)));
            && (r.Ok? <==> forall i :: 0 <= i < |documents| ==> Said(d, documents[i]).Ok?)
            && (r.Ok? ==> |r.value| == |documents|
                          && forall i :: 0 <= i < |documents| ==> Said(d, documents[i]) == Ok(r.value[i]))
  {
    var texts := WrittenAll(documents);
    hide Document, Written, Lines, LineAt, Read;
    hide Microdescriptors.Chunks, Microdescriptors.IsEntry, Microdescriptors.Ended;
    forall i | 0 <= i < |texts|
      ensures Microdescriptors.IsEntry(texts[i]) && Microdescriptors.Ended(texts[i])
      ensures ReadChunk(d, texts[i]) == Said(d, documents[i])
    {
      WrittenIsEntry(documents[i]);
      WrittenReads(d, documents[i]);
    }
    Microdescriptors.ChunksUndoConcat(texts);
    hide ReadChunk, Said;
    ReadAllEach(d, texts);
  }

  lemma WrittenReads(d: Decoders, pieces: seq<Netdoc.Piece>)
    requires Document(pieces)
    ensures ReadChunk(d, Written(pieces)) == Said(d, pieces)
  {
    Netdoc.TextRoundTrip(pieces);
  }
}
