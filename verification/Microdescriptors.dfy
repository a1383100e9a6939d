/**
 * Cutting a batch of concatenated microdescriptors apart (`_dir/parsers.py`, `parse_microdescriptors`). The digest that
 * names a microdescriptor is taken over its whole chunk, so where the cuts fall matters to the byte.
 */
module Microdescriptors {
  import opened Bytes
  import opened Sequences
  import opened Texts

  datatype Fault = NoOnionKey | Garbage

  const ONION_KEY := "onion-key"

  // --- what the loop computes ------------------------------------------------------------

  /** The offsets of the lines that say `key`, when the first of `lines` is at `offset`. */
  function Starts(key: string, lines: seq<string>, offset: int): seq<int> {
    if lines == [] then []
    else
      var rest := Starts(key, lines[1..], offset + |lines[0]| + 1);
      if lines[0] == key then [offset] + rest else rest
  }

  predicate Ascending(s: seq<int>) {
    forall i, j :: 0 <= i < j < |s| ==> s[i] < s[j]
  }

  predicate Cuts(bounds: seq<int>, end: nat) {
    Ascending(bounds) && forall i :: 0 <= i < |bounds| ==> 0 <= bounds[i] <= end
  }

  function Pieces(text: string, bounds: seq<int>): seq<string>
    requires Cuts(bounds, |text|) && bounds != []
  {
    seq(|bounds| - 1, i requires 0 <= i < |bounds| - 1 => text[bounds[i]..bounds[i + 1]])
  }

  /** The chunks of a batch, or why there are none. */
  function Chunks(text: string): Result<seq<string>, Fault> {
    if AllSpace(text) then Ok([])
    else
      StartsAreLines(ONION_KEY, text);
      var starts := Starts(ONION_KEY, Lines(text), 0);
      if starts == [] then Err(NoOnionKey)
      else
        assert starts[0] in starts;
        if !AllSpace(text[..starts[0]]) then Err(Garbage) else Ok(Pieces(text, starts + [|text|]))
  }

  method CutBatch(text: string) returns (r: Result<seq<string>, Fault>)
    ensures r == Chunks(text)
  {
    hide Starts, AllSpace, Lines;
    if AllSpace(text) {
      return Ok([]);
    }
    var starts := KeyOffsets(Lines(text));
    if starts == [] {
      return Err(NoOnionKey);
    }
    StartsAreLines(ONION_KEY, text);
    assert starts[0] in starts;
    if !AllSpace(text[..starts[0]]) {
      return Err(Garbage);
    }
    var bounds := starts + [|text|];
    var chunks := [];
    var k := 0;
    while k < |bounds| - 1
      invariant 0 <= k <= |bounds| - 1 == |Pieces(text, bounds)|
      invariant chunks == Pieces(text, bounds)[..k]
    {
      chunks := chunks + [text[bounds[k]..bounds[k + 1]]];
      k := k + 1;
    }
    assert chunks == Pieces(text, bounds);
    return Ok(chunks);
  }

  /** The first loop. */
  method KeyOffsets(lines: seq<string>) returns (starts: seq<int>)
    ensures starts == Starts(ONION_KEY, lines, 0)
  {
    starts := [];
    var offset := 0;
    var i := 0;
    assert lines[0..] == lines && [] + Starts(ONION_KEY, lines, 0) == Starts(ONION_KEY, lines, 0);
    while i < |lines|
      invariant 0 <= i <= |lines|
      invariant Starts(ONION_KEY, lines, 0) == starts + Starts(ONION_KEY, lines[i..], offset)
    {
      ghost var rest := Starts(ONION_KEY, lines[i + 1..], offset + |lines[i]| + 1);
      assert lines[i..][1..] == lines[i + 1..];
      assert starts + ([offset] + rest) == starts + [offset] + rest;
      if lines[i] == ONION_KEY {
        starts := starts + [offset];
      }
      offset := offset + |lines[i]| + 1;
      i := i + 1;
    }
    assert starts + [] == starts;
  }

  // --- the offsets mean lines ------------------------------------------------------------

  lemma LineAtFirst(key: string, text: string, at: int)
    requires 0 <= at <= LineLength(text)
    ensures LineAt(text, at, key) <==> at == 0 && FirstLine(text) == key
  {
    assert text[0..] == text;
    if 0 < at {
      assert text[..LineLength(text)][at - 1] == text[at - 1];
    }
  }

  lemma LineAtShifted(key: string, text: string, from: nat, j: int)
    requires 0 < from <= |text| && text[from - 1] == '\n' && j >= 0
    ensures LineAt(text, from + j, key) <==> LineAt(text[from..], j, key)
  {
    hide LineLength, FirstLine;
    if from + j <= |text| {
      assert text[from..][j..] == text[from + j..];
      if j > 0 {
        assert text[from..][j - 1] == text[from + (j - 1)];
      }
    }
  }

  lemma StartsCons(key: string, line: string, lines: seq<string>, offset: int)
    ensures var rest := Starts(key, lines, offset + |line| + 1);
            Starts(key, [line] + lines, offset) == if line == key then [offset] + rest else rest
  {
    assert ([line] + lines)[1..] == lines;
  }

  /** The lines of a text: the first, and those of what follows its newline. */
  function LaterLines(text: string): seq<string> {
    if LineLength(text) < |text| then Lines(text[LineLength(text) + 1..]) else []
  }

  lemma LinesUnfold(text: string)
    ensures Lines(text) == [FirstLine(text)] + LaterLines(text)
  {
    assert text[..|text|] == text;
    assert [text] + [] == [text];
  }

  lemma StartsUnfold(key: string, text: string, offset: int)
    ensures var rest := Starts(key, LaterLines(text), offset + LineLength(text) + 1);
            Starts(key, Lines(text), offset) == if FirstLine(text) == key then [offset] + rest else rest
  {
    hide Starts, Lines, LineLength, LaterLines;
    LinesUnfold(text);
    StartsCons(key, FirstLine(text), LaterLines(text), offset);
  }

  predicate Within(s: seq<int>, low: int, high: int) {
    forall i :: 0 <= i < |s| ==> low <= s[i] <= high
  }

  lemma {:induction false} StartsAreAscending(key: string, text: string, offset: int)
    ensures Ascending(Starts(key, Lines(text), offset))
        && Within(Starts(key, Lines(text), offset), offset, offset + |text|)
    decreases |text|
  {
    hide LineLength, Lines, FirstLine;
    var n := LineLength(text);
    StartsUnfold(key, text, offset);
    if n < |text| {
      StartsAreAscending(key, text[n + 1..], offset + n + 1);
    }
  }

  lemma {:induction false} StartIffLine(key: string, text: string, offset: nat, at: nat)
    requires at >= offset
    ensures at in Starts(key, Lines(text), offset) <==> LineAt(text, at - offset, key)
    decreases |text|
  {
    hide LineAt, Ascending, LineLength, Lines, FirstLine, Within;
    var n := LineLength(text);
    StartsUnfold(key, text, offset);
    if at - offset <= n {
      LineAtFirst(key, text, at - offset);
    }
    if n < |text| {
      StartsAreAscending(key, text[n + 1..], offset + n + 1);
      BelowIsOut(Starts(key, LaterLines(text), offset + n + 1), offset + n + 1, offset + |text|, at);
      if at - offset > n {
        LineAtShifted(key, text, n + 1, at - offset - (n + 1));
        StartIffLine(key, text[n + 1..], offset + n + 1, at);
      }
    } else if at - offset > n {
      assert Starts(key, [], offset + n + 1) == [];
      NoLinePastEnd(key, text, at - offset);
    }
  }

  lemma BelowIsOut(s: seq<int>, low: int, high: int, x: int)
    requires Within(s, low, high)
    ensures x < low ==> x !in s
  {
  }

  lemma NoneBetween(s: seq<int>, i: nat, next: int)
    requires Ascending(s) && i < |s| && (i + 1 < |s| ==> next <= s[i + 1])
    ensures forall c :: s[i] < c < next ==> c !in s
  {
    assert forall k :: 0 <= k < |s| ==> s[k] <= s[i] || s[k] >= next;
  }

  lemma NoLineBefore(key: string, text: string, at: int)
    requires at < 0
    ensures !LineAt(text, at, key)
  {
  }

  lemma NoLinePastEnd(key: string, text: string, at: int)
    requires at > |text|
    ensures !LineAt(text, at, key)
  {
  }

  /** The offsets found are exactly those where a line says `key`, in order. */
  lemma StartsAreLines(key: string, text: string)
    requires key != ""
    ensures Ascending(Starts(key, Lines(text), 0))
    ensures forall a :: a in Starts(key, Lines(text), 0) <==> LineAt(text, a, key)
    ensures Cuts(Starts(key, Lines(text), 0) + [|text|], |text|)
    ensures forall a :: a in Starts(key, Lines(text), 0) ==> a < |text|
  {
    hide LineAt, Starts, Lines;
    StartsAreAscending(key, text, 0);
    var s := Starts(key, Lines(text), 0);
    forall a ensures a in s <==> LineAt(text, a, key) {
      if a >= 0 {
        StartIffLine(key, text, 0, a);
      } else {
        NoLineBefore(key, text, a);
      }
    }
    forall a | a in s ensures a < |text| {
      LineFits(key, text, a);
    }
    forall i | 0 <= i < |s| ensures s[i] < |text| {
      assert s[i] in s;
    }
  }

  lemma LineFits(key: string, text: string, at: int)
    requires key != "" && LineAt(text, at, key)
    ensures at + |key| <= |text|
  {
  }

  // --- what the chunks are ---------------------------------------------------------------

  lemma {:induction false} PiecesConcat(text: string, bounds: seq<int>)
    requires Cuts(bounds, |text|) && bounds != []
    ensures Flatten(Pieces(text, bounds)) == text[bounds[0]..bounds[|bounds| - 1]]
  {
    if |bounds| > 1 {
      var init := bounds[..|bounds| - 1];
      PiecesConcat(text, init);
      FlattenSnoc(Pieces(text, bounds));
      assert Pieces(text, bounds)[..|bounds| - 2] == Pieces(text, init);
      assert bounds[0] <= init[|init| - 1];
      assert text[bounds[0]..init[|init| - 1]] + text[init[|init| - 1]..bounds[|bounds| - 1]]
          == text[bounds[0]..bounds[|bounds| - 1]];
    } else {
      assert Pieces(text, bounds) == [];
    }
  }

  /** One microdescriptor: `onion-key` is its first line and no other line of it. */
  ghost predicate IsEntry(chunk: string) {
    forall b: int :: LineAt(chunk, b, ONION_KEY) <==> b == 0
  }

  /** The first line from an offset inside a chunk is the same in the chunk: it ends before the next entry starts. */
  lemma FirstLineWithin(text: string, b: int, from: int)
    requires 0 <= from < b <= |text| && (b < |text| ==> text[b - 1] == '\n')
    ensures FirstLine(text[from..b]) == FirstLine(text[from..])
  {
    hide LineLength;
    var rest := text[from..];
    if b < |text| {
      assert rest[b - from - 1] == text[b - 1];
      LineEndsByNewline(rest, b - from - 1);
    }
    FirstLineOfPrefix(rest, b - from);
    assert rest[..b - from] == text[from..b];
  }

  lemma WithinChunk(key: string, text: string, a: int, b: int, c: int)
    requires key != "" && 0 <= a < b <= |text| && 0 <= c <= b - a && LineAt(text, a, key)
    requires b < |text| ==> LineAt(text, b, key)
    ensures LineAt(text[a..b], c, key) <==> c < b - a && LineAt(text, a + c, key)
  {
    hide LineLength, FirstLine;
    var chunk := text[a..b];
    if c < b - a {
      FirstLineWithin(text, b, a + c);
      assert chunk[c..] == text[a + c..b];
      if c > 0 {
        assert chunk[c - 1] == text[a + c - 1];
      }
    } else {
      assert chunk[c..] == "";
      FirstLineOfNothing();
    }
  }

  lemma FirstLineOfNothing()
    ensures FirstLine("") == ""
  {
  }

  lemma BetweenStarts(key: string, text: string, a: int, b: int)
    requires key != "" && 0 <= a < b <= |text| && LineAt(text, a, key)
    requires b < |text| ==> LineAt(text, b, key)
    requires forall c :: a < c < b ==> !LineAt(text, c, key)
    ensures forall c: int :: LineAt(text[a..b], c, key) <==> c == 0
  {
    hide FirstLine;
    forall c: int ensures LineAt(text[a..b], c, key) <==> c == 0 {
      if 0 <= c <= b - a {
        WithinChunk(key, text, a, b, c);
      }
    }
  }

  /**
   * The chunks of an accepted batch are the whole text from its first `onion-key` line on, each holds exactly one such
   * line, at its start, and only whitespace was left out.
   */
  lemma ChunksAreEntries(text: string)
    requires Chunks(text).Ok? && !AllSpace(text)
    ensures var chunks := Chunks(text).value;
            && chunks != [] && |Flatten(chunks)| <= |text|
            && text == text[..|text| - |Flatten(chunks)|] + Flatten(chunks)
            && AllSpace(text[..|text| - |Flatten(chunks)|])
            && forall c :: c in chunks ==> IsEntry(c)
  {
    hide Lines, Starts, LineAt, AllSpace, Flatten;
    StartsAreLines(ONION_KEY, text);
    var starts := Starts(ONION_KEY, Lines(text), 0);
    assert starts[0] in starts;
    var bounds := starts + [|text|];
    var chunks := Chunks(text).value;
    PiecesConcat(text, bounds);
    assert text == text[..starts[0]] + text[starts[0]..];
    forall i | 0 <= i < |chunks| ensures IsEntry(chunks[i]) {
      assert bounds[i] in starts;
      NoneBetween(starts, i, bounds[i + 1]);
      if bounds[i + 1] < |text| {
        assert bounds[i + 1] in starts;
      }
      BetweenStarts(ONION_KEY, text, bounds[i], bounds[i + 1]);
    }
  }

  // --- nothing else would do -------------------------------------------------------------

  predicate Ended(text: string) {
    text == "" || text[|text| - 1] == '\n'
  }

  lemma StartsStep(key: string, text: string, offset: int)
    requires LineLength(text) < |text|
    ensures var n := LineLength(text);
            Starts(key, Lines(text), offset)
            == (if FirstLine(text) == key then [offset] else []) + Starts(key, Lines(text[n + 1..]), offset + n + 1)
  {
    hide Starts, Lines, LineLength, FirstLine;
    StartsUnfold(key, text, offset);
    var rest := Starts(key, Lines(text[LineLength(text) + 1..]), offset + LineLength(text) + 1);
    assert [] + rest == rest;
  }

  lemma {:induction false} StartsOfConcat(key: string, a: string, b: string, offset: int)
    requires Ended(a) && key != ""
    ensures Starts(key, Lines(a + b), offset) == Starts(key, Lines(a), offset) + Starts(key, Lines(b), offset + |a|)
    decreases |a|
  {
    hide Lines, Starts, FirstLine, LineLength;
    if a == "" {
      assert a + b == b;
      StartsOfNothing(key, offset);
      assert [] + Starts(key, Lines(b), offset) == Starts(key, Lines(b), offset);
    } else {
      var n := LineLength(a);
      LineEndsByNewline(a, |a| - 1);
      FirstLineWithMore(a, b);
      StartsStep(key, a, offset);
      StartsStep(key, a + b, offset);
      assert (a + b)[n + 1..] == a[n + 1..] + b;
      StartsOfConcat(key, a[n + 1..], b, offset + n + 1);
      Associative(if FirstLine(a) == key then [offset] else [], Starts(key, Lines(a[n + 1..]), offset + n + 1),
                  Starts(key, Lines(b), offset + |a|));
    }
  }

  lemma FirstLineWithMore(a: string, b: string)
    requires LineLength(a) < |a|
    ensures LineLength(a + b) == LineLength(a) && FirstLine(a + b) == FirstLine(a)
  {
    var n := LineLength(a);
    assert (a + b)[n] == '\n';
    LineEndsByNewline(a + b, n);
    assert (a + b)[..|a|] == a;
    FirstLineOfPrefix(a + b, |a|);
  }

  lemma StartsOfNothing(key: string, offset: int)
    requires key != ""
    ensures Starts(key, Lines(""), offset) == []
  {
    assert Lines("")[1..] == [];
  }

  lemma StartsOfEntry(entry: string, offset: nat)
    requires IsEntry(entry)
    ensures Starts(ONION_KEY, Lines(entry), offset) == [offset]
  {
    hide Lines, Starts, LineAt;
    var s := Starts(ONION_KEY, Lines(entry), offset);
    StartsAreAscending(ONION_KEY, entry, offset);
    assert LineAt(entry, 0, ONION_KEY);
    StartIffLine(ONION_KEY, entry, offset, offset);
    forall i | 0 <= i < |s| ensures s[i] == offset {
      assert s[i] in s;
      StartIffLine(ONION_KEY, entry, offset, s[i]);
    }
    AllSame(s, offset);
  }

  lemma AllSame(s: seq<int>, x: int)
    requires Ascending(s) && x in s && forall i :: 0 <= i < |s| ==> s[i] == x
    ensures s == [x]
  {
    var first, last := s[0], s[|s| - 1];
    assert first == last;
  }

  /** Where each entry begins when they are written one after the other. */
  function Offsets(entries: seq<string>): (s: seq<int>)
    ensures |s| == |entries|
  {
    if entries == [] then [] else Offsets(entries[..|entries| - 1]) + [|Flatten(entries[..|entries| - 1])|]
  }

  /** Entries that can be written one after the other: each but the last ends its last line. */
  ghost predicate Writable(entries: seq<string>) {
    && (forall i :: 0 <= i < |entries| ==> IsEntry(entries[i]))
    && (forall i :: 0 <= i < |entries| - 1 ==> Ended(entries[i]))
  }

  lemma {:induction false} StartsOfEntries(entries: seq<string>)
    requires Writable(entries)
    ensures Starts(ONION_KEY, Lines(Flatten(entries)), 0) == Offsets(entries)
    ensures (forall i :: 0 <= i < |entries| ==> Ended(entries[i])) ==> Ended(Flatten(entries))
  {
    hide Lines, Starts, IsEntry;
    if entries == [] {
      StartsOfNothing(ONION_KEY, 0);
    } else {
      var init, last := entries[..|entries| - 1], entries[|entries| - 1];
      FlattenSnoc(entries);
      StartsOfEntries(init);
      StartsOfConcat(ONION_KEY, Flatten(init), last, 0);
      StartsOfEntry(last, |Flatten(init)|);
    }
  }

  lemma PiecesSnoc(text: string, more: string, bounds: seq<int>)
    requires Cuts(bounds, |text|) && bounds != [] && bounds[|bounds| - 1] == |text| && more != ""
    ensures Cuts(bounds + [|text + more|], |text + more|)
    ensures Pieces(text + more, bounds + [|text + more|]) == Pieces(text, bounds) + [more]
  {
    var longer := bounds + [|text + more|];
    forall i | 0 <= i < |bounds| ensures Pieces(text + more, longer)[i] == (Pieces(text, bounds) + [more])[i] {
      if i < |bounds| - 1 {
        assert bounds[i] < bounds[i + 1];
        assert (text + more)[bounds[i]..bounds[i + 1]] == text[bounds[i]..bounds[i + 1]];
      }
    }
  }

  lemma {:induction false} OffsetsCut(entries: seq<string>)
    requires forall i :: 0 <= i < |entries| ==> entries[i] != ""
    ensures var text := Flatten(entries);
            Cuts(Offsets(entries) + [|text|], |text|) && Pieces(text, Offsets(entries) + [|text|]) == entries
  {
    hide Pieces, Cuts;
    if entries == [] {
      PiecesOfNothing();
    } else {
      var init, last := entries[..|entries| - 1], entries[|entries| - 1];
      FlattenSnoc(entries);
      OffsetsCut(init);
      PiecesSnoc(Flatten(init), last, Offsets(init) + [|Flatten(init)|]);
      assert entries == init + [last];
    }
  }

  lemma PiecesOfNothing()
    ensures Cuts([0], 0) && Pieces("", [0]) == [] && [] + [0] == [0]
  {
  }

  /** Cutting undoes writing: any entries written one after the other are what the batch is cut into. */
  lemma ChunksUndoConcat(entries: seq<string>)
    requires entries != [] && Writable(entries)
    ensures Chunks(Flatten(entries)) == Ok(entries)
  {
    hide Lines, Starts, AllSpace, LineAt;
    var text := Flatten(entries);
    forall i | 0 <= i < |entries| ensures entries[i] != "" {
      assert LineAt(entries[i], 0, ONION_KEY);
      LineFits(ONION_KEY, entries[i], 0);
    }
    StartsOfEntries(entries);
    OffsetsCut(entries);
    StartsAreLines(ONION_KEY, text);
    FirstOffset(entries);
    var starts := Starts(ONION_KEY, Lines(text), 0);
    assert starts[0] in starts;
    KeyIsNoSpace(text);
    assert AllSpace(text[..0]) by { SpaceOfNothing(); }
  }

  lemma {:induction false} FirstOffset(entries: seq<string>)
    requires entries != []
    ensures Offsets(entries)[0] == 0
  {
    if |entries| > 1 {
      FirstOffset(entries[..|entries| - 1]);
    }
  }

  lemma KeyIsNoSpace(text: string)
    requires LineAt(text, 0, ONION_KEY)
    ensures !AllSpace(text)
  {
    assert text[0..] == text;
    assert text[0] == FirstLine(text)[0] == 'o';
  }

  lemma SpaceOfNothing()
    ensures AllSpace("")
  {
  }
}
