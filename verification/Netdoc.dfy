/**
 * The netdoc grammar (`_dir/parsers.py`, `_items`): a document is a list of keyword lines, each with at most one
 * PEM-style object, and blank lines anywhere between items.
 */
module Netdoc {
  import opened Bytes
  import opened Sequences
  import opened Texts

  datatype Item = Item(keyword: string, args: seq<string>, tag: Option<string>, data: string)

  datatype Fault = StrayDelimiter | MalformedKeyword | MalformedBegin | MismatchedEnd | Unterminated

  const BEGIN := "-----BEGIN "
  const END := "-----END "
  const DASHES := "-----"

  predicate IsAlnum(c: char) {
    'A' <= c <= 'Z' || 'a' <= c <= 'z' || '0' <= c <= '9'
  }

  /** `[A-Za-z0-9][A-Za-z0-9-]*`, to the end of the string. */
  predicate IsKeyword(s: string) {
    s != "" && IsAlnum(s[0]) && forall i :: 0 <= i < |s| ==> IsAlnum(s[i]) || s[i] == '-'
  }

  // --- what the loop computes ------------------------------------------------------------

  /** The words of a keyword line, without the historical prefix; None if they name no keyword. */
  function KeywordLine(line: string): (r: Option<seq<string>>)
    ensures r.Some? ==> r.value != [] && IsKeyword(r.value[0])
    ensures r.Some? ==> forall w :: w in r.value[1..] ==> w != "" && SpaceFree(w)
  {
    var words := Words(line);
    var parts := if words != [] && words[0] == "opt" then words[1..] else words;
    assert forall w :: w in parts ==> w in words;
    if parts == [] || !IsKeyword(parts[0]) then None
    else
      assert forall w :: w in parts[1..] ==> w in parts;
      Some(parts)
  }

  /** The lines up to `end`, joined, and what follows it. */
  function ReadBody(lines: seq<string>, end: string): (r: Result<(string, seq<string>), Fault>)
    ensures r.Ok? ==> |r.value.1| < |lines|
  {
    if lines == [] then Err(Unterminated)
    else if lines[0] == end then Ok(("", lines[1..]))
    else if StartsWith(lines[0], DASHES) then Err(MismatchedEnd)
    else match ReadBody(lines[1..], end)
      case Err(fault) => Err(fault)
      case Ok((data, rest)) => Ok((lines[0] + data, rest))
  }

  function EndLine(tag: string): string {
    END + tag + DASHES
  }

  /** The object that follows a keyword line, if there is one. */
  function ReadObject(lines: seq<string>): (r: Result<(Option<string>, string, seq<string>), Fault>)
    ensures r.Ok? ==> |r.value.2| <= |lines|
  {
    if lines == [] || !StartsWith(lines[0], BEGIN) then Ok((None, "", lines))
    else if !EndsWith(lines[0], DASHES) then Err(MalformedBegin)
    else
      var tag := TagOf(lines[0]);
      match ReadBody(lines[1..], EndLine(tag))
      case Err(fault) => Err(fault)
      case Ok((data, rest)) => Ok((Some(tag), data, rest))
  }

  /** The slice between the two fixed parts of a begin line. */
  function TagOf(begin: string): (tag: string)
    requires StartsWith(begin, BEGIN) && EndsWith(begin, DASHES)
    ensures begin == BEGIN + tag + DASHES
  {
    assert begin[|BEGIN| - 1] == ' ' by { assert begin[..|BEGIN|][|BEGIN| - 1] == ' '; }
    assert forall k :: |begin| - |DASHES| <= k < |begin| ==> begin[k] == '-' by {
      assert forall k :: |begin| - |DASHES| <= k < |begin| ==>
          begin[k] == begin[|begin| - |DASHES|..][k - (|begin| - |DASHES|)];
    }
    assert begin == begin[..|BEGIN|] + begin[|BEGIN|..|begin| - |DASHES|] + begin[|begin| - |DASHES|..];
    begin[|BEGIN|..|begin| - |DASHES|]
  }

  /** The items yielded, and the error that ended the iteration if one did. */
  function Parse(lines: seq<string>): (seq<Item>, Option<Fault>)
    decreases |lines|
  {
    if lines == [] then ([], None)
    else if lines[0] == "" then Parse(lines[1..])
    else if StartsWith(lines[0], DASHES) then ([], Some(StrayDelimiter))
    else match KeywordLine(lines[0])
      case None => ([], Some(MalformedKeyword))
      case Some(parts) =>
        match ReadObject(lines[1..])
        case Err(fault) => ([], Some(fault))
        case Ok((tag, data, rest)) =>
          Yielding([Item(parts[0], parts[1..], tag, data)], Parse(rest))
  }

  method Items(lines: seq<string>) returns (items: seq<Item>, error: Option<Fault>)
    ensures (items, error) == Parse(lines)
  {
    hide Words, ReadObject, IsKeyword;
    items, error := [], None;
    var i := 0;
    assert lines[0..] == lines;
    YieldNothing(Parse(lines));
    while i < |lines|
      invariant 0 <= i <= |lines| && error == None
      invariant Parse(lines) == Yielding(items, Parse(lines[i..]))
    {
      var line := lines[i];
      assert lines[i..][1..] == lines[i + 1..] && items + [] == items;
      i := i + 1;
      if line == "" {
        continue;
      }
      if StartsWith(line, DASHES) {
        return items, Some(StrayDelimiter);
      }
      var parts := Words(line);
      if parts != [] && parts[0] == "opt" {
        parts := parts[1..];
      }
      if parts == [] || !IsKeyword(parts[0]) {
        return items, Some(MalformedKeyword);
      }
      var pem := ObjectAt(lines, i);
      if pem.Err? {
        return items, Some(pem.error);
      }
      var (tag, data, next) := pem.value;
      YieldTwice(items, [Item(parts[0], parts[1..], tag, data)], Parse(lines[next..]));
      i := next;
      items := items + [Item(parts[0], parts[1..], tag, data)];
    }
    assert items + [] == items;
  }

  /** The inner loop: the object at line `i`, if there is one, and the line after it. */
  method ObjectAt(lines: seq<string>, i: nat) returns (r: Result<(Option<string>, string, nat), Fault>)
    requires i <= |lines|
    ensures match r
            case Err(fault) => ReadObject(lines[i..]) == Err(fault)
            case Ok((tag, data, next)) =>
              i <= next <= |lines| && ReadObject(lines[i..]) == Ok((tag, data, lines[next..]))
  {
    if i == |lines| || !StartsWith(lines[i], BEGIN) {
      return Ok((None, "", i));
    }
    if !EndsWith(lines[i], DASHES) {
      return Err(MalformedBegin);
    }
    var tag := TagOf(lines[i]);
    var end := EndLine(tag);
    var data := "";
    var at := i + 1;
    assert lines[i..][1..] == lines[at..];
    PrependNothing(ReadBody(lines[at..], end));
    while at < |lines| && lines[at] != end
      invariant i + 1 <= at <= |lines|
      invariant ReadBody(lines[i + 1..], end) == Prepended(data, ReadBody(lines[at..], end))
    {
      if StartsWith(lines[at], DASHES) {
        return Err(MismatchedEnd);
      }
      assert lines[at..][1..] == lines[at + 1..];
      assert data + (lines[at] + "") == data + lines[at];
      PrependTwice(data, lines[at], ReadBody(lines[at + 1..], end));
      data := data + lines[at];
      at := at + 1;
    }
    if at >= |lines| {
      return Err(Unterminated);
    }
    assert lines[at..][1..] == lines[at + 1..];
    assert data + "" == data;
    return Ok((Some(tag), data, at + 1));
  }

  function Yielding(items: seq<Item>, rest: (seq<Item>, Option<Fault>)): (seq<Item>, Option<Fault>) {
    (items + rest.0, rest.1)
  }

  lemma YieldNothing(rest: (seq<Item>, Option<Fault>))
    ensures Yielding([], rest) == rest
  {
    assert [] + rest.0 == rest.0;
  }

  lemma YieldTwice(a: seq<Item>, b: seq<Item>, rest: (seq<Item>, Option<Fault>))
    ensures Yielding(a, Yielding(b, rest)) == Yielding(a + b, rest)
  {
    assert a + (b + rest.0) == a + b + rest.0;
  }

  // --- printing --------------------------------------------------------------------------

  /** What a document is printed from: an item with the lines of its object, or a blank line. */
  datatype Piece = Blank | Entry(keyword: string, args: seq<string>, pem: Option<(string, seq<string>)>)

  predicate WellFormed(p: Piece) {
    match p
    case Blank => true
    case Entry(keyword, args, pem) =>
      && IsKeyword(keyword) && keyword != "opt"
      && (forall a :: a in args ==> a != "" && SpaceFree(a))
      && (pem.Some? ==> forall l :: l in pem.value.1 ==> !StartsWith(l, DASHES))
  }

  function Meaning(p: Piece): Item
    requires p.Entry?
  {
    match p.pem
    case None => Item(p.keyword, p.args, None, "")
    case Some((tag, body)) => Item(p.keyword, p.args, Some(tag), Flatten(body))
  }

  function Meanings(pieces: seq<Piece>): seq<Item> {
    if pieces == [] then []
    else (if pieces[0].Blank? then [] else [Meaning(pieces[0])]) + Meanings(pieces[1..])
  }

  function PrintObject(pem: Option<(string, seq<string>)>): seq<string> {
    match pem
    case None => []
    case Some((tag, body)) => [BEGIN + tag + DASHES] + body + [EndLine(tag)]
  }

  function PrintPiece(p: Piece): seq<string> {
    match p
    case Blank => [""]
    case Entry(keyword, args, pem) => [Spaced([keyword] + args)] + PrintObject(pem)
  }

  function Print(pieces: seq<Piece>): seq<string> {
    if pieces == [] then [] else PrintPiece(pieces[0]) + Print(pieces[1..])
  }

  // --- printing and reading ---------------------------------------------------------------

  lemma AlnumIsNoSpace(s: string)
    requires IsKeyword(s)
    ensures SpaceFree(s) && !StartsWith(s, DASHES)
  {
  }

  /** The keyword line that is printed reads back as its words. */
  lemma KeywordLineRoundTrip(keyword: string, args: seq<string>)
    requires WellFormed(Entry(keyword, args, None))
    ensures KeywordLine(Spaced([keyword] + args)) == Some([keyword] + args)
    ensures var line := Spaced([keyword] + args);
            line != "" && !StartsWith(line, DASHES) && !StartsWith(line, BEGIN)
  {
    AlnumIsNoSpace(keyword);
    WordsOfSpaced([keyword] + args);
    SpacedStarts([keyword] + args);
  }

  /** Why `opt` is no keyword to print: as the first word it is dropped, whatever follows it. */
  lemma LeadingOptIsDropped(words: seq<string>)
    requires forall w :: w in words ==> w != "" && SpaceFree(w)
    ensures KeywordLine(Spaced(["opt"] + words))
            == if words != [] && IsKeyword(words[0]) then Some(words) else None
  {
    AlnumIsNoSpace("opt");
    WordsOfSpaced(["opt"] + words);
    assert (["opt"] + words)[1..] == words;
  }

  lemma SpacedStarts(words: seq<string>)
    requires words != [] && IsKeyword(words[0])
    ensures Spaced(words) != "" && !StartsWith(Spaced(words), DASHES) && !StartsWith(Spaced(words), BEGIN)
  {
    assert Spaced(words)[0] == words[0][0];
  }

  lemma {:induction false} BodyRoundTrip(body: seq<string>, end: string, tail: seq<string>)
    requires StartsWith(end, DASHES) && forall l :: l in body ==> !StartsWith(l, DASHES)
    ensures ReadBody(body + [end] + tail, end) == Ok((Flatten(body), tail))
  {
    var lines := body + [end] + tail;
    if body == [] {
      assert lines[1..] == tail;
    } else {
      assert body[0] in body;
      assert forall l :: l in body[1..] ==> l in body;
      assert lines[1..] == body[1..] + [end] + tail;
      BodyRoundTrip(body[1..], end, tail);
    }
  }

  lemma ObjectRoundTrip(pem: Option<(string, seq<string>)>, tail: seq<string>)
    requires pem.Some? ==> forall l :: l in pem.value.1 ==> !StartsWith(l, DASHES)
    requires tail == [] || !StartsWith(tail[0], BEGIN)
    ensures ReadObject(PrintObject(pem) + tail)
            == match pem
               case None => Ok((None, "", tail))
               case Some((tag, body)) => Ok((Some(tag), Flatten(body), tail))
  {
    match pem
    case None => assert [] + tail == tail;
    case Some((tag, body)) =>
      var begin := BEGIN + tag + DASHES;
      var lines := PrintObject(pem) + tail;
      assert lines[0] == begin && lines[1..] == body + [EndLine(tag)] + tail;
      assert begin[..|BEGIN|] == BEGIN && begin[|begin| - |DASHES|..] == DASHES;
      assert TagOf(begin) == tag;
      assert EndLine(tag)[..|DASHES|] == DASHES;
      BodyRoundTrip(body, EndLine(tag), tail);
  }

  lemma PrintedStarts(pieces: seq<Piece>)
    requires forall p :: p in pieces ==> WellFormed(p)
    ensures Print(pieces) == [] || !StartsWith(Print(pieces)[0], BEGIN)
  {
    if pieces != [] {
      assert WellFormed(pieces[0]);
      if pieces[0].Entry? {
        SpacedStarts([pieces[0].keyword] + pieces[0].args);
      }
    }
  }

  lemma ParseEntry(p: Piece, tail: seq<string>)
    requires p.Entry? && WellFormed(p) && (tail == [] || !StartsWith(tail[0], BEGIN))
    ensures Parse(PrintPiece(p) + tail) == Yielding([Meaning(p)], Parse(tail))
  {
    hide WellFormed, PrintObject, ReadObject, KeywordLine, Spaced, StartsWith;
    EntryParts(p);
    KeywordLineRoundTrip(p.keyword, p.args);
    ObjectRoundTrip(p.pem, tail);
    var line := Spaced([p.keyword] + p.args);
    assert PrintPiece(p) + tail == [line] + (PrintObject(p.pem) + tail);
    assert ([line] + (PrintObject(p.pem) + tail))[1..] == PrintObject(p.pem) + tail;
    assert ([p.keyword] + p.args)[1..] == p.args;
  }

  lemma EntryParts(p: Piece)
    requires p.Entry? && WellFormed(p)
    ensures WellFormed(Entry(p.keyword, p.args, None))
    ensures p.pem.Some? ==> forall l :: l in p.pem.value.1 ==> !StartsWith(l, DASHES)
  {
  }

  /** Reading the printed lines of any well-formed pieces gives back their items, in order, and no error. */
  lemma {:induction false} PrintThenParse(pieces: seq<Piece>)
    requires forall p :: p in pieces ==> WellFormed(p)
    ensures Parse(Print(pieces)) == (Meanings(pieces), None)
  {
    hide WellFormed, StartsWith;
    if pieces != [] {
      var p, rest := pieces[0], pieces[1..];
      assert WellFormed(p) && forall q :: q in rest ==> q in pieces;
      PrintThenParse(rest);
      PrintedStarts(rest);
      if p.Blank? {
        assert Print(pieces)[0] == "" && Print(pieces)[1..] == Print(rest);
        assert [] + Meanings(rest) == Meanings(rest);
      } else {
        ParseEntry(p, Print(rest));
      }
    }
  }

  predicate NewlineFree(p: Piece) {
    p.Entry? && p.pem.Some? ==> '\n' !in p.pem.value.0 && forall l :: l in p.pem.value.1 ==> '\n' !in l
  }

  lemma {:induction false} SpacedNewlineFree(words: seq<string>)
    requires forall w :: w in words ==> SpaceFree(w)
    ensures '\n' !in Spaced(words)
  {
    if |words| == 1 {
      assert SpaceFree(words[0]);
    } else if words != [] {
      assert SpaceFree(words[0]);
      assert forall w :: w in words[1..] ==> w in words;
      SpacedNewlineFree(words[1..]);
    }
  }

  lemma PieceLinesAreLines(p: Piece)
    requires WellFormed(p) && NewlineFree(p)
    ensures forall l :: l in PrintPiece(p) ==> '\n' !in l
  {
    if p.Entry? {
      AlnumIsNoSpace(p.keyword);
      SpacedNewlineFree([p.keyword] + p.args);
    }
  }

  lemma {:induction false} PrintedLinesAreLines(pieces: seq<Piece>)
    requires forall p :: p in pieces ==> WellFormed(p) && NewlineFree(p)
    ensures forall l :: l in Print(pieces) ==> '\n' !in l
  {
    hide WellFormed, NewlineFree, PrintPiece;
    if pieces != [] {
      assert forall q :: q in pieces[1..] ==> q in pieces;
      PieceLinesAreLines(pieces[0]);
      PrintedLinesAreLines(pieces[1..]);
    }
  }

  lemma {:induction false} TrailingBlank(lines: seq<string>, items: seq<Item>)
    requires Parse(lines) == (items, None)
    ensures Parse(lines + [""]) == (items, None)
    decreases |lines|
  {
    hide KeywordLine;
    if lines == [] {
      assert lines + [""] == [""];
    } else {
      assert (lines + [""])[1..] == lines[1..] + [""];
      if lines[0] == "" {
        TrailingBlank(lines[1..], items);
      } else {
        ObjectThenBlank(lines[1..]);
        var rest := ReadObject(lines[1..]).value.2;
        TrailingBlank(rest, Parse(rest).0);
      }
    }
  }

  lemma {:induction false} BodyThenBlank(lines: seq<string>, end: string)
    requires ReadBody(lines, end).Ok?
    ensures var (data, rest) := ReadBody(lines, end).value; ReadBody(lines + [""], end) == Ok((data, rest + [""]))
  {
    assert (lines + [""])[1..] == lines[1..] + [""];
    if lines[0] != end {
      BodyThenBlank(lines[1..], end);
    }
  }

  lemma ObjectThenBlank(lines: seq<string>)
    requires ReadObject(lines).Ok?
    ensures var (tag, data, rest) := ReadObject(lines).value;
            ReadObject(lines + [""]) == Ok((tag, data, rest + [""]))
  {
    if lines != [] && StartsWith(lines[0], BEGIN) {
      assert (lines + [""])[1..] == lines[1..] + [""];
      BodyThenBlank(lines[1..], EndLine(TagOf(lines[0])));
    }
  }

  /** The same at the level of text: print with newlines, split at newlines, read. */
  lemma TextRoundTrip(pieces: seq<Piece>)
    requires forall p :: p in pieces ==> WellFormed(p) && NewlineFree(p)
    ensures Parse(Lines(Unlines(Print(pieces)))) == (Meanings(pieces), None)
  {
    PrintedLinesAreLines(pieces);
    LinesOfUnlines(Print(pieces));
    PrintThenParse(pieces);
    TrailingBlank(Print(pieces), Meanings(pieces));
  }

  predicate Readable(item: Item) {
    && IsKeyword(item.keyword)
    && (forall a :: a in item.args ==> a != "" && SpaceFree(a))
    && (item.tag.None? ==> item.data == "")
  }

  /** Conversely, whatever the text, every item yielded has a keyword, and arguments free of whitespace. */
  lemma {:induction false} YieldedAreReadable(lines: seq<string>)
    ensures forall item :: item in Parse(lines).0 ==> Readable(item)
    decreases |lines|
  {
    if lines != [] {
      if lines[0] == "" {
        YieldedAreReadable(lines[1..]);
      } else if !StartsWith(lines[0], DASHES) && KeywordLine(lines[0]).Some? && ReadObject(lines[1..]).Ok? {
        var parts := KeywordLine(lines[0]).value;
        var (tag, data, rest) := ReadObject(lines[1..]).value;
        assert Readable(Item(parts[0], parts[1..], tag, data));
        YieldedAreReadable(rest);
      }
    }
  }
}
