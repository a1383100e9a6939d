/** Which documents the netdoc grammar accepts, what they say, and what stops it at the others. */
module NetdocLaws {
  import opened Bytes
  import opened Netdoc
  import opened Sequences
  import opened Texts

  /** An ASCII letter or digit, by its code. */
  predicate LetterOrDigit(c: char) {
    48 <= c as int <= 57 || 65 <= c as int <= 90 || 97 <= c as int <= 122
  }

  /** A keyword starts with a letter or digit, and goes on with letters, digits and dashes. */
  lemma KeywordMeans(s: string)
    ensures IsKeyword(s) <==> s != "" && LetterOrDigit(s[0]) && forall c :: c in s ==> LetterOrDigit(c) || c == '-'
  {
    if IsKeyword(s) {
      forall c | c in s ensures LetterOrDigit(c) || c == '-' {
        var i :| 0 <= i < |s| && s[i] == c;
      }
    }
    if forall c :: c in s ==> LetterOrDigit(c) || c == '-' {
      forall i | 0 <= i < |s| ensures IsAlnum(s[i]) || s[i] == '-' {
        assert s[i] in s;
      }
    }
  }

  /** A keyword line says `words`: as they stand, whatever the spacing, or after the historical prefix. */
  predicate Says(line: string, words: seq<string>) {
    && line != "" && !StartsWith(line, "-----")
    && words != [] && IsKeyword(words[0])
    && (Words(line) == ["opt"] + words || (Words(line) == words && words[0] != "opt"))
  }

  /** The body of an object is any lines that do not start with dashes. */
  predicate Undashed(lines: seq<string>) {
    forall l :: l in lines ==> !StartsWith(l, "-----")
  }

  /** `lines` write out `pieces`: a blank line each, or a keyword line and the lines of its object. */
  predicate Writes(lines: seq<string>, pieces: seq<Piece>)
    decreases |pieces|
  {
    if pieces == [] then lines == []
    else match pieces[0]
      case Blank => lines != [] && lines[0] == "" && Writes(lines[1..], pieces[1..])
      case Entry(keyword, args, None) =>
        lines != [] && Says(lines[0], [keyword] + args) && Writes(lines[1..], pieces[1..])
      case Entry(keyword, args, Some((tag, body))) =>
        && |lines| >= 3 + |body| && Says(lines[0], [keyword] + args)
        && lines[1] == "-----BEGIN " + tag + "-----" && lines[2..2 + |body|] == body && Undashed(body)
        && lines[2 + |body|] == "-----END " + tag + "-----"
        && Writes(lines[3 + |body|..], pieces[1..])
  }

  lemma SaysIsKeywordLine(line: string, words: seq<string>)
    requires line != "" && !StartsWith(line, "-----")
    ensures Says(line, words) <==> KeywordLine(line) == Some(words)
  {
    hide Words;
    var all := Words(line);
    if all != [] && all[0] == "opt" {
      assert all == ["opt"] + all[1..];
    }
    if all == ["opt"] + words {
      assert all[1..] == words;
    }
  }

  lemma {:induction false} BodyUntil(lines: seq<string>, end: string, body: seq<string>, rest: seq<string>)
    requires StartsWith(end, DASHES)
    ensures Undashed(body) && lines == body + [end] + rest ==> ReadBody(lines, end) == Ok((Flatten(body), rest))
  {
    if Undashed(body) && lines == body + [end] + rest {
      BodyRoundTrip(body, end, rest);
    }
  }

  lemma {:induction false} BodyOf(lines: seq<string>, end: string) returns (body: seq<string>)
    requires ReadBody(lines, end).Ok?
    ensures Undashed(body) && lines == body + [end] + ReadBody(lines, end).value.1
    ensures Flatten(body) == ReadBody(lines, end).value.0
  {
    if lines[0] == end {
      body := [];
      assert lines == [end] + lines[1..];
    } else {
      var tail := BodyOf(lines[1..], end);
      body := [lines[0]] + tail;
      assert lines == [lines[0]] + lines[1..];
      assert body[1..] == tail;
    }
  }

  lemma ObjectOf(lines: seq<string>) returns (body: seq<string>)
    requires lines != [] && StartsWith(lines[0], BEGIN) && ReadObject(lines).Ok?
    ensures var (tag, data, rest) := ReadObject(lines).value;
            && tag.Some? && Undashed(body) && data == Flatten(body)
            && lines == ["-----BEGIN " + tag.value + "-----"] + body + ["-----END " + tag.value + "-----"] + rest
  {
    var tag := TagOf(lines[0]);
    body := BodyOf(lines[1..], EndLine(tag));
    assert lines == [lines[0]] + lines[1..];
  }

  lemma {:induction false} WritesSnocFree(lines: seq<string>, pieces: seq<Piece>)
    requires Writes(lines, pieces)
    ensures lines == [] || !StartsWith(lines[0], BEGIN)
  {
    if pieces != [] && StartsWith(lines[0], BEGIN) {
      assert lines[0][..|DASHES|] == BEGIN[..|DASHES|] == DASHES;
    }
  }

  /** What writes out pieces is read as their meanings. */
  lemma {:induction false} WrittenIsRead(lines: seq<string>, pieces: seq<Piece>)
    requires Writes(lines, pieces)
    ensures Parse(lines) == (Meanings(pieces), None)
    decreases |pieces|
  {
    hide KeywordLine, Says;
    if pieces == [] {
    } else if pieces[0].Blank? {
      WrittenIsRead(lines[1..], pieces[1..]);
      assert [] + Meanings(pieces[1..]) == Meanings(pieces[1..]);
    } else {
      var p := pieces[0];
      var rest := lines[1 + |PrintObject(p.pem)|..];
      EntryWritten(lines, pieces);
      WrittenIsRead(rest, pieces[1..]);
      WritesSnocFree(rest, pieces[1..]);
      ObjectRoundTrip(p.pem, rest);
      assert ([p.keyword] + p.args)[1..] == p.args;
    }
  }

  lemma ObjectWritten(lines: seq<string>, tag: string, body: seq<string>)
    requires |lines| >= 3 + |body| && lines[1] == BEGIN + tag + DASHES
    requires lines[2..2 + |body|] == body && lines[2 + |body|] == EndLine(tag)
    ensures |PrintObject(Some((tag, body)))| == 2 + |body|
    ensures lines[1..] == PrintObject(Some((tag, body))) + lines[3 + |body|..]
  {
    hide EndLine;
    assert lines[1..] == [lines[1]] + lines[2..2 + |body|] + [lines[2 + |body|]] + lines[3 + |body|..];
  }

  lemma EntryWritten(lines: seq<string>, pieces: seq<Piece>)
    requires pieces != [] && pieces[0].Entry? && Writes(lines, pieces)
    ensures var p := pieces[0];
            && lines != [] && lines[0] != "" && !StartsWith(lines[0], DASHES)
            && KeywordLine(lines[0]) == Some([p.keyword] + p.args)
            && (p.pem.Some? ==> Undashed(p.pem.value.1))
            && 1 + |PrintObject(p.pem)| <= |lines|
            && lines[1..] == PrintObject(p.pem) + lines[1 + |PrintObject(p.pem)|..]
            && Writes(lines[1 + |PrintObject(p.pem)|..], pieces[1..])
  {
    hide KeywordLine, PrintObject, EndLine, Undashed, Says, StartsWith;
    var p := pieces[0];
    WritesEntry(lines, pieces);
    SaysWhat(lines[0], [p.keyword] + p.args);
    SaysIsKeywordLine(lines[0], [p.keyword] + p.args);
    hide Writes;
    if p.pem.Some? {
      EndLineIs(p.pem.value.0);
      ObjectWritten(lines, p.pem.value.0, p.pem.value.1);
    } else {
      NoObject(lines);
    }
  }

  lemma WritesEntry(lines: seq<string>, pieces: seq<Piece>)
    requires pieces != [] && pieces[0].Entry? && Writes(lines, pieces)
    ensures lines != [] && Says(lines[0], [pieces[0].keyword] + pieces[0].args)
    ensures pieces[0].pem == None ==> Writes(lines[1..], pieces[1..])
    ensures pieces[0].pem.Some? ==>
              var tag, body := pieces[0].pem.value.0, pieces[0].pem.value.1;
              && |lines| >= 3 + |body| && lines[1] == BEGIN + tag + DASHES && lines[2..2 + |body|] == body
              && Undashed(body) && lines[2 + |body|] == "-----END " + tag + "-----"
              && Writes(lines[3 + |body|..], pieces[1..])
  {
    hide Says, Undashed;
  }

  lemma NoObject(lines: seq<string>)
    requires lines != []
    ensures PrintObject(None) == [] && lines[1..] == [] + lines[1..]
  {
  }

  lemma EndLineIs(tag: string)
    ensures EndLine(tag) == "-----END " + tag + "-----"
  {
  }

  lemma SaysWhat(line: string, words: seq<string>)
    requires Says(line, words)
    ensures line != "" && !StartsWith(line, DASHES) && words != []
  {
  }

  // --- what is read was written --------------------------------------------------------------

  /** The line that begins an object. */
  function BeginLine(tag: string): string {
    "-----BEGIN " + tag + "-----"
  }

  /** The lines start with what looks like an object, which is wrong in the way `fault` says. */
  ghost predicate BadObject(lines: seq<string>, fault: Netdoc.Fault) {
    && lines != [] && StartsWith(lines[0], "-----BEGIN ")
    && match fault
       case MalformedBegin => !EndsWith(lines[0], "-----")
       case MismatchedEnd => exists tag, k: nat :: Mismatch(lines, tag, k)
       case Unterminated => Undashed(lines[1..]) && exists tag :: lines[0] == BeginLine(tag)
       case _ => false
  }

  /** The first line with dashes after the begin line is the `k`th, and does not end the object. */
  predicate Mismatch(lines: seq<string>, tag: string, k: nat) {
    && 1 <= k < |lines| && lines[0] == BeginLine(tag) && Undashed(lines[1..k])
    && StartsWith(lines[k], "-----") && lines[k] != "-----END " + tag + "-----"
  }

  /** No piece starts here: `fault` says why. */
  ghost predicate Broken(rest: seq<string>, fault: Netdoc.Fault) {
    && rest != [] && rest[0] != ""
    && match fault
       case StrayDelimiter => StartsWith(rest[0], "-----")
       case MalformedKeyword => !StartsWith(rest[0], "-----") && forall words :: !Says(rest[0], words)
       case _ => BadObject(rest[1..], fault) && exists words :: Says(rest[0], words)
  }

  lemma {:induction false} BadBody(lines: seq<string>, end: string) returns (k: nat)
    requires ReadBody(lines, end).Err?
    ensures match ReadBody(lines, end).error
            case MismatchedEnd =>
              k < |lines| && Undashed(lines[..k]) && StartsWith(lines[k], "-----") && lines[k] != end
            case Unterminated => Undashed(lines)
            case _ => false
  {
    k := 0;
    if lines != [] && !StartsWith(lines[0], DASHES) {
      var deeper := BadBody(lines[1..], end);
      k := deeper + 1;
      assert lines == [lines[0]] + lines[1..];
      if k < |lines| {
        assert lines[..k] == [lines[0]] + lines[1..][..deeper];
      }
    }
  }

  lemma BadObjectRead(lines: seq<string>)
    requires ReadObject(lines).Err?
    ensures BadObject(lines, ReadObject(lines).error)
  {
    if EndsWith(lines[0], DASHES) {
      var tag := TagOf(lines[0]);
      assert lines[0] == BeginLine(tag);
      var k := BadBody(lines[1..], EndLine(tag));
      if ReadObject(lines).error.MismatchedEnd? {
        assert lines[1..k + 1] == lines[1..][..k];
        assert Mismatch(lines, tag, k + 1);
      }
    }
  }

  lemma PieceRead(lines: seq<string>) returns (p: Piece, n: nat)
    requires lines != [] && lines[0] != "" && !StartsWith(lines[0], DASHES)
    requires KeywordLine(lines[0]).Some? && ReadObject(lines[1..]).Ok?
    ensures p.Entry? && 1 <= n <= |lines|
    ensures Parse(lines) == Yielding([Meaning(p)], Parse(lines[n..]))
    ensures forall pieces, m :: n <= m <= |lines| && Writes(lines[n..m], pieces) ==> Writes(lines[..m], [p] + pieces)
  {
    hide KeywordLine, Says, TagOf;
    var parts := KeywordLine(lines[0]).value;
    var (tag, data, rest) := ReadObject(lines[1..]).value;
    SaysIsKeywordLine(lines[0], parts);
    SaysWhat(lines[0], parts);
    assert [parts[0]] + parts[1..] == parts;
    if lines[1..] != [] && StartsWith(lines[1..][0], BEGIN) {
      var body := ObjectOf(lines[1..]);
      n := 3 + |body|;
      p := Entry(parts[0], parts[1..], Some((tag.value, body)));
      assert lines[2..] == lines[1..][1..];
      assert lines[1] == lines[1..][0] && lines[2..2 + |body|] == lines[1..][1..1 + |body|] == body;
      assert lines[2 + |body|] == lines[1..][1 + |body|];
      assert lines[n..] == lines[1..][2 + |body|..] == rest;
    } else {
      n := 1;
      p := Entry(parts[0], parts[1..], None);
    }
    forall pieces, m | n <= m <= |lines| && Writes(lines[n..m], pieces) ensures Writes(lines[..m], [p] + pieces) {
      assert ([p] + pieces)[1..] == pieces && lines[..m][n..] == lines[n..m];
      if p.pem.Some? {
        assert lines[..m][2..n - 1] == lines[2..n - 1];
      }
    }
  }

  /** Every document that is accepted is written out from pieces, whose meanings are its items. */
  lemma {:induction false} ReadIsWritten(lines: seq<string>) returns (pieces: seq<Piece>)
    requires Parse(lines).1 == None
    ensures Writes(lines, pieces) && Parse(lines).0 == Meanings(pieces)
    decreases |lines|
  {
    hide KeywordLine, ReadObject;
    if lines == [] {
      pieces := [];
    } else if lines[0] == "" {
      var rest := ReadIsWritten(lines[1..]);
      pieces := [Blank] + rest;
      assert pieces[1..] == rest;
    } else {
      var p, n := PieceRead(lines);
      var rest := ReadIsWritten(lines[n..]);
      pieces := [p] + rest;
      assert pieces[1..] == rest && lines[n..|lines|] == lines[n..] && lines[..|lines|] == lines;
    }
  }

  /** Where reading stops with an error, the lines before are written out from the items yielded, and it is there. */
  lemma {:induction false} FaultIsThere(lines: seq<string>) returns (pieces: seq<Piece>, n: nat)
    requires Parse(lines).1.Some?
    ensures n <= |lines| && Writes(lines[..n], pieces) && Parse(lines).0 == Meanings(pieces)
    ensures Broken(lines[n..], Parse(lines).1.value)
    decreases |lines|
  {
    hide KeywordLine, ReadObject, Says, BadObject;
    pieces, n := [], 0;
    assert lines[..0] == [] && lines[0..] == lines;
    if lines[0] == "" {
      var rest, m := FaultIsThere(lines[1..]);
      pieces, n := [Blank] + rest, m + 1;
      assert pieces[1..] == rest && lines[..n][1..] == lines[1..][..m] && lines[n..] == lines[1..][m..];
    } else if !StartsWith(lines[0], DASHES) {
      forall words ensures Says(lines[0], words) <==> KeywordLine(lines[0]) == Some(words) {
        SaysIsKeywordLine(lines[0], words);
      }
      if KeywordLine(lines[0]).Some? {
        assert Says(lines[0], KeywordLine(lines[0]).value);
        if ReadObject(lines[1..]).Err? {
          BadObjectRead(lines[1..]);
          BadObjectFaults(lines[1..], ReadObject(lines[1..]).error);
        } else {
          var p, m := PieceRead(lines);
          var rest, k := FaultIsThere(lines[m..]);
          pieces, n := [p] + rest, m + k;
          assert pieces[1..] == rest && lines[m..n] == lines[m..][..k] && lines[n..] == lines[m..][k..];
        }
      }
    }
  }

  lemma BadObjectFaults(lines: seq<string>, fault: Netdoc.Fault)
    requires BadObject(lines, fault)
    ensures fault.MalformedBegin? || fault.MismatchedEnd? || fault.Unterminated?
  {
  }

  /** A document is accepted exactly if it is written out from pieces, and it then says what they mean. */
  lemma AcceptedIffWritten(lines: seq<string>, items: seq<Item>)
    ensures Parse(lines) == (items, None) <==> exists pieces :: Writes(lines, pieces) && Meanings(pieces) == items
  {
    hide Writes, Parse, Meanings;
    if Parse(lines).1 == None {
      var pieces := ReadIsWritten(lines);
    }
    forall pieces | Writes(lines, pieces) ensures Parse(lines) == (Meanings(pieces), None) {
      WrittenIsRead(lines, pieces);
    }
  }
}
