/** The string operations the parsers rest on: splitting at whitespace and at newlines. */
module Texts {

  /** `str.isspace`, character by character. */
  predicate IsSpace(c: char) {
    || '\t' <= c <= '\r' || '\U{1c}' <= c <= ' ' || c == '\U{85}' || c == '\U{a0}' || c == '\U{1680}'
    || '\U{2000}' <= c <= '\U{200a}' || c == '\U{2028}' || c == '\U{2029}' || c == '\U{202f}' || c == '\U{205f}'
    || c == '\U{3000}'
  }

  predicate SpaceFree(s: string) {
    forall i :: 0 <= i < |s| ==> !IsSpace(s[i])
  }

  predicate AllSpace(s: string) {
    forall i :: 0 <= i < |s| ==> IsSpace(s[i])
  }

  predicate StartsWith(s: string, prefix: string) {
    |prefix| <= |s| && s[..|prefix|] == prefix
  }

  predicate EndsWith(s: string, suffix: string) {
    |suffix| <= |s| && s[|s| - |suffix|..] == suffix
  }

  // --- words -----------------------------------------------------------------------------

  function WordLength(s: string): (n: nat)
    ensures n <= |s| && SpaceFree(s[..n]) && (n < |s| ==> IsSpace(s[n]))
  {
    if s == "" || IsSpace(s[0]) then 0
    else
      var n := WordLength(s[1..]);
      assert s[..n + 1] == [s[0]] + s[1..][..n];
      n + 1
  }

  /** `str.split()`. */
  function Words(s: string): (words: seq<string>)
    ensures forall w :: w in words ==> w != "" && SpaceFree(w)
    decreases |s|
  {
    if s == "" then []
    else if IsSpace(s[0]) then Words(s[1..])
    else [s[..WordLength(s)]] + Words(s[WordLength(s)..])
  }

  /** `" ".join`. */
  function Spaced(words: seq<string>): string {
    if words == [] then "" else if |words| == 1 then words[0] else words[0] + " " + Spaced(words[1..])
  }

  lemma {:induction false} WordLengthOf(w: string, rest: string)
    requires SpaceFree(w) && (rest == "" || IsSpace(rest[0]))
    ensures WordLength(w + rest) == |w|
  {
    if w != "" {
      assert (w + rest)[1..] == w[1..] + rest;
      WordLengthOf(w[1..], rest);
    } else {
      assert w + rest == rest;
    }
  }

  lemma {:induction false} WordsOfSpaced(words: seq<string>)
    requires forall w :: w in words ==> w != "" && SpaceFree(w)
    ensures Words(Spaced(words)) == words
  {
    if words != [] {
      var w := words[0];
      var rest := if |words| == 1 then "" else " " + Spaced(words[1..]);
      assert Spaced(words) == w + rest;
      WordLengthOf(w, rest);
      assert (w + rest)[..|w|] == w && (w + rest)[|w|..] == rest;
      if |words| > 1 {
        assert forall w :: w in words[1..] ==> w in words;
        WordsOfSpaced(words[1..]);
        assert rest[1..] == Spaced(words[1..]);
        assert Words(rest) == Words(rest[1..]);
      }
    }
  }

  lemma {:induction false} NoWords(s: string)
    requires AllSpace(s)
    ensures Words(s) == []
  {
    if s != "" {
      NoWords(s[1..]);
    }
  }

  lemma WordsStep(s: string, w: string, rest: string)
    requires s == w + rest && w != "" && SpaceFree(w) && (rest == "" || IsSpace(rest[0]))
    ensures Words(s) == [w] + Words(rest)
  {
    hide IsSpace;
    WordLengthOf(w, rest);
    assert s[0] == w[0] && s[..|w|] == w && s[|w|..] == rest;
  }

  lemma FirstWord(s: string) returns (w: string, rest: string)
    requires s != "" && !IsSpace(s[0])
    ensures s == w + rest && w != "" && SpaceFree(w) && (rest == "" || IsSpace(rest[0]))
    ensures Words(s) == [w] + Words(rest)
  {
    hide IsSpace;
    w, rest := s[..WordLength(s)], s[WordLength(s)..];
    assert s == w + rest;
  }

  lemma {:induction false} WordsAfter(gap: string, b: string)
    requires AllSpace(gap)
    ensures Words(gap + b) == Words(b)
  {
    hide IsSpace;
    if gap == "" {
      assert gap + b == b;
    } else {
      WordsAfter(gap[1..], b);
      assert (gap + b)[0] == gap[0] && (gap + b)[1..] == gap[1..] + b;
    }
  }

  lemma SkipSpace(s: string)
    requires s != "" && IsSpace(s[0])
    ensures Words(s) == Words(s[1..])
  {
  }

  /** Words are found separately on either side of a stretch of whitespace. */
  lemma {:induction false} WordsAcross(a: string, gap: string, b: string)
    requires gap != "" && AllSpace(gap)
    ensures Words(a + gap + b) == Words(a) + Words(b)
    decreases |a|
  {
    hide IsSpace, Words;
    var s := a + gap + b;
    if a == "" {
      WordsAfter(gap, b);
      NoWords(a);
      assert s == gap + b;
    } else if IsSpace(a[0]) {
      WordsAcross(a[1..], gap, b);
      SkipSpace(a);
      SkipSpace(s);
      assert s[1..] == a[1..] + gap + b;
    } else {
      var w, rest := FirstWord(a);
      assert s == w + (rest + gap + b);
      WordsStep(s, w, rest + gap + b);
      WordsAcross(rest, gap, b);
    }
  }

  // --- lines -----------------------------------------------------------------------------

  function LineLength(text: string): (n: nat)
    ensures n <= |text| && (n < |text| ==> text[n] == '\n') && '\n' !in text[..n]
  {
    if text == "" || text[0] == '\n' then 0
    else
      var n := LineLength(text[1..]);
      assert text[..n + 1] == [text[0]] + text[1..][..n];
      n + 1
  }

  /** `text.split("\n")`. */
  function Lines(text: string): (lines: seq<string>)
    ensures lines != [] && forall l :: l in lines ==> '\n' !in l
    decreases |text|
  {
    var n := LineLength(text);
    if n == |text| then [text] else [text[..n]] + Lines(text[n + 1..])
  }

  /** Every line followed by a newline. */
  function Unlines(lines: seq<string>): string {
    if lines == [] then "" else lines[0] + "\n" + Unlines(lines[1..])
  }

  lemma {:induction false} LineLengthOf(line: string, rest: string)
    requires '\n' !in line
    ensures LineLength(line + "\n" + rest) == |line|
  {
    if line != "" {
      assert (line + "\n" + rest)[1..] == line[1..] + "\n" + rest;
      LineLengthOf(line[1..], rest);
    }
  }

  lemma {:induction false} LinesOfUnlines(lines: seq<string>)
    requires forall l :: l in lines ==> '\n' !in l
    ensures Lines(Unlines(lines)) == lines + [""]
  {
    if lines != [] {
      var rest := Unlines(lines[1..]);
      LineLengthOf(lines[0], rest);
      assert (lines[0] + "\n" + rest)[|lines[0]| + 1..] == rest;
      assert (lines[0] + "\n" + rest)[..|lines[0]|] == lines[0];
      LinesOfUnlines(lines[1..]);
    }
  }

  /** Any text is newline-ended lines and a last one, and those are the lines found. */
  lemma {:induction false} LinesOfText(lines: seq<string>, last: string)
    requires '\n' !in last && forall l :: l in lines ==> '\n' !in l
    ensures Lines(Unlines(lines) + last) == lines + [last]
  {
    if lines == [] {
      assert "" + last == last && LineLength(last) == |last|;
    } else {
      var rest := Unlines(lines[1..]) + last;
      var text := Unlines(lines) + last;
      assert text == lines[0] + "\n" + rest;
      LineLengthOf(lines[0], rest);
      assert text[|lines[0]| + 1..] == rest && text[..|lines[0]|] == lines[0];
      LinesOfText(lines[1..], last);
    }
  }

  function FirstLine(text: string): string {
    text[..LineLength(text)]
  }

  /** `line` stands on a line of its own at offset `at`. */
  predicate LineAt(text: string, at: int, line: string) {
    0 <= at <= |text| && (at == 0 || text[at - 1] == '\n') && FirstLine(text[at..]) == line
  }

  lemma {:induction false} FirstLineOfPrefix(text: string, m: nat)
    requires LineLength(text) <= m <= |text|
    ensures LineLength(text[..m]) == LineLength(text) && FirstLine(text[..m]) == FirstLine(text)
  {
    if text != "" && text[0] != '\n' {
      assert text[..m][1..] == text[1..][..m - 1];
      FirstLineOfPrefix(text[1..], m - 1);
    }
    assert text[..m][..LineLength(text)] == text[..LineLength(text)];
  }

  lemma LineEndsByNewline(text: string, at: nat)
    requires at < |text| && text[at] == '\n'
    ensures LineLength(text) <= at
  {
    var n := LineLength(text);
    assert forall k :: 0 <= k < n ==> text[k] == text[..n][k];
  }
}
