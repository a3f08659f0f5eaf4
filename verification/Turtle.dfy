/** String literals of the Turtle file (RDF 1.1 Turtle, section 6.4): the printer that escapes them
    and the reader with its two sequential replaces. */
module Turtle {
  import opened Text

  const QUOTE: string := "\""

  // ---------------------------------------------------------------- literals

  /** The printer: backslash, quote and newline are escaped, in that order. */
  function Escape(v: string): string {
    Replace(Replace(Replace(v, "\\", "\\\\"), "\"", "\\\""), "\n", "\\n")
  }

  function EscapeChar(c: char): string {
    if c == '\\' then "\\\\" else if c == '"' then "\\\"" else if c == '\n' then "\\n" else [c]
  }

  function EscapeEach(v: string): string {
    if v == "" then "" else EscapeChar(v[0]) + EscapeEach(v[1..])
  }

  /** The reader's two replaces. */
  function Unescape(body: string): string {
    Replace(Replace(body, "\\\"", "\""), "\\\\", "\\")
  }

  /** `((?:[^"\\]|\\.)*)"`: the body up to the first quote that no backslash escapes, and what
      follows the quote. `dotAll` says whether a backslash may escape a line break. */
  function ScanBody(t: string, dotAll: bool): Option<(string, string)> {
    if t == "" then None
    else if t[0] == '"' then Some(("", t[1..]))
    else if t[0] == '\\' then
      if |t| > 1 && (dotAll || t[1] != '\n') then Extend(t[..2], ScanBody(t[2..], dotAll)) else None
    else Extend(t[..1], ScanBody(t[1..], dotAll))
  }

  function Extend(token: string, scanned: Option<(string, string)>): Option<(string, string)> {
    if scanned.Some? then Some((token + scanned.value.0, scanned.value.1)) else None
  }

  /** What the pattern `(?:[^"\\]|\\.)*` matches: plain characters and escaped ones. */
  predicate IsBody(b: string) {
    || b == ""
    || (b[0] == '\\' && |b| > 1 && IsBody(b[2..]))
    || (b[0] != '\\' && b[0] != '"' && IsBody(b[1..]))
  }

  /** Unescaping done token by token: only `\"` and `\\` lose their backslash. */
  function UnescapeTokens(b: string): string {
    if |b| < 2 then b
    else if b[0] == '\\' then (if b[1] == '"' || b[1] == '\\' then [b[1]] else b[..2]) + UnescapeTokens(b[2..])
    else [b[0]] + UnescapeTokens(b[1..])
  }

  lemma BodyStep(b: string)
    requires IsBody(b) && b != ""
    ensures var n := if b[0] == '\\' then 2 else 1;
            n <= |b| && IsBody(b[n..]) && b[0] != '"' && b == b[..n] + b[n..]
  {
  }

  /** The scan of a literal that may hold line breaks stops at the first quote that no backslash
      escapes, and finds it wherever there is one. */
  lemma {:induction false} ScanFinds(b: string, rest: string)
    requires IsBody(b)
    ensures ScanBody(b + (QUOTE + rest), true) == Some((b, rest))
    decreases |b|
  {
    var t := b + (QUOTE + rest);
    if b == "" {
      assert t == QUOTE + rest && t[1..] == rest;
    } else {
      BodyStep(b);
      var n := if b[0] == '\\' then 2 else 1;
      ScanFinds(b[n..], rest);
      assert t[..n] == b[..n] && t[n..] == b[n..] + (QUOTE + rest);
    }
  }

  lemma {:induction false} ScanStops(t: string)
    requires ScanBody(t, true).Some?
    ensures var (b, rest) := ScanBody(t, true).value;
            IsBody(b) && t == b + (QUOTE + rest)
    decreases |t|
  {
    if t[0] == '"' {
      assert t == "" + (QUOTE + t[1..]);
    } else {
      var n := if t[0] == '\\' then 2 else 1;
      ScanStops(t[n..]);
      var (b, rest) := ScanBody(t[n..], true).value;
      assert t == t[..n] + t[n..];
      ConcatAssociative(t[..n], b, QUOTE + rest);
      assert (t[..n] + b)[n..] == b;
    }
  }

  // ---------------------------------------------------------------- the two replaces

  lemma ReplaceHit(from: string, to: string, rest: string)
    requires from != ""
    ensures Replace(from + rest, from, to) == to + Replace(rest, from, to)
  {
  }

  lemma ReplaceMiss(c: char, rest: string, from: string, to: string)
    requires from != ""
    requires from[0] != c || (|from| > 1 && (rest == "" || rest[0] != from[1]))
    ensures Replace([c] + rest, from, to) == [c] + Replace(rest, from, to)
  {
  }

  const ESCAPED_QUOTE: string := "\\\""

  /** The first replace on one token more: a plain character, an escaped quote, another escape. */
  lemma PlainToken(c: char, rest: string)
    requires c != '\\'
    ensures Replace([c] + rest, ESCAPED_QUOTE, QUOTE) == [c] + Replace(rest, ESCAPED_QUOTE, QUOTE)
  {
    ReplaceMiss(c, rest, ESCAPED_QUOTE, QUOTE);
  }

  lemma QuoteToken(rest: string)
    ensures Replace(ESCAPED_QUOTE + rest, ESCAPED_QUOTE, QUOTE) == QUOTE + Replace(rest, ESCAPED_QUOTE, QUOTE)
  {
    ReplaceHit(ESCAPED_QUOTE, QUOTE, rest);
  }

  lemma OtherToken(c: char, rest: string)
    requires c != '"' && (c == '\\' && rest != "" ==> rest[0] != '"')
    ensures Replace(['\\', c] + rest, ESCAPED_QUOTE, QUOTE) == ['\\', c] + Replace(rest, ESCAPED_QUOTE, QUOTE)
  {
    assert ['\\', c] + rest == ['\\'] + ([c] + rest);
    ReplaceMiss('\\', [c] + rest, ESCAPED_QUOTE, QUOTE);
    ReplaceMiss(c, rest, ESCAPED_QUOTE, QUOTE);
    ConcatAssociative(['\\'], [c], Replace(rest, ESCAPED_QUOTE, QUOTE));
    assert ['\\'] + [c] == ['\\', c];
  }

  /** The second replace on the same tokens. */
  lemma PlainAgain(c: char, rest: string)
    requires c != '\\'
    ensures Replace([c] + rest, "\\\\", "\\") == [c] + Replace(rest, "\\\\", "\\")
  {
    ReplaceMiss(c, rest, "\\\\", "\\");
  }

  lemma OtherAgain(c: char, rest: string)
    requires c != '\\'
    ensures Replace(['\\', c] + rest, "\\\\", "\\") == ['\\', c] + Replace(rest, "\\\\", "\\")
  {
    assert ['\\', c] + rest == ['\\'] + ([c] + rest);
    ReplaceMiss('\\', [c] + rest, "\\\\", "\\");
    PlainAgain(c, rest);
    ConcatAssociative(['\\'], [c], Replace(rest, "\\\\", "\\"));
    assert ['\\'] + [c] == ['\\', c];
  }

  lemma UnescapePlain(c: char, rest: string)
    requires c != '\\'
    ensures Unescape([c] + rest) == [c] + Unescape(rest)
  {
    PlainToken(c, rest);
    PlainAgain(c, Replace(rest, ESCAPED_QUOTE, QUOTE));
  }

  lemma UnescapeEscaped(c: char, rest: string)
    requires c == '\\' && rest != "" ==> rest[0] != '"'
    ensures Unescape(['\\', c] + rest) == (if c == '"' || c == '\\' then [c] else ['\\', c]) + Unescape(rest)
  {
    var more := Replace(rest, ESCAPED_QUOTE, QUOTE);
    if c == '"' {
      QuoteToken(rest);
      PlainAgain('"', more);
    } else {
      OtherToken(c, rest);
      if c == '\\' { ReplaceHit("\\\\", "\\", more); } else { OtherAgain(c, more); }
    }
  }

  /** Two sequential replaces do what one left-to-right pass over the tokens does. */
  lemma {:induction false} UnescapeIsTokenwise(b: string)
    requires IsBody(b)
    ensures Unescape(b) == UnescapeTokens(b)
    decreases |b|
  {
    if b != "" && b[0] != '\\' {
      UnescapeIsTokenwise(b[1..]);
      UnescapePlain(b[0], b[1..]);
      assert b == [b[0]] + b[1..];
    } else if b != "" {
      UnescapeIsTokenwise(b[2..]);
      UnescapeEscaped(b[1], b[2..]);
      assert b == ['\\', b[1]] + b[2..] && b[..2] == ['\\', b[1]];
    }
  }

  // ---------------------------------------------------------------- the printer

  lemma {:induction false} ReplaceChar(v: string, c: char, to: string)
    ensures Replace(v, [c], to) == if v == "" then "" else (if v[0] == c then to else [v[0]]) + Replace(v[1..], [c], to)
  {
  }

  lemma {:induction false} ReplaceCharConcat(a: string, b: string, c: char, to: string)
    ensures Replace(a + b, [c], to) == Replace(a, [c], to) + Replace(b, [c], to)
  {
    ReplaceChar(a, c, to);
    ReplaceChar(a + b, c, to);
    if a == "" {
      assert a + b == b;
    } else {
      assert (a + b)[1..] == a[1..] + b;
      ReplaceCharConcat(a[1..], b, c, to);
      ConcatAssociative(if a[0] == c then to else [a[0]], Replace(a[1..], [c], to), Replace(b, [c], to));
    }
  }

  lemma EscapeConcat(a: string, b: string)
    ensures Escape(a + b) == Escape(a) + Escape(b)
  {
    ReplaceCharConcat(a, b, '\\', "\\\\");
    var a1, b1 := Replace(a, "\\", "\\\\"), Replace(b, "\\", "\\\\");
    ReplaceCharConcat(a1, b1, '"', "\\\"");
    ReplaceCharConcat(Replace(a1, "\"", "\\\""), Replace(b1, "\"", "\\\""), '\n', "\\n");
  }

  lemma EscapeOfChar(c: char)
    ensures Escape([c]) == EscapeChar(c)
  {
    var one := Replace([c], "\\", "\\\\");
    ReplaceChar([c], '\\', "\\\\");
    assert one == if c == '\\' then ['\\', '\\'] else [c];
    ReplacePair(one, '"', "\\\"");
    var two := Replace(one, "\"", "\\\"");
    assert two == if c == '"' then ['\\', '"'] else one;
    ReplacePair(two, '\n', "\\n");
  }

  lemma ReplacePair(s: string, c: char, to: string)
    requires 1 <= |s| <= 2 && (|s| == 2 ==> c != s[0] && c != s[1])
    ensures Replace(s, [c], to) == if s == [c] then to else s
  {
  }

  /** The printer's three sequential replaces escape each character on its own. */
  lemma {:induction false} EscapeIsEach(v: string)
    ensures Escape(v) == EscapeEach(v)
  {
    if v != "" {
      EscapeIsEach(v[1..]);
      EscapeOfChar(v[0]);
      EscapeConcat([v[0]], v[1..]);
      assert v == [v[0]] + v[1..];
    }
  }

  // ---------------------------------------------------------------- round trip

  lemma EscapedToken(c: char, rest: string)
    ensures IsBody(rest) ==> IsBody(EscapeChar(c) + rest)
    ensures |EscapeChar(c)| == 2 ==>
      UnescapeTokens(EscapeChar(c) + rest) == (if c == '\n' then "\\n" else [c]) + UnescapeTokens(rest)
    ensures |EscapeChar(c)| == 1 ==> UnescapeTokens(EscapeChar(c) + rest) == [c] + UnescapeTokens(rest)
  {
    var e := EscapeChar(c);
    assert (e + rest)[|e|..] == rest && (e + rest)[..|e|] == e;
    if |e + rest| < 2 { assert rest == "" && e + rest == [c]; }
  }

  lemma {:induction false} EscapedBody(v: string)
    ensures IsBody(EscapeEach(v))
    ensures UnescapeTokens(EscapeEach(v)) == v <==> '\n' !in v
    ensures |UnescapeTokens(EscapeEach(v))| >= |v|
  {
    if v != "" {
      EscapedBody(v[1..]);
      EscapedToken(v[0], EscapeEach(v[1..]));
      assert v == [v[0]] + v[1..];
    }
  }

  /** Reading a printed literal gives it back exactly when it holds no line break, which the
      reader leaves as backslash and `n`. */
  lemma LiteralRoundTrip(v: string)
    ensures Unescape(Escape(v)) == v <==> '\n' !in v
  {
    EscapeIsEach(v);
    EscapedBody(v);
    UnescapeIsTokenwise(EscapeEach(v));
  }
}
