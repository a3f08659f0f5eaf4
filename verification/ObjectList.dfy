/** Finding a property in a block and reading its literal, or its comma-separated object list (RDF
    1.1 Turtle, section 2.3). */
module ObjectList {
  import opened Text
  import opened Turtle

  // ---------------------------------------------------------------- scanning one printed literal

  /** The scan of a printed literal stops exactly at its real closing quote. */
  lemma {:induction false} ScanPrinted(v: string, rest: string, dotAll: bool)
    ensures ScanBody(EscapeEach(v) + (QUOTE + rest), dotAll) == Some((EscapeEach(v), rest))
  {
    var tail := QUOTE + rest;
    if v == "" {
      assert EscapeEach(v) + tail == tail && tail[1..] == rest;
    } else {
      ScanPrinted(v[1..], rest, dotAll);
      var e, more := EscapeChar(v[0]), EscapeEach(v[1..]);
      ScanToken(e, more + tail, dotAll);
      ConcatAssociative(e, more, tail);
    }
  }

  lemma ScanToken(e: string, t: string, dotAll: bool)
    requires exists c :: e == EscapeChar(c)
    ensures ScanBody(e + t, dotAll) == Extend(e, ScanBody(t, dotAll))
  {
  }

  // ---------------------------------------------------------------- one literal of a property

  /** `key "..."` at the start of `t`. */
  function LiteralAt(t: string, key: string): Option<string> {
    if StartsWith(t, key + " \"") && ScanBody(t[|key| + 2..], true).Some? then
      Some(ScanBody(t[|key| + 2..], true).value.0)
    else None
  }

  function LiteralPattern(prop: string): string -> Option<string> { t => LiteralAt(t, "amp:" + prop) }

  /** `literal(block, prop)`. */
  function Literal(block: string, prop: string): string {
    var body := Search(block, LiteralPattern(prop));
    if body.Some? then Unescape(body.value) else Missing(prop)
  }

  lemma PrintedKey(t: string, key: string, more: string, n: nat)
    requires n == |key| + |more|
    ensures StartsWith(key + (more + t), key + more) && (key + (more + t))[n..] == t
  {
    ConcatAssociative(key, more, t);
    assert (key + more + t)[..n] == key + more;
  }

  /** A property as it is printed: its name, a space, the quoted literal. */
  function PrintProperty(prop: string, v: string): string { ("amp:" + prop) + (" \"" + (Escape(v) + QUOTE)) }

  lemma PrintedProperty(prop: string, v: string, rest: string)
    ensures PrintProperty(prop, v) + rest == ("amp:" + prop) + (" \"" + (EscapeEach(v) + (QUOTE + rest)))
  {
    EscapeIsEach(v);
    ConcatAssociative("amp:" + prop, " \"" + (EscapeEach(v) + QUOTE), rest);
    ConcatAssociative(" \"", EscapeEach(v) + QUOTE, rest);
    ConcatAssociative(EscapeEach(v), QUOTE, rest);
  }

  lemma PrintedLiteralAt(prop: string, v: string, rest: string)
    ensures LiteralAt(PrintProperty(prop, v) + rest, "amp:" + prop) == Some(EscapeEach(v))
  {
    PrintedProperty(prop, v, rest);
    PrintedKey(EscapeEach(v) + (QUOTE + rest), "amp:" + prop, " \"", |prop| + 6);
    ScanPrinted(v, rest, true);
  }

  /** Reading a property printed into a block, whatever follows it and whatever precedes it without
      matching the pattern, gives its value back exactly when the value holds no line break. */
  lemma PropertyRoundTrip(pre: string, prop: string, v: string, rest: string)
    requires NoMatchIn(pre, PrintProperty(prop, v) + rest, LiteralPattern(prop))
    ensures Literal(pre + (PrintProperty(prop, v) + rest), prop) == v <==> '\n' !in v
  {
    SearchAfter(pre, PrintProperty(prop, v) + rest, LiteralPattern(prop));
    PrintedLiteralAt(prop, v, rest);
    EscapeIsEach(v);
    LiteralRoundTrip(v);
  }

  // ---------------------------------------------------------------- the single-valued reader of the drift check

  /** The text up to the first quote. */
  function UpToQuote(t: string): Option<string> {
    if t == "" then None
    else if t[0] == '"' then Some("")
    else
      var more := UpToQuote(t[1..]);
      if more.Some? then Some([t[0]] + more.value) else None
  }

  /** The reader of a value without escapes finds the text in front of the first quote, and finds it
      where there is a quote. */
  lemma {:induction false} UpToQuoteStops(t: string)
    requires UpToQuote(t).Some?
    ensures '"' !in UpToQuote(t).value && exists rest :: t == UpToQuote(t).value + (QUOTE + rest)
  {
    if t[0] == '"' {
      assert t == "" + (QUOTE + t[1..]);
    } else {
      UpToQuoteStops(t[1..]);
      var v := UpToQuote(t[1..]).value;
      var rest :| t[1..] == v + (QUOTE + rest);
      assert t == [t[0]] + t[1..] == ([t[0]] + v) + (QUOTE + rest);
    }
  }

  lemma {:induction false} UpToQuoteFinds(v: string, rest: string)
    requires '"' !in v
    ensures UpToQuote(v + (QUOTE + rest)) == Some(v)
  {
    var t := v + (QUOTE + rest);
    if v == "" {
      assert t == QUOTE + rest;
    } else {
      UpToQuoteFinds(v[1..], rest);
      assert t[1..] == v[1..] + (QUOTE + rest) && t[0] == v[0] && v[0] in v;
      assert v == [v[0]] + v[1..];
    }
  }

  /** `key "([^"]*)"` at the start of `t`. */
  function OneAt(t: string, key: string): Option<string> {
    if StartsWith(t, key + " \"") then UpToQuote(t[|key| + 2..]) else None
  }

  function OnePattern(prop: string): string -> Option<string> { t => OneAt(t, "amp:" + prop) }

  /** `one(block, prop)`. */
  function One(block: string, prop: string): string { Or(Search(block, OnePattern(prop)), Missing(prop)) }

  predicate Plain(v: string) { '"' !in v && '\\' !in v && '\n' !in v }

  lemma UpToQuoteStep(c: char, t: string)
    requires UpToQuote(t).Some?
    ensures c != '"' ==> UpToQuote([c] + t) == Some([c] + UpToQuote(t).value)
    ensures c == '"' ==> UpToQuote([c] + t) == Some("")
  {
  }

  /** Up to the next quote, over one printed character. */
  lemma UpToQuoteToken(c: char, t: string)
    requires UpToQuote(t).Some? && '"' !in UpToQuote(t).value
    ensures UpToQuote(EscapeChar(c) + t).Some? && '"' !in UpToQuote(EscapeChar(c) + t).value
    ensures c != '"' ==> UpToQuote(EscapeChar(c) + t) == Some(EscapeChar(c) + UpToQuote(t).value)
  {
    if c == '"' {
      UpToQuoteStep('"', t);
      UpToQuoteStep('\\', "\"" + t);
      assert "\\\"" + t == "\\" + ("\"" + t);
    } else if |EscapeChar(c)| == 2 {
      var a, b := EscapeChar(c)[0], EscapeChar(c)[1];
      UpToQuoteStep(b, t);
      UpToQuoteStep(a, [b] + t);
      assert EscapeChar(c) == [a, b];
      assert [a, b] + t == [a] + ([b] + t);
      assert [a, b] + UpToQuote(t).value == [a] + ([b] + UpToQuote(t).value);
    } else {
      UpToQuoteStep(c, t);
    }
  }

  lemma {:induction false} UpToPrintedQuote(v: string, rest: string)
    ensures var r := UpToQuote(EscapeEach(v) + (QUOTE + rest));
            r.Some? && '"' !in r.value && ('"' !in v ==> r.value == EscapeEach(v))
  {
    var tail := QUOTE + rest;
    if v == "" {
      assert EscapeEach(v) + tail == tail;
    } else {
      UpToPrintedQuote(v[1..], rest);
      UpToQuoteToken(v[0], EscapeEach(v[1..]) + tail);
      ConcatAssociative(EscapeChar(v[0]), EscapeEach(v[1..]), tail);
      assert v == [v[0]] + v[1..];
    }
  }

  lemma {:induction false} EscapeGrows(v: string)
    ensures |EscapeEach(v)| >= |v|
    ensures |EscapeEach(v)| == |v| ==> Plain(v)
    ensures Plain(v) ==> EscapeEach(v) == v
  {
    if v != "" {
      EscapeGrows(v[1..]);
      assert v == [v[0]] + v[1..];
    }
  }

  lemma EscapedIffPlain(v: string)
    ensures Escape(v) == v <==> Plain(v)
  {
    EscapeIsEach(v);
    EscapeGrows(v);
  }

  lemma PrintedOneAt(prop: string, v: string, rest: string)
    ensures OneAt(PrintProperty(prop, v) + rest, "amp:" + prop).Some?
    ensures OneAt(PrintProperty(prop, v) + rest, "amp:" + prop) == Some(v) <==> Plain(v)
  {
    PrintedProperty(prop, v, rest);
    PrintedKey(EscapeEach(v) + (QUOTE + rest), "amp:" + prop, " \"", |prop| + 6);
    UpToPrintedQuote(v, rest);
    EscapeGrows(v);
  }

  /** The drift check's reader, which knows no escapes, gives a printed value back exactly when it
      holds none of the three characters the printer escapes. */
  lemma OneRoundTrip(pre: string, prop: string, v: string, rest: string)
    requires NoMatchIn(pre, PrintProperty(prop, v) + rest, OnePattern(prop))
    ensures One(pre + (PrintProperty(prop, v) + rest), prop) == v <==> Plain(v)
  {
    SearchAfter(pre, PrintProperty(prop, v) + rest, OnePattern(prop));
    PrintedOneAt(prop, v, rest);
  }

  // ---------------------------------------------------------------- object lists

  function SkipSpace(t: string): (r: string)
    ensures |r| <= |t| && (r == "" || !IsSpace(r[0]))
  {
    if t != "" && IsSpace(t[0]) then SkipSpace(t[1..]) else t
  }

  /** `\s*,\s*`: what follows the comma, if there is one. */
  function SkipComma(t: string): (r: Option<string>)
    ensures r.Some? ==> |r.value| < |t|
  {
    var u := SkipSpace(t);
    if u != "" && u[0] == ',' then Some(SkipSpace(u[1..])) else None
  }

  lemma ScanShrinks(t: string, dotAll: bool)
    requires ScanBody(t, dotAll).Some?
    ensures |ScanBody(t, dotAll).value.1| < |t|
  {
  }

  /** `("..."\s*,\s*)*"..."`: the rest of the text after the longest object list it starts with.
      The list goes on after a comma only if a whole literal follows. */
  function ListRest(t: string): (r: Option<string>)
    ensures r.Some? ==> |r.value| < |t|
    decreases |t|
  {
    if t == "" || t[0] != '"' || ScanBody(t[1..], false).None? then None
    else
      ScanShrinks(t[1..], false);
      var rest := ScanBody(t[1..], false).value.1;
      var next := SkipComma(rest);
      if next.Some? && ListRest(next.value).Some? then ListRest(next.value) else Some(rest)
  }

  /** `findall("...")` over the matched text. */
  function FindBodies(t: string): seq<string>
    decreases |t|
  {
    if t == "" then []
    else if t[0] == '"' && ScanBody(t[1..], false).Some? then
      ScanShrinks(t[1..], false);
      var scanned := ScanBody(t[1..], false).value;
      [scanned.0] + FindBodies(scanned.1)
    else FindBodies(t[1..])
  }

  /** The text of the object list at the start of `t`, when the key and white space start it. */
  function ListAt(t: string, key: string): Option<string> {
    if StartsWith(t, key) && |t| > |key| && IsSpace(t[|key|]) then
      var list := SkipSpace(t[|key|..]);
      var rest := ListRest(list);
      if rest.Some? then Some(list[..|list| - |rest.value|]) else None
    else None
  }

  lemma {:induction false} SpaceBefore(t: string) returns (space: string)
    ensures t == space + SkipSpace(t) && Blank(space)
  {
    if t != "" && IsSpace(t[0]) {
      space := SpaceBefore(t[1..]);
      assert t == [t[0]] + t[1..];
      space := [t[0]] + space;
    } else {
      space := "";
    }
  }

  /** A list stands behind the key and white space, starts with a quote, and is a part of the text. */
  lemma ListStands(t: string, key: string) returns (space: string, rest: string)
    requires ListAt(t, key).Some?
    ensures t == key + (space + (ListAt(t, key).value + rest)) && space != "" && Blank(space)
    ensures ListAt(t, key).value != "" && ListAt(t, key).value[0] == '"'
  {
    var behind := t[|key|..];
    space := SpaceBefore(behind);
    var list := SkipSpace(behind);
    rest := list[|list| - |ListRest(list).value|..];
    assert t == key + behind && behind == space + list && list == ListAt(t, key).value + rest;
  }

  function ListPattern(prop: string): string -> Option<string> { t => ListAt(t, "amp:" + prop) }

  /** `many(block, prop)`. */
  function Many(block: string, prop: string): seq<string> {
    var list := Search(block, ListPattern(prop));
    if list.Some? then FindBodies(list.value) else []
  }

  // ---------------------------------------------------------------- printing a list

  predicate Blank(s: string) { forall c :: c in s ==> IsSpace(c) }

  datatype Gap = Gap(before: string, after: string)

  /** The escaped literals of `vs`, a comma with its spacing between each two. */
  function PrintList(vs: seq<string>, gaps: seq<Gap>): string
    requires |vs| == |gaps| + 1
  {
    if |vs| == 1 then QUOTE + (EscapeEach(vs[0]) + QUOTE)
    else
      var more := PrintList(vs[1..], gaps[1..]);
      QUOTE + (EscapeEach(vs[0]) + (QUOTE + (gaps[0].before + ("," + (gaps[0].after + more)))))
  }

  ghost predicate BlankGaps(gaps: seq<Gap>) {
    forall g :: g in gaps ==> Blank(g.before) && Blank(g.after)
  }

  function EscapeAll(vs: seq<string>): seq<string> {
    if vs == [] then [] else [EscapeEach(vs[0])] + EscapeAll(vs[1..])
  }

  lemma {:induction false} SkipBlank(b: string, t: string)
    requires Blank(b) && (t == "" || !IsSpace(t[0]))
    ensures SkipSpace(b + t) == t
  {
    if b == "" {
      assert b + t == t;
    } else {
      assert (b + t)[1..] == b[1..] + t;
      SkipBlank(b[1..], t);
    }
  }

  lemma SkipPrintedComma(g: Gap, t: string)
    requires Blank(g.before) && Blank(g.after) && (t == "" || !IsSpace(t[0]))
    ensures SkipComma(g.before + ("," + (g.after + t))) == Some(t)
  {
    SkipBlank(g.before, "," + (g.after + t));
    assert ("," + (g.after + t))[1..] == g.after + t;
    SkipBlank(g.after, t);
  }

  lemma ListRestStep(v: string, tail: string)
    ensures var t := QUOTE + (EscapeEach(v) + (QUOTE + tail));
            ListRest(t) == if SkipComma(tail).Some? && ListRest(SkipComma(tail).value).Some?
                           then ListRest(SkipComma(tail).value) else Some(tail)
  {
    var t := QUOTE + (EscapeEach(v) + (QUOTE + tail));
    assert t[1..] == EscapeEach(v) + (QUOTE + tail);
    ScanPrinted(v, tail, false);
  }

  /** What may follow an object list: no further comma. */
  predicate Terminates(rest: string) { SkipComma(rest).None? }

  lemma PrintedQuote(vs: seq<string>, gaps: seq<Gap>)
    requires |vs| == |gaps| + 1
    ensures PrintList(vs, gaps) != "" && PrintList(vs, gaps)[0] == '"'
  {
  }

  /** A printed list as its first literal and what follows it. */
  function ListTail(vs: seq<string>, gaps: seq<Gap>, rest: string): string
    requires |vs| == |gaps| + 1
  {
    if |vs| == 1 then rest
    else gaps[0].before + ("," + (gaps[0].after + (PrintList(vs[1..], gaps[1..]) + rest)))
  }

  lemma PrintedCons(vs: seq<string>, gaps: seq<Gap>, rest: string)
    requires |vs| == |gaps| + 1
    ensures PrintList(vs, gaps) + rest == QUOTE + (EscapeEach(vs[0]) + (QUOTE + ListTail(vs, gaps, rest)))
  {
    if |vs| == 1 {
      ConcatAssociative(QUOTE, EscapeEach(vs[0]) + QUOTE, rest);
      ConcatAssociative(EscapeEach(vs[0]), QUOTE, rest);
    } else {
      Regroup(QUOTE, EscapeEach(vs[0]), QUOTE, gaps[0], PrintList(vs[1..], gaps[1..]), rest);
    }
  }

  /** The list pattern consumes a printed list up to its terminator. */
  lemma {:induction false} PrintedListRest(vs: seq<string>, gaps: seq<Gap>, rest: string)
    requires |vs| == |gaps| + 1 && BlankGaps(gaps) && Terminates(rest)
    ensures ListRest(PrintList(vs, gaps) + rest) == Some(rest)
  {
    PrintedCons(vs, gaps, rest);
    ListRestStep(vs[0], ListTail(vs, gaps, rest));
    if |vs| > 1 {
      PrintedListRest(vs[1..], gaps[1..], rest);
      PrintedQuote(vs[1..], gaps[1..]);
      assert gaps[0] in gaps;
      SkipPrintedComma(gaps[0], PrintList(vs[1..], gaps[1..]) + rest);
    }
  }

  lemma Regroup(a: string, b: string, c: string, g: Gap, more: string, rest: string)
    ensures (a + (b + (c + (g.before + ("," + (g.after + more)))))) + rest
            == a + (b + (c + (g.before + ("," + (g.after + (more + rest))))))
  {
  }

  lemma {:induction false} BodiesAfterBlank(b: string, t: string)
    requires '"' !in b
    ensures FindBodies(b + t) == FindBodies(t)
    decreases |b|
  {
    if b == "" {
      assert b + t == t;
    } else {
      assert (b + t)[1..] == b[1..] + t;
      assert b[0] in b && b == [b[0]] + b[1..];
      BodiesAfterBlank(b[1..], t);
    }
  }

  lemma BodiesStep(v: string, tail: string)
    ensures FindBodies(QUOTE + (EscapeEach(v) + (QUOTE + tail))) == [EscapeEach(v)] + FindBodies(tail)
  {
    var t := QUOTE + (EscapeEach(v) + (QUOTE + tail));
    assert t[1..] == EscapeEach(v) + (QUOTE + tail);
    ScanPrinted(v, tail, false);
  }

  /** Reading the matched text back gives every body in order. */
  lemma {:induction false} PrintedBodies(vs: seq<string>, gaps: seq<Gap>)
    requires |vs| == |gaps| + 1 && BlankGaps(gaps)
    ensures FindBodies(PrintList(vs, gaps)) == EscapeAll(vs)
  {
    if |vs| == 1 {
      BodiesStep(vs[0], "");
      assert QUOTE + (EscapeEach(vs[0]) + (QUOTE + "")) == PrintList(vs, gaps);
      assert EscapeAll(vs[1..]) == [];
    } else {
      var more := PrintList(vs[1..], gaps[1..]);
      PrintedBodies(vs[1..], gaps[1..]);
      assert gaps[0] in gaps;
      BodiesStep(vs[0], gaps[0].before + ("," + (gaps[0].after + more)));
      BodiesAfterBlank(gaps[0].before, "," + (gaps[0].after + more));
      BodiesAfterBlank(",", gaps[0].after + more);
      BodiesAfterBlank(gaps[0].after, more);
    }
  }

  lemma PrintedListAt(key: string, space: string, vs: seq<string>, gaps: seq<Gap>, rest: string)
    requires |vs| == |gaps| + 1 && BlankGaps(gaps) && Terminates(rest) && Blank(space) && space != ""
    ensures ListAt(key + (space + (PrintList(vs, gaps) + rest)), key) == Some(PrintList(vs, gaps))
  {
    var list := PrintList(vs, gaps);
    var t := key + (space + (list + rest));
    assert t[..|key|] == key && t[|key|..] == space + (list + rest);
    assert t[|key|] == space[0] && space[0] in space;
    PrintedQuote(vs, gaps);
    SkipBlank(space, list + rest);
    PrintedListRest(vs, gaps, rest);
    assert (list + rest)[..|list|] == list;
  }

  /** The whole way: a list printed after the property, wherever it stands in the block behind text
      that does not match the pattern, is read back completely and in declaration order, up to its
      terminator. Unescaping the bodies gives `vs`, exactly where no line break is in a value. */
  lemma ManyRoundTrip(pre: string, prop: string, space: string, vs: seq<string>, gaps: seq<Gap>, rest: string)
    requires |vs| == |gaps| + 1 && BlankGaps(gaps) && Terminates(rest) && Blank(space) && space != ""
    requires NoMatchIn(pre, ("amp:" + prop) + (space + (PrintList(vs, gaps) + rest)), ListPattern(prop))
    ensures var read := Many(pre + (("amp:" + prop) + (space + (PrintList(vs, gaps) + rest))), prop);
            && |read| == |vs|
            && forall i :: 0 <= i < |vs| ==>
                 read[i] == Escape(vs[i]) && (Unescape(read[i]) == vs[i] <==> '\n' !in vs[i])
  {
    SearchAfter(pre, ("amp:" + prop) + (space + (PrintList(vs, gaps) + rest)), ListPattern(prop));
    PrintedListAt("amp:" + prop, space, vs, gaps, rest);
    PrintedBodies(vs, gaps);
    EscapeAllAt(vs);
    forall i | 0 <= i < |vs|
      ensures EscapeEach(vs[i]) == Escape(vs[i]) && (Unescape(Escape(vs[i])) == vs[i] <==> '\n' !in vs[i])
    {
      EscapeIsEach(vs[i]);
      LiteralRoundTrip(vs[i]);
    }
  }

  lemma {:induction false} EscapeAllAt(vs: seq<string>)
    ensures |EscapeAll(vs)| == |vs| && forall i :: 0 <= i < |vs| ==> EscapeAll(vs)[i] == EscapeEach(vs[i])
  {
    if vs != [] { EscapeAllAt(vs[1..]); }
  }
}
