/** Cutting a printed document: the pattern of a class finds exactly the subjects of that class. */
module Documents {
  import opened Text
  import opened Blocks

  predicate IsWord(s: string) { s != "" && forall c :: c in s ==> IsWordChar(c) }

  // ---------------------------------------------------------------- a printed document

  /** One subject of the document: its name, its class, its properties, and the lines behind it. */
  datatype Item = Item(name: string, cls: string, body: string, gap: string)

  function PrintItem(it: Item): string { "amp:" + (it.name + (Header(it.cls) + (it.body + ".\n"))) }

  function PrintItems(items: seq<Item>): string {
    if items == [] then "" else PrintItem(items[0]) + (items[0].gap + PrintItems(items[1..]))
  }

  /** No body ends a line with a full stop or names the class of a subject. */
  predicate IsItem(it: Item) {
    && IsWord(it.name) && IsWord(it.cls) && QuietLines(it.gap)
    && !Contains(it.body, ".\n") && !Contains(it.body, " a amp:")
  }

  function OfClass(items: seq<Item>, cls: string): seq<Block> {
    if items == [] then []
    else (if items[0].cls == cls then [Block(items[0].name, items[0].body)] else []) + OfClass(items[1..], cls)
  }

  lemma ContainsTail(s: string, word: string)
    requires s != "" && !Contains(s, word)
    ensures !Contains(s[1..], word) && !StartsWith(s, word)
  {
    if Contains(s[1..], word) {
      var i :| 0 <= i <= |s[1..]| && At(s[1..], i, word);
      assert s[i + 1..i + 1 + |word|] == s[1..][i..i + |word|];
      assert At(s, i + 1, word);
    }
    if StartsWith(s, word) { assert At(s, 0, word); }
  }

  lemma {:induction false} StopAfterBody(body: string, rest: string)
    requires !Contains(body, ".\n")
    ensures UpToStop(body + (".\n" + rest)) == Some((body, rest))
  {
    var t := body + (".\n" + rest);
    if body == "" {
      assert t == ".\n" + rest && t[2..] == rest;
    } else {
      ContainsTail(body, ".\n");
      StopAfterBody(body[1..], rest);
      assert t[1..] == body[1..] + (".\n" + rest);
      assert t[0] == body[0] && t[1] == if |body| > 1 then body[1] else '.';
      assert body == [body[0]] + body[1..];
    }
  }

  lemma DropPrefix(a: string, b: string)
    ensures StartsWith(a + b, a) && (a + b)[|a|..] == b
  {
  }

  /** The pattern of its class matches a printed subject, and no more than it. */
  lemma PrintedBlockAt(it: Item, rest: string)
    requires IsItem(it)
    ensures BlockAt(PrintItem(it) + rest, it.cls) == Some((Block(it.name, it.body), rest))
  {
    var stop := it.body + (".\n" + rest);
    var behind := Header(it.cls) + stop;
    Regroup("amp:", it.name, Header(it.cls), it.body, ".\n", rest);
    DropPrefix("amp:", it.name + behind);
    WordRunIs(it.name, behind);
    DropPrefix(it.name, behind);
    assert (it.name + behind)[..|it.name|] == it.name;
    DropPrefix(Header(it.cls), stop);
    StopAfterBody(it.body, rest);
  }

  lemma Regroup(a: string, b: string, c: string, d: string, e: string, rest: string)
    ensures (a + (b + (c + (d + e)))) + rest == a + (b + (c + (d + (e + rest))))
  {
  }

  // ---------------------------------------------------------------- text without a match

  lemma SkipChar(c: char, t: string, cls: string)
    requires BlockAt([c] + t, cls).None?
    ensures Cut([c] + t, cls) == Cut(t, cls)
  {
    assert ([c] + t)[1..] == t;
  }

  lemma NotAmp(t: string, cls: string, i: nat)
    requires i < 4 && i < |t| && t[i] != "amp:"[i]
    ensures BlockAt(t, cls).None?
  {
    assert |t| >= 4 ==> t[..4][i] == t[i];
  }

  lemma SkipOther(c: char, t: string, cls: string)
    requires c != 'a' || (t != "" && t[0] != 'm')
    ensures Cut([c] + t, cls) == Cut(t, cls)
  {
    NotAmp([c] + t, cls, if c != 'a' then 0 else 1);
    SkipChar(c, t, cls);
  }

  lemma {:induction false} SkipQuiet(w: string, t: string, cls: string)
    requires 'a' !in w
    ensures Cut(w + t, cls) == Cut(t, cls)
  {
    if w == "" {
      assert w + t == t;
    } else {
      assert w + t == [w[0]] + (w[1..] + t) && w[0] in w;
      SkipOther(w[0], w[1..] + t, cls);
      SkipQuiet(w[1..], t, cls);
    }
  }

  /** No match starts inside a word that is not followed by a colon. */
  lemma {:induction false} SkipWord(word: string, t: string, cls: string)
    requires (forall c :: c in word ==> IsWordChar(c)) && t != "" && t[0] == ' '
    ensures Cut(word + t, cls) == Cut(t, cls)
  {
    if word == "" {
      assert word + t == t;
    } else {
      var u := word + t;
      if |word| > 3 {
        assert word[3] in word && u[3] == word[3];
        NotAmp(u, cls, 3);
      } else {
        NotAmp(u, cls, |word|);
      }
      assert u == [word[0]] + (word[1..] + t);
      SkipChar(word[0], word[1..] + t, cls);
      SkipWord(word[1..], t, cls);
    }
  }

  lemma SkipAmp(t: string, cls: string)
    requires BlockAt("amp:" + t, cls).None?
    ensures Cut("amp:" + t, cls) == Cut(t, cls)
  {
    assert "amp:" + t == ['a'] + ("mp:" + t);
    SkipChar('a', "mp:" + t, cls);
    SkipQuiet("mp:", t, cls);
  }

  /** A word after the prefix makes a block only if a header of the class follows it. */
  lemma NoHeaderNoBlock(word: string, t: string, cls: string)
    requires (forall c :: c in word ==> IsWordChar(c)) && t != "" && t[0] == ' ' && !StartsWith(t, Header(cls))
    ensures BlockAt("amp:" + (word + t), cls).None?
  {
    DropPrefix("amp:", word + t);
    WordRunIs(word, t);
    DropPrefix(word, t);
  }

  lemma HeaderNamesClass(other: string, cls: string, t: string)
    requires IsWord(other) && IsWord(cls) && StartsWith(Header(other) + t, Header(cls))
    ensures other == cls
  {
    var u := Header(other) + t;
    assert u[7..] == other + (" ;" + t);
    WordRunIs(other, " ;" + t);
    var behind := u[|Header(cls)|..];
    assert u == Header(cls) + behind;
    assert u[7..] == cls + (" ;" + behind);
    WordRunIs(cls, " ;" + behind);
    assert (other + (" ;" + t))[..|other|] == other && (cls + (" ;" + behind))[..|cls|] == cls;
  }

  lemma HeaderStands(u: string, n: nat, behind: string, cls: string)
    requires n <= |u| && behind == u[n..] && StartsWith(behind, Header(cls))
    ensures At(u, n, " a amp:")
  {
    assert behind[..7] == behind[..|Header(cls)|][..7] == Header(cls)[..7] == " a amp:";
    assert u[n..n + 7] == behind[..7];
  }

  lemma BreakBehind(u: string, n: nat, word: string, e: nat)
    requires At(u, n, word) && '\n' !in word && n <= e < |u| && u[e] == '\n'
    ensures n + |word| <= e
  {
    AtWord(u, n, word);
    assert forall k :: 0 <= k < |word| ==> word[k] in word && u[n + k] == word[k];
    assert u[n + (e - n)] == '\n';
  }

  lemma PrefixAndWord(u: string, n: nat)
    requires StartsWith(u, "amp:") && n == 4 + WordRun(u[4..])
    ensures n <= |u| && forall k :: 0 <= k < n ==> u[k] != '\n'
  {
    assert forall k :: 0 <= k < 4 ==> u[k] == u[..4][k] == "amp:"[k];
    assert forall k :: 4 <= k < n ==> IsWordChar(u[4..][k - 4]) && u[4..][k - 4] == u[k];
  }

  /** A match ends its header before the first line break. */
  lemma HeaderBeforeBreak(u: string, e: nat, cls: string)
    requires BlockAt(u, cls).Some? && e < |u| && u[e] == '\n'
    ensures var n := 4 + WordRun(u[4..]); n + 7 <= e && At(u, n, " a amp:")
  {
    var n := 4 + WordRun(u[4..]);
    PrefixAndWord(u, n);
    assert u[4..][n - 4..] == u[n..];
    HeaderStands(u, n, u[n..], cls);
    BreakBehind(u, n, " a amp:", e);
  }

  /** Whole lines that name no class. */
  predicate QuietLines(w: string) { (w == "" || w[|w| - 1] == '\n') && !Contains(w, " a amp:") }

  lemma NoBlockInLines(w: string, t: string, cls: string)
    requires w != "" && QuietLines(w)
    ensures BlockAt(w + t, cls).None?
  {
    var u := w + t;
    if BlockAt(u, cls).Some? {
      HeaderBeforeBreak(u, |w| - 1, cls);
      var n := 4 + WordRun(u[4..]);
      assert w[n..n + 7] == u[n..n + 7];
      assert At(w, n, " a amp:");
    }
  }

  lemma {:induction false} SkipLines(w: string, t: string, cls: string)
    requires QuietLines(w)
    ensures Cut(w + t, cls) == Cut(t, cls)
  {
    if w == "" {
      assert w + t == t;
    } else {
      NoBlockInLines(w, t, cls);
      ContainsTail(w, " a amp:");
      assert w + t == [w[0]] + (w[1..] + t);
      SkipChar(w[0], w[1..] + t, cls);
      SkipLines(w[1..], t, cls);
    }
  }

  lemma SkipBody(body: string, rest: string, cls: string)
    requires !Contains(body, " a amp:")
    ensures Cut(body + (".\n" + rest), cls) == Cut(rest, cls)
  {
    var w := body + ".\n";
    assert w[|body|] == '.';
    forall i | 0 <= i <= |w| ensures !At(w, i, " a amp:") {
      if i + 7 <= |body| {
        assert w[i..i + 7] == body[i..i + 7] && !At(body, i, " a amp:");
      } else if i + 7 <= |w| {
        assert w[i..i + 7][|body| - i] == '.' != " a amp:"[|body| - i];
      }
    }
    SkipLines(w, rest, cls);
    ConcatAssociative(body, ".\n", rest);
  }

  lemma SkipLead(t: string, cls: string)
    ensures Cut(" a " + t, cls) == Cut(t, cls)
  {
    assert " a " + t == " " + (['a'] + (" " + t));
    SkipQuiet(" ", ['a'] + (" " + t), cls);
    SkipOther('a', " " + t, cls);
    SkipQuiet(" ", t, cls);
  }

  lemma NoHeaderAfterClass(t: string, cls: string)
    ensures !StartsWith(" ;" + t, Header(cls))
  {
    var u := " ;" + t;
    assert u[1] == ';' && Header(cls)[1] == 'a';
    assert |u| >= |Header(cls)| ==> u[..|Header(cls)|][1] == u[1];
  }

  lemma SkipClass(other: string, t: string, cls: string)
    requires IsWord(other)
    ensures Cut("amp:" + (other + (" ;" + t)), cls) == Cut(t, cls)
  {
    NoHeaderAfterClass(t, cls);
    NoHeaderNoBlock(other, " ;" + t, cls);
    SkipAmp(other + (" ;" + t), cls);
    SkipWord(other, " ;" + t, cls);
    SkipQuiet(" ;", t, cls);
  }

  lemma SkipHeader(other: string, t: string, cls: string)
    requires IsWord(other)
    ensures Cut(Header(other) + t, cls) == Cut(t, cls)
  {
    assert Header(other) + t == " a " + ("amp:" + (other + (" ;" + t)));
    SkipLead("amp:" + (other + (" ;" + t)), cls);
    SkipClass(other, t, cls);
  }

  /** Nothing of a class is found in a subject of another class. */
  lemma SkipItem(it: Item, rest: string, cls: string)
    requires IsItem(it) && IsWord(cls) && it.cls != cls
    ensures Cut(PrintItem(it) + rest, cls) == Cut(rest, cls)
  {
    var tail := it.body + (".\n" + rest);
    Regroup("amp:", it.name, Header(it.cls), it.body, ".\n", rest);
    if StartsWith(Header(it.cls) + tail, Header(cls)) { HeaderNamesClass(it.cls, cls, tail); }
    NoHeaderNoBlock(it.name, Header(it.cls) + tail, cls);
    SkipAmp(it.name + (Header(it.cls) + tail), cls);
    SkipWord(it.name, Header(it.cls) + tail, cls);
    SkipHeader(it.cls, tail, cls);
    SkipBody(it.body, rest, cls);
  }

  lemma {:induction false} CutItems(items: seq<Item>, cls: string)
    requires IsWord(cls) && forall it :: it in items ==> IsItem(it)
    ensures Cut(PrintItems(items), cls) == OfClass(items, cls)
  {
    if items != [] {
      var it, rest := items[0], PrintItems(items[1..]);
      assert it in items;
      CutItems(items[1..], cls);
      SkipLines(it.gap, rest, cls);
      if it.cls == cls {
        PrintedBlockAt(it, it.gap + rest);
      } else {
        SkipItem(it, it.gap + rest, cls);
      }
    }
  }

  /** Cutting a printed document gives the subjects of the class, each with its whole body, in
      document order, whatever prefixes, comments and subjects of other classes stand between. */
  lemma DocumentRoundTrip(prologue: string, items: seq<Item>, cls: string)
    requires IsWord(cls) && QuietLines(prologue) && forall it :: it in items ==> IsItem(it)
    ensures Cut(prologue + PrintItems(items), cls) == OfClass(items, cls)
  {
    SkipLines(prologue, PrintItems(items), cls);
    CutItems(items, cls);
  }
}
