/** What the configuration-line scanner computes, stated against reference
    definitions that do not mention its states. */
module ParserFsmProperties {
  import opened Wrappers
  import opened ParserFsm

  /* ---------------------------------------------------------------- */
  /* Unquoted text: runs of non-split runes                           */
  /* ---------------------------------------------------------------- */

  predicate Unquoted(s: string) {
    forall i :: 0 <= i < |s| ==> s[i] != QuoteChar && s[i] != SingleQuoteChar
  }

  /** Length of the longest prefix of `s` free of split characters. */
  function FirstSplit(s: string, split: string): (k: nat)
    ensures k <= |s|
    ensures forall i :: 0 <= i < k ==> s[i] !in split
    ensures k < |s| ==> s[k] in split
  {
    if s == [] || s[0] in split then 0 else 1 + FirstSplit(s[1..], split)
  }

  /** The maximal runs of non-split runes of `s`, in order. */
  function Fields(s: string, split: string): (fs: seq<string>)
    ensures forall j :: 0 <= j < |fs| ==> fs[j] != []
    ensures forall j, i :: 0 <= j < |fs| && 0 <= i < |fs[j]| ==> fs[j][i] !in split
    decreases |s|
  {
    if s == [] then []
    else if s[0] in split then Fields(s[1..], split)
    else
      var k := FirstSplit(s, split);
      [s[..k]] + Fields(s[k..], split)
  }

  /** Leading split runes contribute no field. */
  lemma {:induction false} FieldsSkip(s: string, m: nat, split: string)
    requires m <= |s|
    requires forall i :: 0 <= i < m ==> s[i] in split
    ensures Fields(s, split) == Fields(s[m..], split)
  {
    if m > 0 {
      FieldsSkip(s[1..], m - 1, split);
      assert s[1..][m - 1..] == s[m..];
    }
  }

  /** The tokens still to come when `t` is pending and `r` is unread:
      the pending text joins the first run of `r`, and the rest of `r`
      splits into its fields. */
  function Pending(t: string, r: string, split: string): seq<string> {
    var k := FirstSplit(r, split);
    if k < |r| then [t + r[..k]] + Fields(r[k..], split)
    else if t + r == [] then []
    else [t + r]
  }

  lemma PendingFields(r: string, split: string)
    requires r == [] || r[0] !in split
    ensures Pending([], r, split) == Fields(r, split)
  {
    if r != [] {
      var k := FirstSplit(r, split);
      if k == |r| {
        assert r[..k] == r && r[k..] == [];
        assert Fields(r[k..], split) == [];
        assert [] + r == r;
      } else {
        assert [] + r[..k] == r[..k];
      }
    }
  }

  lemma PendingStep(t: string, r: string, split: string)
    requires r != [] && r[0] !in split
    ensures Pending(t + [r[0]], r[1..], split) == Pending(t, r, split)
  {
    var k := FirstSplit(r, split);
    assert FirstSplit(r[1..], split) == k - 1;
    assert r == [r[0]] + r[1..];
    if k < |r| {
      assert r[..k] == [r[0]] + r[1..][..k - 1];
      assert r[k..] == r[1..][k - 1..];
      assert t + r[..k] == (t + [r[0]]) + r[1..][..k - 1];
    } else {
      assert t + r == (t + [r[0]]) + r[1..];
    }
  }

  /** At a split rune the scanner ends the pending token and skips the
      whole run of split runes. */
  lemma UnfoldAtSplit(f: Fsm) returns (h: Fsm)
    requires f.Valid() && f.err.None?
    requires !f.Empty() && f.IsSplit(f.input[f.currentPos])
    ensures h.Valid() && h.err.None? && h.token == [] && h.tokens == f.tokens + [f.token]
    ensures PrepareScan(f) == PrepareScan(h)
    ensures h.input == f.input && h.splitCharacters == f.splitCharacters
    ensures f.currentPos < h.currentPos
    ensures forall i :: f.currentPos <= i < h.currentPos ==> f.IsSplit(f.input[i])
    ensures h.Empty() || !f.IsSplit(f.input[h.currentPos])
  {
    var f1 := Next(f).1;
    h := TrimLoop(AddToken(f1));
    assert PrepareScan(f) == StateTokenEnd(f1);
  }

  /** A plain rune outside quotes joins the pending token. */
  lemma UnfoldPlain(f: Fsm) returns (f2: Fsm)
    requires f.Valid() && f.err.None? && !f.Empty()
    requires !f.IsSplit(f.input[f.currentPos])
    requires f.input[f.currentPos] != QuoteChar && f.input[f.currentPos] != SingleQuoteChar
    ensures f2.Valid() && f2.err.None? && f2.tokens == f.tokens && f2.token == f.token + [f.input[f.currentPos]]
    ensures PrepareScan(f) == PrepareScan(f2)
    ensures f2.input == f.input && f2.splitCharacters == f.splitCharacters
    ensures f2.currentPos == f.currentPos + 1
  {
    f2 := AppendRune(Next(f).1, f.input[f.currentPos]);
  }

  /** At the end of input a non-empty pending token is handed over. */
  lemma UnfoldAtEnd(f: Fsm)
    requires f.Valid() && f.err.None? && f.Empty()
    ensures PrepareScan(f).err.None?
    ensures PrepareScan(f).tokens == f.tokens + (if f.token == [] then [] else [f.token])
  {
    assert PrepareScan(f) == StateEOF(Next(f).1);
  }

  lemma PendingAfterSplit(t: string, r: string, m: nat, split: string)
    requires 0 < m <= |r|
    requires forall i :: 0 <= i < m ==> r[i] in split
    requires m == |r| || r[m] !in split
    ensures Pending(t, r, split) == [t] + Fields(r[m..], split)
  {
    FieldsSkip(r, m, split);
    assert FirstSplit(r, split) == 0;
    assert t + r[..0] == t && r[0..] == r;
  }

  lemma AppendAfter(a: seq<string>, t: string, fs: seq<string>, x: seq<string>)
    requires x == a + [t] + fs
    ensures x == a + ([t] + fs)
  {
  }

  /** Outside quotes the scanner hands over exactly the pending tokens. */
  lemma {:induction false} PrepareScanUnquoted(f: Fsm)
    requires f.Valid() && f.err.None?
    requires Unquoted(f.Rest())
    ensures PrepareScan(f).err.None?
    ensures PrepareScan(f).tokens == f.tokens + Pending(f.token, f.Rest(), f.splitCharacters)
    decreases |f.input| - f.currentPos
  {
    var split := f.splitCharacters;
    var r := f.Rest();
    if r == [] {
      UnfoldAtEnd(f);
      assert f.token + r == f.token;
    } else if r[0] in split {
      var h := UnfoldAtSplit(f);
      var m := h.currentPos - f.currentPos;
      var rest := h.Rest();
      assert rest == r[m..];
      assert Unquoted(rest);
      PrepareScanUnquoted(h);
      PendingFields(rest, split);
      PendingAfterSplit(f.token, r, m, split);
      AppendAfter(f.tokens, f.token, Fields(rest, split), PrepareScan(h).tokens);
    } else {
      var f2 := UnfoldPlain(f);
      assert f2.Rest() == r[1..];
      PrepareScanUnquoted(f2);
      PendingStep(f.token, r, split);
    }
  }

  /** A line without quotes splits into its maximal runs of non-split
      runes; a leading split rune first ends an empty token. */
  lemma ParseUnquoted(line: string, split: string)
    requires Unquoted(line)
    ensures Parse(line, split).err == None
    ensures Parse(line, split).tokens
         == (if line != [] && line[0] in split then [[]] else []) + Fields(line, split)
  {
    var f := Start(line, split);
    assert f.Rest() == line;
    PrepareScanUnquoted(f);
    if line != [] && line[0] in split {
      assert FirstSplit(line, split) == 0;
      assert [] + line[..0] == [];
      assert line[0..] == line;
    } else {
      PendingFields(line, split);
    }
  }

  /* ---------------------------------------------------------------- */
  /* Unfolding single steps of the scanner                            */
  /* ---------------------------------------------------------------- */

  /** Ending a token: the pending token is handed over, and the scanner
      resumes outside quotes after the run of split runes that follows. */
  lemma UnfoldTokenEnd(g: Fsm) returns (h: Fsm)
    requires g.Valid() && g.err.None?
    ensures h.Valid() && h.err.None? && h.token == [] && h.tokens == g.tokens + [g.token]
    ensures h.input == g.input && h.splitCharacters == g.splitCharacters
    ensures g.currentPos <= h.currentPos
    ensures forall i :: g.currentPos <= i < h.currentPos ==> g.IsSplit(g.input[i])
    ensures h.Empty() || !g.IsSplit(g.input[h.currentPos])
    ensures StateTokenEnd(g) == PrepareScan(h)
  {
    h := TrimLoop(AddToken(g));
  }

  /** An opening quote of either kind (that is not also a split rune)
      switches to the matching quoted state. */
  lemma UnfoldOpenQuote(f: Fsm) returns (f1: Fsm)
    requires f.Valid() && f.err.None? && !f.Empty()
    requires f.input[f.currentPos] in {QuoteChar, SingleQuoteChar}
    requires !f.IsSplit(f.input[f.currentPos])
    ensures f1.Valid() && f1.err.None? && f1.tokens == f.tokens && f1.token == f.token
    ensures f1.input == f.input && f1.splitCharacters == f.splitCharacters
    ensures f1.currentPos == f.currentPos + 1
    ensures f.input[f.currentPos] == QuoteChar ==> PrepareScan(f) == StateQuotesString(f1)
    ensures f.input[f.currentPos] == SingleQuoteChar ==> PrepareScan(f) == StateSQuotesString(f1)
  {
    f1 := Next(f).1;
  }

  /** Escapes inside double quotes, as a table: the control characters
      written `\n \r \t \b \a`; every other escaped rune stands for itself. */
  const ControlEscapes: map<char, char> :=
    map['n' := '\n', 'r' := '\r', 't' := '\t', 'b' := '\U{8}', 'a' := '\U{7}']

  function Unescape(c: char): char {
    if c in ControlEscapes then ControlEscapes[c] else c
  }

  /** Inside double quotes a backslash and the rune after it add one rune,
      decoded by the escape table, to the pending token. */
  lemma UnfoldQuoteEscape(f: Fsm) returns (g: Fsm)
    requires f.Valid() && f.err.None?
    requires |f.Rest()| >= 2 && f.Rest()[0] == EscapeChar
    ensures g.Valid() && g.err.None? && g.tokens == f.tokens
    ensures g.token == f.token + [Unescape(f.Rest()[1])]
    ensures g.input == f.input && g.splitCharacters == f.splitCharacters
    ensures g.currentPos == f.currentPos + 2
    ensures StateQuotesString(f) == StateQuotesString(g)
  {
    var f1 := Next(f).1;
    var f2 := Peek(f1).1;
    g := StateEscape(f2);
  }

  /** Inside double quotes any rune other than a quote or a backslash joins
      the pending token. */
  lemma UnfoldQuotePlain(f: Fsm) returns (g: Fsm)
    requires f.Valid() && f.err.None? && !f.Empty()
    requires f.input[f.currentPos] != QuoteChar && f.input[f.currentPos] != EscapeChar
    ensures g.Valid() && g.err.None? && g.tokens == f.tokens
    ensures g.token == f.token + [f.input[f.currentPos]]
    ensures g.input == f.input && g.splitCharacters == f.splitCharacters
    ensures g.currentPos == f.currentPos + 1
    ensures StateQuotesString(f) == StateQuotesString(g)
  {
    g := AppendRune(Next(f).1, f.input[f.currentPos]);
  }

  /** A closing double quote followed by a split rune or the end of input
      ends the token. */
  lemma UnfoldQuoteClose(f: Fsm) returns (g: Fsm)
    requires f.Valid() && f.err.None?
    requires |f.Rest()| >= 1 && f.Rest()[0] == QuoteChar
    requires |f.Rest()| == 1 || f.IsSplit(f.Rest()[1])
    ensures g.Valid() && g.err.None? && g.tokens == f.tokens && g.token == f.token
    ensures g.input == f.input && g.splitCharacters == f.splitCharacters
    ensures g.currentPos == f.currentPos + 1
    ensures StateQuotesString(f) == StateTokenEnd(g)
  {
    g := Peek(Next(f).1).1;
  }

  /* ---------------------------------------------------------------- */
  /* Double quotes                                                    */
  /* ---------------------------------------------------------------- */

  /** Writes `w` for the inside of double quotes: a quote or a backslash
      gets a backslash in front, every other rune is written as is. */
  function EscapeQuoted(w: string): string {
    if w == [] then []
    else (if w[0] == QuoteChar || w[0] == EscapeChar then [EscapeChar, w[0]] else [w[0]])
         + EscapeQuoted(w[1..])
  }

  /** `w` as a double-quoted string. */
  function Quote(w: string): string {
    [QuoteChar] + EscapeQuoted(w) + [QuoteChar]
  }

  /** One rune of an escaped word inside double quotes. */
  lemma QuotedStep(f: Fsm, w: string, tail: string) returns (f1: Fsm)
    requires f.Valid() && f.err.None? && w != []
    requires f.Rest() == EscapeQuoted(w) + [QuoteChar] + tail
    ensures f1.Valid() && f1.err.None? && f1.tokens == f.tokens && f1.token == f.token + [w[0]]
    ensures f1.input == f.input && f1.splitCharacters == f.splitCharacters
    ensures f1.Rest() == EscapeQuoted(w[1..]) + [QuoteChar] + tail
    ensures StateQuotesString(f) == StateQuotesString(f1)
  {
    var more := EscapeQuoted(w[1..]) + [QuoteChar] + tail;
    if w[0] == QuoteChar || w[0] == EscapeChar {
      assert f.Rest() == [EscapeChar, w[0]] + more;
      f1 := QuotedEscapedRune(f, w[0], more);
    } else {
      assert f.Rest() == [w[0]] + more;
      f1 := QuotedPlainRune(f, w[0], more);
    }
  }

  lemma QuotedEscapedRune(f: Fsm, c: char, more: string) returns (f1: Fsm)
    requires f.Valid() && f.err.None?
    requires c == QuoteChar || c == EscapeChar
    requires f.Rest() == [EscapeChar, c] + more
    ensures f1.Valid() && f1.err.None? && f1.tokens == f.tokens && f1.token == f.token + [c]
    ensures f1.input == f.input && f1.splitCharacters == f.splitCharacters
    ensures f1.Rest() == more
    ensures StateQuotesString(f) == StateQuotesString(f1)
  {
    f1 := UnfoldQuoteEscape(f);
    assert c !in ControlEscapes;
    assert f1.Rest() == f.Rest()[2..];
  }

  lemma QuotedPlainRune(f: Fsm, c: char, more: string) returns (f1: Fsm)
    requires f.Valid() && f.err.None?
    requires c != QuoteChar && c != EscapeChar
    requires f.Rest() == [c] + more
    ensures f1.Valid() && f1.err.None? && f1.tokens == f.tokens && f1.token == f.token + [c]
    ensures f1.input == f.input && f1.splitCharacters == f.splitCharacters
    ensures f1.Rest() == more
    ensures StateQuotesString(f) == StateQuotesString(f1)
  {
    f1 := UnfoldQuotePlain(f);
    assert f1.Rest() == f.Rest()[1..];
  }

  /** Reading an escaped word inside double quotes accumulates the word and
      stops at the closing quote. */
  lemma {:induction false} QuotedContent(f: Fsm, w: string, tail: string) returns (g: Fsm)
    requires f.Valid() && f.err.None?
    requires f.Rest() == EscapeQuoted(w) + [QuoteChar] + tail
    ensures g.Valid() && g.err.None? && g.tokens == f.tokens && g.token == f.token + w
    ensures g.input == f.input && g.splitCharacters == f.splitCharacters
    ensures g.Rest() == [QuoteChar] + tail
    ensures StateQuotesString(f) == StateQuotesString(g)
    decreases |w|
  {
    if w == [] {
      g := f;
      assert EscapeQuoted(w) == [];
    } else {
      var f1 := QuotedStep(f, w, tail);
      g := QuotedContent(f1, w[1..], tail);
      TokenGrows(f.token, w);
    }
  }

  lemma TokenGrows(t: string, w: string)
    requires w != []
    ensures t + [w[0]] + w[1..] == t + w
  {
    assert w == [w[0]] + w[1..];
  }

  /** Outside quotes, a run of unquoted runes followed by an opening quote
      of kind `q` leads into the matching quoted state right after the
      quote; split runes in the run end tokens on the way. */
  lemma {:induction false} ReachQuote(f: Fsm, p: string, q: char, body: string) returns (g: Fsm)
    requires f.Valid() && f.err.None?
    requires q in {QuoteChar, SingleQuoteChar} && !f.IsSplit(q)
    requires Unquoted(p)
    requires f.Rest() == p + [q] + body
    ensures g.Valid() && g.err.None?
    ensures g.input == f.input && g.splitCharacters == f.splitCharacters
    ensures g.Rest() == body
    ensures q == QuoteChar ==> PrepareScan(f) == StateQuotesString(g)
    ensures q == SingleQuoteChar ==> PrepareScan(f) == StateSQuotesString(g)
    decreases |p|
  {
    var r := f.Rest();
    if p == [] {
      assert r[0] == q;
      g := UnfoldOpenQuote(f);
      assert g.Rest() == r[1..];
    } else if f.IsSplit(p[0]) {
      var h, p' := SplitBeforeQuote(f, p, q, body);
      g := ReachQuote(h, p', q, body);
    } else {
      var f2 := UnfoldPlain(f);
      assert f2.Rest() == p[1..] + [q] + body;
      g := ReachQuote(f2, p[1..], q, body);
    }
  }

  /** Split runes before an opening quote end the pending token and are
      skipped; the quote itself is never skipped. */
  lemma SplitBeforeQuote(f: Fsm, p: string, q: char, body: string) returns (h: Fsm, p': string)
    requires f.Valid() && f.err.None?
    requires !f.IsSplit(q)
    requires p != [] && f.IsSplit(p[0])
    requires f.Rest() == p + [q] + body
    ensures h.Valid() && h.err.None?
    ensures h.input == f.input && h.splitCharacters == f.splitCharacters
    ensures |p'| < |p| && p' == p[|p| - |p'|..]
    ensures h.Rest() == p' + [q] + body
    ensures PrepareScan(f) == PrepareScan(h)
  {
    h := UnfoldAtSplit(f);
    var m := h.currentPos - f.currentPos;
    assert f.input[f.currentPos + |p|] == q;
    assert m <= |p|;
    p' := p[m..];
    assert h.Rest() == p' + [q] + body;
  }

  /** Text inside double quotes that never closes them: every double quote
      in it is the second rune of a backslash escape, so `a\"` (an escaped
      quote) does not close the string. */
  predicate NoClosingQuote(r: string)
    decreases |r|
  {
    if r == [] then true
    else if r[0] == QuoteChar then false
    else if r[0] == EscapeChar then |r| == 1 || NoClosingQuote(r[2..])
    else NoClosingQuote(r[1..])
  }

  /** Inside double quotes, input without a closing quote fails, whether it
      runs out plainly or right after a backslash. */
  lemma {:induction false} UnterminatedQuotes(f: Fsm)
    requires f.Valid() && f.err.None?
    requires NoClosingQuote(f.Rest())
    ensures StateQuotesString(f).err == Some(ErrUnterminatedQuotes)
    decreases |f.input| - f.currentPos
  {
    var r := f.Rest();
    if r == [] {
    } else if r[0] == EscapeChar && |r| == 1 {
    } else if r[0] == EscapeChar {
      var g := UnfoldQuoteEscape(f);
      assert g.Rest() == r[2..];
      UnterminatedQuotes(g);
    } else {
      var g := UnfoldQuotePlain(f);
      assert g.Rest() == r[1..];
      UnterminatedQuotes(g);
    }
  }

  /** A double quote that is never closed makes the line fail with
      "unterminated quotes." */
  lemma ParseUnterminatedQuotes(p: string, body: string, split: string)
    requires Unquoted(p) && QuoteChar !in split && NoClosingQuote(body)
    ensures Parse(p + [QuoteChar] + body, split).err == Some(ErrUnterminatedQuotes)
  {
    var f := Start(p + [QuoteChar] + body, split);
    assert f.Rest() == p + [QuoteChar] + body;
    var g := ReachQuote(f, p, QuoteChar, body);
    UnterminatedQuotes(g);
  }

  /** The line `"a\"` fails: its only other quote is escaped. */
  lemma EscapedQuoteNeverCloses(split: string)
    requires QuoteChar !in split
    ensures Parse([QuoteChar, 'a', EscapeChar, QuoteChar], split).err == Some(ErrUnterminatedQuotes)
  {
    assert NoClosingQuote(['a', EscapeChar, QuoteChar]);
    ParseUnterminatedQuotes([], ['a', EscapeChar, QuoteChar], split);
    assert [] + [QuoteChar] + ['a', EscapeChar, QuoteChar] == [QuoteChar, 'a', EscapeChar, QuoteChar];
  }

  /** A closing double quote must be followed by a split rune or the end
      of the line; any other rune makes the line fail. */
  lemma ParseClosingQuoteFollowed(p: string, w: string, c: char, more: string, split: string)
    requires Unquoted(p) && QuoteChar !in split && c !in split
    ensures Parse(p + Quote(w) + [c] + more, split).err == Some(ErrClosingQuote)
  {
    var line := p + Quote(w) + [c] + more;
    var tail := [c] + more;
    var f := Start(line, split);
    assert f.Rest() == p + [QuoteChar] + (EscapeQuoted(w) + [QuoteChar] + tail);
    var g := ReachQuote(f, p, QuoteChar, EscapeQuoted(w) + [QuoteChar] + tail);
    var h := QuotedContent(g, w, tail);
    assert h.Rest() == [QuoteChar, c] + more;
    var h1 := Next(h).1;
    assert StateQuotesString(h) == Failed(Peek(h1).1, ErrClosingQuote);
  }

  /** A double-quoted word followed by a split rune or the end of input is
      handed over as one token (joined to whatever was pending), and the
      scanner resumes after the split runes that follow. */
  lemma ScanQuotedWord(f: Fsm, w: string, tail: string) returns (h: Fsm)
    requires f.Valid() && f.err.None? && !f.IsSplit(QuoteChar)
    requires f.Rest() == Quote(w) + tail
    requires tail == [] || f.IsSplit(tail[0])
    ensures h.Valid() && h.err.None? && h.token == [] && h.tokens == f.tokens + [f.token + w]
    ensures h.input == f.input && h.splitCharacters == f.splitCharacters
    ensures |f.input| - |tail| <= h.currentPos
    ensures forall i :: |f.input| - |tail| <= i < h.currentPos ==> f.IsSplit(f.input[i])
    ensures h.Empty() || !f.IsSplit(f.input[h.currentPos])
    ensures PrepareScan(f) == PrepareScan(h)
  {
    var g1 := CloseQuotedWord(f, w, tail);
    h := UnfoldTokenEnd(g1);
  }

  /** Reading a double-quoted word up to and including its closing quote
      adds the word to the pending token and ends the token there. */
  lemma CloseQuotedWord(f: Fsm, w: string, tail: string) returns (g1: Fsm)
    requires f.Valid() && f.err.None? && !f.IsSplit(QuoteChar)
    requires f.Rest() == Quote(w) + tail
    requires tail == [] || f.IsSplit(tail[0])
    ensures g1.Valid() && g1.err.None? && g1.tokens == f.tokens && g1.token == f.token + w
    ensures g1.input == f.input && g1.splitCharacters == f.splitCharacters
    ensures g1.Rest() == tail
    ensures PrepareScan(f) == StateTokenEnd(g1)
  {
    var g := ReadQuotedWord(f, w, tail);
    assert g.Rest()[0] == QuoteChar && g.Rest()[1..] == tail;
    g1 := UnfoldQuoteClose(g);
    assert g1.Rest() == tail;
  }

  /** Reading a double-quoted word up to its closing quote adds the word
      to the pending token and stops at that quote. */
  lemma ReadQuotedWord(f: Fsm, w: string, tail: string) returns (g: Fsm)
    requires f.Valid() && f.err.None? && !f.IsSplit(QuoteChar)
    requires f.Rest() == Quote(w) + tail
    ensures g.Valid() && g.err.None? && g.tokens == f.tokens && g.token == f.token + w
    ensures g.input == f.input && g.splitCharacters == f.splitCharacters
    ensures g.Rest() == [QuoteChar] + tail
    ensures PrepareScan(f) == StateQuotesString(g)
  {
    assert f.Rest() == [QuoteChar] + (EscapeQuoted(w) + [QuoteChar] + tail);
    var f1 := UnfoldOpenQuote(f);
    g := QuotedContent(f1, w, tail);
  }

  /** Text directly before a double quote joins the quoted text in one
      token: `ab"cd"` is the single token `abcd`. */
  lemma {:induction false} PlainThenQuote(f: Fsm, p: string, w: string)
    requires f.Valid() && f.err.None?
    requires Unquoted(p) && forall i :: 0 <= i < |p| ==> !f.IsSplit(p[i])
    requires !f.IsSplit(QuoteChar)
    requires f.Rest() == p + Quote(w)
    ensures PrepareScan(f).err.None?
    ensures PrepareScan(f).tokens == f.tokens + [f.token + p + w]
    decreases |p|
  {
    if p == [] {
      QuotedWordAtEnd(f, w);
      assert f.token + p + w == f.token + w;
    } else {
      var f2 := PlainBeforeQuote(f, p, w);
      PlainThenQuote(f2, p[1..], w);
      JoinHeadRune(f.token, p, w);
    }
  }

  /** One unquoted rune before a double-quoted word joins the pending
      token. */
  lemma PlainBeforeQuote(f: Fsm, p: string, w: string) returns (f2: Fsm)
    requires f.Valid() && f.err.None?
    requires p != [] && Unquoted(p) && forall i :: 0 <= i < |p| ==> !f.IsSplit(p[i])
    requires f.Rest() == p + Quote(w)
    ensures f2.Valid() && f2.err.None? && f2.tokens == f.tokens && f2.token == f.token + [p[0]]
    ensures f2.input == f.input && f2.splitCharacters == f.splitCharacters
    ensures f2.Rest() == p[1..] + Quote(w)
    ensures Unquoted(p[1..]) && forall i :: 0 <= i < |p[1..]| ==> !f2.IsSplit(p[1..][i])
    ensures PrepareScan(f) == PrepareScan(f2)
  {
    assert f.Rest()[0] == p[0];
    f2 := UnfoldPlain(f);
    assert f2.Rest() == f.Rest()[1..];
  }

  /** The first rune, then the rest, then more text, is the whole text. */
  lemma JoinHeadRune(t: string, p: string, w: string)
    requires p != []
    ensures t + [p[0]] + p[1..] + w == t + p + w
  {
    assert [p[0]] + p[1..] == p;
  }

  /** A double-quoted word that ends the line is handed over, joined to
      the pending text, and the scan ends. */
  lemma QuotedWordAtEnd(f: Fsm, w: string)
    requires f.Valid() && f.err.None? && !f.IsSplit(QuoteChar)
    requires f.Rest() == Quote(w)
    ensures PrepareScan(f).err.None?
    ensures PrepareScan(f).tokens == f.tokens + [f.token + w]
  {
    assert f.Rest() == Quote(w) + [];
    var h := ScanQuotedWord(f, w, []);
    UnfoldAtEnd(h);
  }

  lemma ParseAdjacentQuote(p: string, w: string, split: string)
    requires Unquoted(p) && forall i :: 0 <= i < |p| ==> p[i] !in split
    requires QuoteChar !in split
    ensures Parse(p + Quote(w), split) == ParseResult([p + w], None)
  {
    var f := Start(p + Quote(w), split);
    assert f.Rest() == p + Quote(w);
    PlainThenQuote(f, p, w);
    assert [] + p + w == p + w;
  }

  /** Words written each in double quotes, one separator apart. */
  function Render(ws: seq<string>, sep: char): string
    decreases |ws|
  {
    if ws == [] then []
    else if |ws| == 1 then Quote(ws[0])
    else Quote(ws[0]) + [sep] + Render(ws[1..], sep)
  }

  lemma {:induction false} RenderScan(f: Fsm, ws: seq<string>, sep: char)
    requires f.Valid() && f.err.None? && f.token == []
    requires f.IsSplit(sep) && !f.IsSplit(QuoteChar)
    requires f.Rest() == Render(ws, sep)
    ensures PrepareScan(f).err.None?
    ensures PrepareScan(f).tokens == f.tokens + ws
    decreases |ws|
  {
    if ws == [] {
      UnfoldAtEnd(f);
    } else if |ws| == 1 {
      assert f.Rest() == Quote(ws[0]);
      QuotedWordAtEnd(f, ws[0]);
      assert f.token + ws[0] == ws[0] && [ws[0]] == ws;
    } else {
      var h := RenderHead(f, ws, sep);
      RenderScan(h, ws[1..], sep);
      ConsTokens(f.tokens, h.tokens, ws);
    }
  }

  /** Tokens handed over first one word, then the rest, are all the words. */
  lemma ConsTokens(before: seq<string>, after: seq<string>, ws: seq<string>)
    requires ws != [] && after == before + [ws[0]]
    ensures after + ws[1..] == before + ws
  {
    assert [ws[0]] + ws[1..] == ws;
  }

  /** Scanning the first of several rendered words hands it over and stops
      at the opening quote of the next. */
  lemma RenderHead(f: Fsm, ws: seq<string>, sep: char) returns (h: Fsm)
    requires f.Valid() && f.err.None? && f.token == []
    requires f.IsSplit(sep) && !f.IsSplit(QuoteChar)
    requires |ws| >= 2 && f.Rest() == Render(ws, sep)
    ensures h.Valid() && h.err.None? && h.token == [] && h.tokens == f.tokens + [ws[0]]
    ensures h.input == f.input && h.splitCharacters == f.splitCharacters
    ensures h.Rest() == Render(ws[1..], sep)
    ensures PrepareScan(f) == PrepareScan(h)
  {
    var next := Render(ws[1..], sep);
    RenderCons(ws, sep);
    h := ScanWordBeforeQuote(f, ws[0], sep, next);
    assert [] + ws[0] == ws[0];
  }

  /** Several rendered words are the first one, the separator, and the
      rest, which opens with a double quote. */
  lemma RenderCons(ws: seq<string>, sep: char)
    requires |ws| >= 2
    ensures Render(ws, sep) == Quote(ws[0]) + [sep] + Render(ws[1..], sep)
    ensures Render(ws[1..], sep) != [] && Render(ws[1..], sep)[0] == QuoteChar
  {
  }

  /** A quoted word, one split rune, and an opening quote: the word is
      handed over and the scanner stops at that quote. */
  lemma ScanWordBeforeQuote(f: Fsm, w: string, sep: char, next: string) returns (h: Fsm)
    requires f.Valid() && f.err.None?
    requires f.IsSplit(sep) && !f.IsSplit(QuoteChar)
    requires next != [] && next[0] == QuoteChar
    requires f.Rest() == Quote(w) + [sep] + next
    ensures h.Valid() && h.err.None? && h.token == [] && h.tokens == f.tokens + [f.token + w]
    ensures h.input == f.input && h.splitCharacters == f.splitCharacters
    ensures h.Rest() == next
    ensures PrepareScan(f) == PrepareScan(h)
  {
    var tail := [sep] + next;
    assert f.Rest() == Quote(w) + tail;
    h := ScanQuotedWord(f, w, tail);
    var at := |f.input| - |tail|;
    assert f.input[at] == sep;
    assert f.input[at + 1] == QuoteChar;
    assert h.currentPos == at + 1;
  }

  /** Scanning words written in double quotes gives back exactly those
      words, whatever runes they contain. */
  lemma ParseRender(ws: seq<string>, sep: char, split: string)
    requires sep in split && QuoteChar !in split
    ensures Parse(Render(ws, sep), split) == ParseResult(ws, None)
  {
    var f := Start(Render(ws, sep), split);
    assert f.Rest() == Render(ws, sep);
    RenderScan(f, ws, sep);
  }

  /* ---------------------------------------------------------------- */
  /* Single quotes                                                    */
  /* ---------------------------------------------------------------- */

  /** Inside single quotes `\'` adds a quote to the pending token. */
  lemma UnfoldSQuoteEscapedQuote(f: Fsm) returns (g: Fsm)
    requires f.Valid() && f.err.None?
    requires |f.Rest()| >= 2 && f.Rest()[0] == EscapeChar && f.Rest()[1] == SingleQuoteChar
    ensures g.Valid() && g.err.None? && g.tokens == f.tokens
    ensures g.token == f.token + [SingleQuoteChar]
    ensures g.input == f.input && g.splitCharacters == f.splitCharacters
    ensures g.currentPos == f.currentPos + 2
    ensures StateSQuotesString(f) == StateSQuotesString(g)
  {
    var f1 := Next(f).1;
    var f2 := Peek(f1).1;
    g := Next(AppendRune(f2, SingleQuoteChar)).1;
  }

  /** Inside single quotes a backslash not followed by a quote is dropped:
      the token is unchanged and scanning resumes at the next rune. */
  lemma UnfoldSQuoteLoneBackslash(f: Fsm) returns (g: Fsm)
    requires f.Valid() && f.err.None?
    requires |f.Rest()| >= 1 && f.Rest()[0] == EscapeChar
    requires |f.Rest()| == 1 || f.Rest()[1] != SingleQuoteChar
    ensures g.Valid() && g.err.None? && g.tokens == f.tokens && g.token == f.token
    ensures g.input == f.input && g.splitCharacters == f.splitCharacters
    ensures g.currentPos == f.currentPos + 1
    ensures StateSQuotesString(f) == StateSQuotesString(g)
  {
    g := Peek(Next(f).1).1;
  }

  lemma UnfoldSQuotePlain(f: Fsm) returns (g: Fsm)
    requires f.Valid() && f.err.None? && !f.Empty()
    requires f.input[f.currentPos] != SingleQuoteChar && f.input[f.currentPos] != EscapeChar
    ensures g.Valid() && g.err.None? && g.tokens == f.tokens
    ensures g.token == f.token + [f.input[f.currentPos]]
    ensures g.input == f.input && g.splitCharacters == f.splitCharacters
    ensures g.currentPos == f.currentPos + 1
    ensures StateSQuotesString(f) == StateSQuotesString(g)
  {
    g := AppendRune(Next(f).1, f.input[f.currentPos]);
  }

  /** Text inside single quotes that never closes them: every single
      quote in it follows a backslash, as `\'` does. */
  predicate NoClosingSingleQuote(r: string)
    decreases |r|
  {
    if r == [] then true
    else if r[0] == SingleQuoteChar then false
    else if r[0] == EscapeChar && |r| >= 2 && r[1] == SingleQuoteChar then NoClosingSingleQuote(r[2..])
    else NoClosingSingleQuote(r[1..])
  }

  /** Inside single quotes, input without a closing quote fails. */
  lemma {:induction false} UnterminatedSingleQuotes(f: Fsm)
    requires f.Valid() && f.err.None?
    requires NoClosingSingleQuote(f.Rest())
    ensures StateSQuotesString(f).err == Some(ErrUnterminatedSingleQuotes)
    decreases |f.input| - f.currentPos
  {
    var r := f.Rest();
    if r == [] {
    } else if r[0] == EscapeChar && |r| >= 2 && r[1] == SingleQuoteChar {
      var g := UnfoldSQuoteEscapedQuote(f);
      assert g.Rest() == r[2..];
      UnterminatedSingleQuotes(g);
    } else if r[0] == EscapeChar {
      var g := UnfoldSQuoteLoneBackslash(f);
      assert g.Rest() == r[1..];
      UnterminatedSingleQuotes(g);
    } else {
      var g := UnfoldSQuotePlain(f);
      assert g.Rest() == r[1..];
      UnterminatedSingleQuotes(g);
    }
  }

  /** A single quote that is never closed makes the line fail with
      "unterminated single quotes." */
  lemma ParseUnterminatedSingleQuotes(p: string, body: string, split: string)
    requires Unquoted(p) && SingleQuoteChar !in split && NoClosingSingleQuote(body)
    ensures Parse(p + [SingleQuoteChar] + body, split).err == Some(ErrUnterminatedSingleQuotes)
  {
    var f := Start(p + [SingleQuoteChar] + body, split);
    assert f.Rest() == p + [SingleQuoteChar] + body;
    var g := ReachQuote(f, p, SingleQuoteChar, body);
    UnterminatedSingleQuotes(g);
  }

  /** Writes `w` for the inside of single quotes: a quote becomes `\'`. */
  function EscapeSingleQuoted(w: string): string {
    if w == [] then []
    else (if w[0] == SingleQuoteChar then [EscapeChar, SingleQuoteChar] else [w[0]])
         + EscapeSingleQuoted(w[1..])
  }

  function SingleQuote(w: string): string {
    [SingleQuoteChar] + EscapeSingleQuoted(w) + [SingleQuoteChar]
  }

  lemma SingleQuotedStep(f: Fsm, w: string, tail: string) returns (f1: Fsm)
    requires f.Valid() && f.err.None? && w != [] && w[0] != EscapeChar
    requires f.Rest() == EscapeSingleQuoted(w) + [SingleQuoteChar] + tail
    ensures f1.Valid() && f1.err.None? && f1.tokens == f.tokens && f1.token == f.token + [w[0]]
    ensures f1.input == f.input && f1.splitCharacters == f.splitCharacters
    ensures f1.Rest() == EscapeSingleQuoted(w[1..]) + [SingleQuoteChar] + tail
    ensures StateSQuotesString(f) == StateSQuotesString(f1)
  {
    var more := EscapeSingleQuoted(w[1..]) + [SingleQuoteChar] + tail;
    if w[0] == SingleQuoteChar {
      assert f.Rest() == [EscapeChar, SingleQuoteChar] + more;
      f1 := SingleQuotedEscapedQuote(f, more);
    } else {
      assert f.Rest() == [w[0]] + more;
      f1 := SingleQuotedPlainRune(f, w[0], more);
    }
  }

  lemma SingleQuotedEscapedQuote(f: Fsm, more: string) returns (f1: Fsm)
    requires f.Valid() && f.err.None?
    requires f.Rest() == [EscapeChar, SingleQuoteChar] + more
    ensures f1.Valid() && f1.err.None? && f1.tokens == f.tokens && f1.token == f.token + [SingleQuoteChar]
    ensures f1.input == f.input && f1.splitCharacters == f.splitCharacters
    ensures f1.Rest() == more
    ensures StateSQuotesString(f) == StateSQuotesString(f1)
  {
    f1 := UnfoldSQuoteEscapedQuote(f);
    assert f1.Rest() == f.Rest()[2..];
  }

  lemma SingleQuotedPlainRune(f: Fsm, c: char, more: string) returns (f1: Fsm)
    requires f.Valid() && f.err.None?
    requires c != SingleQuoteChar && c != EscapeChar
    requires f.Rest() == [c] + more
    ensures f1.Valid() && f1.err.None? && f1.tokens == f.tokens && f1.token == f.token + [c]
    ensures f1.input == f.input && f1.splitCharacters == f.splitCharacters
    ensures f1.Rest() == more
    ensures StateSQuotesString(f) == StateSQuotesString(f1)
  {
    f1 := UnfoldSQuotePlain(f);
    assert f1.Rest() == f.Rest()[1..];
  }

  lemma {:induction false} SingleQuotedContent(f: Fsm, w: string, tail: string) returns (g: Fsm)
    requires f.Valid() && f.err.None?
    requires EscapeChar !in w
    requires f.Rest() == EscapeSingleQuoted(w) + [SingleQuoteChar] + tail
    ensures g.Valid() && g.err.None? && g.tokens == f.tokens && g.token == f.token + w
    ensures g.input == f.input && g.splitCharacters == f.splitCharacters
    ensures g.Rest() == [SingleQuoteChar] + tail
    ensures StateSQuotesString(f) == StateSQuotesString(g)
    decreases |w|
  {
    if w == [] {
      g := f;
      assert EscapeSingleQuoted(w) == [];
    } else {
      var f1 := SingleQuotedStep(f, w, tail);
      g := SingleQuotedContent(f1, w[1..], tail);
      TokenGrows(f.token, w);
    }
  }

  /** The line `'a\'` fails: its only other single quote is escaped. */
  lemma EscapedSingleQuoteNeverCloses(split: string)
    requires SingleQuoteChar !in split
    ensures Parse([SingleQuoteChar, 'a', EscapeChar, SingleQuoteChar], split).err == Some(ErrUnterminatedSingleQuotes)
  {
    assert NoClosingSingleQuote(['a', EscapeChar, SingleQuoteChar]);
    ParseUnterminatedSingleQuotes([], ['a', EscapeChar, SingleQuoteChar], split);
    assert [] + [SingleQuoteChar] + ['a', EscapeChar, SingleQuoteChar] == [SingleQuoteChar, 'a', EscapeChar, SingleQuoteChar];
  }

  /** A closing single quote must be followed by a split rune or the end
      of the line; any other rune makes the line fail. */
  lemma ParseClosingSingleQuoteFollowed(p: string, w: string, c: char, more: string, split: string)
    requires Unquoted(p) && EscapeChar !in w && SingleQuoteChar !in split && c !in split
    ensures Parse(p + SingleQuote(w) + [c] + more, split).err == Some(ErrClosingQuote)
  {
    var tail := [c] + more;
    var f := Start(p + SingleQuote(w) + tail, split);
    assert p + SingleQuote(w) + [c] + more == p + SingleQuote(w) + tail;
    var h := ReadSingleQuotedWord(f, p, w, tail);
    assert h.Rest() == [SingleQuoteChar, c] + more;
    var h1 := Next(h).1;
    assert StateSQuotesString(h) == Failed(Peek(h1).1, ErrClosingQuote);
  }

  /** Unquoted text, then a backslash-free single-quoted word: the scan
      reaches the closing quote with the word added to the pending token. */
  lemma ReadSingleQuotedWord(f: Fsm, p: string, w: string, tail: string) returns (h: Fsm)
    requires f.Valid() && f.err.None? && !f.IsSplit(SingleQuoteChar)
    requires Unquoted(p) && EscapeChar !in w
    requires f.Rest() == p + SingleQuote(w) + tail
    ensures h.Valid() && h.err.None?
    ensures h.input == f.input && h.splitCharacters == f.splitCharacters
    ensures h.Rest() == [SingleQuoteChar] + tail
    ensures PrepareScan(f) == StateSQuotesString(h)
  {
    assert f.Rest() == p + [SingleQuoteChar] + (EscapeSingleQuoted(w) + [SingleQuoteChar] + tail);
    var g := ReachQuote(f, p, SingleQuoteChar, EscapeSingleQuoted(w) + [SingleQuoteChar] + tail);
    h := SingleQuotedContent(g, w, tail);
  }

  /** A backslash-free word written in single quotes scans back to itself. */
  lemma ParseSingleQuote(w: string, split: string)
    requires EscapeChar !in w && SingleQuoteChar !in split
    ensures Parse(SingleQuote(w), split) == ParseResult([w], None)
  {
    var f := Start(SingleQuote(w), split);
    assert f.Rest() == [SingleQuoteChar] + (EscapeSingleQuoted(w) + [SingleQuoteChar] + []);
    var f1 := UnfoldOpenQuote(f);
    var g := SingleQuotedContent(f1, w, []);
    assert g.Rest() == [SingleQuoteChar];
    var g1 := Peek(Next(g).1).1;
    assert StateSQuotesString(g) == StateTokenEnd(g1);
    var h := UnfoldTokenEnd(g1);
    UnfoldAtEnd(h);
    assert [] + w == w;
  }
}
