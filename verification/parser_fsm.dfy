/** The finite-state scanner that splits one line of a Redis-style
    configuration file into tokens, after Redis's `sdssplitargs`.

    Each state of the scanner is a function from the scanner record to the
    final record; a state hands over to the next by calling it, so a whole
    scan is one chain of calls that ends in a final state (end of input or
    failure). Every call either consumes input or moves to a state of lower
    rank at the same position, which is the termination argument. */
module ParserFsm {
  import opened Wrappers

  const QuoteChar: char := '"'
  const SingleQuoteChar: char := '\''
  const EscapeChar: char := '\\'

  const ErrUnterminatedQuotes: string := "unterminated quotes."
  const ErrUnterminatedSingleQuotes: string := "unterminated single quotes."
  const ErrClosingQuote: string := "closing quote must be followed by a space or end."

  /** Every message a scan can fail with. */
  const Errors: set<string> := {ErrUnterminatedQuotes, ErrUnterminatedSingleQuotes, ErrClosingQuote}

  /** The scanner. `tokens` is the list of tokens handed to the parameter
      item so far; `token` is the token being accumulated. The input is a
      sequence of runes, so every rune read has width one. */
  datatype Fsm = Fsm(
    tokens: seq<string>,
    splitCharacters: string,
    input: string,
    currentPos: nat,
    lastScanWidth: nat,
    err: Option<string>,
    token: string)
  {
    predicate Valid() {
      currentPos <= |input|
    }

    predicate Empty() {
      currentPos >= |input|
    }

    predicate IsSplit(c: char) {
      c in splitCharacters
    }

    /** The input not yet consumed. */
    function Rest(): string
      requires Valid()
    {
      input[currentPos..]
    }
  }

  /** What every state promises about the final record it returns: tokens
      are only ever appended, a failure carries one of the three messages,
      and a scan that does not fail has consumed the whole line and left no
      token pending. */
  predicate Finishes(f: Fsm, g: Fsm) {
    && g.Valid()
    && g.input == f.input
    && g.splitCharacters == f.splitCharacters
    && f.tokens <= g.tokens
    && (g.err.Some? ==> g.err.value in Errors)
    && (g.err.None? ==> g.currentPos == |g.input| && g.token == [])
  }

  /* ---------------------------------------------------------------- */
  /* Reading runes                                                    */
  /* ---------------------------------------------------------------- */

  /** Reads one rune, or `None` (end of input) without moving. */
  function Next(f: Fsm): (res: (Option<char>, Fsm))
    requires f.Valid()
    ensures res.1.Valid()
    ensures res.1 == f.(currentPos := res.1.currentPos, lastScanWidth := res.1.lastScanWidth)
    ensures f.Empty() ==> res.0 == None && res.1.currentPos == f.currentPos
    ensures !f.Empty() ==> res.0 == Some(f.input[f.currentPos]) && res.1.currentPos == f.currentPos + 1
    ensures res.1.lastScanWidth == res.1.currentPos - f.currentPos
  {
    if f.Empty() then (None, f.(lastScanWidth := 0))
    else (Some(f.input[f.currentPos]), f.(lastScanWidth := 1, currentPos := f.currentPos + 1))
  }

  /** Looks at the next rune: reads it, then steps back by its width, so
      that only `lastScanWidth` changes. */
  function Peek(f: Fsm): (res: (Option<char>, Fsm))
    requires f.Valid()
    ensures res.1 == f.(lastScanWidth := res.1.lastScanWidth)
    ensures res.0 == Next(f).0
  {
    var (r, g) := Next(f);
    (r, g.(currentPos := g.currentPos - g.lastScanWidth))
  }

  /** Adds one rune to the end of the pending token; nothing else moves. */
  function AppendRune(f: Fsm, c: char): (g: Fsm)
    ensures |g.token| == |f.token| + 1 && g.token[..|f.token|] == f.token && g.token[|f.token|] == c
    ensures g.(token := f.token) == f
    ensures f.Valid() ==> g.Valid()
  {
    f.(token := f.token + [c])
  }

  /** Hands the pending token to the parameter item and clears it. */
  function AddToken(f: Fsm): Fsm {
    f.(tokens := f.tokens + [f.token], token := [])
  }

  /** Records the failure message; the scan stops there, and nothing but
      the error changes. */
  function Failed(f: Fsm, msg: string): (g: Fsm)
    ensures g.err == Some(msg)
    ensures g.(err := f.err) == f
    ensures f.Valid() ==> g.Valid()
  {
    f.(err := Some(msg))
  }

  /* ---------------------------------------------------------------- */
  /* States                                                           */
  /* ---------------------------------------------------------------- */

  /** Outside quotes: end of input, a split character, an opening quote of
      either kind, or a rune that joins the pending token. */
  function PrepareScan(f: Fsm): (g: Fsm)
    requires f.Valid() && f.err.None?
    ensures Finishes(f, g)
    decreases |f.input| - f.currentPos, 1
  {
    var (r, f1) := Next(f);
    match r
    case None => StateEOF(f1)
    case Some(c) =>
      if f1.IsSplit(c) then StateTokenEnd(f1)
      else if c == QuoteChar then StateQuotesString(f1)
      else if c == SingleQuoteChar then StateSQuotesString(f1)
      else PrepareScan(AppendRune(f1, c))
  }

  /** End of input: a non-empty pending token is handed over, an empty one
      is not. The scan stops here. */
  function StateEOF(f: Fsm): (g: Fsm)
    requires f.Valid() && f.err.None? && f.Empty()
    ensures Finishes(f, g)
  {
    if |f.token| > 0 then AddToken(f) else f
  }

  function StateTokenEnd(f: Fsm): (g: Fsm)
    requires f.Valid() && f.err.None?
    ensures Finishes(f, g)
    decreases |f.input| - f.currentPos, 3
  {
    StateTrimSplitCharacters(AddToken(f))
  }

  /** Skips the run of split characters that follows a token. */
  function StateTrimSplitCharacters(f: Fsm): (g: Fsm)
    requires f.Valid() && f.err.None?
    ensures Finishes(f, g)
    decreases |f.input| - f.currentPos, 2
  {
    PrepareScan(TrimLoop(f))
  }

  /** The loop of the trimming state: while the next rune is a split
      character, consume it. It stops at the first rune that is not a split
      character, or at the end of input. */
  function TrimLoop(f: Fsm): (g: Fsm)
    requires f.Valid()
    ensures g.Valid()
    ensures g == f.(currentPos := g.currentPos, lastScanWidth := g.lastScanWidth)
    ensures f.currentPos <= g.currentPos
    ensures forall i :: f.currentPos <= i < g.currentPos ==> f.IsSplit(f.input[i])
    ensures g.Empty() || !f.IsSplit(f.input[g.currentPos])
    decreases |f.input| - f.currentPos
  {
    var (r, f1) := Peek(f);
    if r.Some? && f1.IsSplit(r.value) then TrimLoop(Next(f1).1) else f1
  }

  /** Inside double quotes. */
  function StateQuotesString(f: Fsm): (g: Fsm)
    requires f.Valid() && f.err.None?
    ensures Finishes(f, g)
    decreases |f.input| - f.currentPos, 1
  {
    var (r, f1) := Next(f);
    match r
    case None => Failed(f1, ErrUnterminatedQuotes)
    case Some(c) =>
      if c == QuoteChar then
        var (n, f2) := Peek(f1);
        if n.Some? && !f2.IsSplit(n.value) then Failed(f2, ErrClosingQuote)
        else StateTokenEnd(f2)
      else if c == EscapeChar then
        var (n, f2) := Peek(f1);
        if n.None? then Failed(f2, ErrUnterminatedQuotes)
        else StateQuotesString(StateEscape(f2))
      else StateQuotesString(AppendRune(f1, c))
  }

  /** The rune after a backslash inside double quotes: `n r t b a` stand for
      their control characters, any other rune for itself. */
  function StateEscape(f: Fsm): (g: Fsm)
    requires f.Valid()
    ensures g.Valid()
    ensures g == f.(currentPos := g.currentPos, lastScanWidth := g.lastScanWidth, token := g.token)
    ensures f.currentPos <= g.currentPos
  {
    var (r, f1) := Next(f);
    match r
    case None => f1
    case Some(c) =>
      if c == 'n' then AppendRune(f1, '\n')
      else if c == 'r' then AppendRune(f1, '\r')
      else if c == 't' then AppendRune(f1, '\t')
      else if c == 'b' then AppendRune(f1, '\U{8}')
      else if c == 'a' then AppendRune(f1, '\U{7}')
      else AppendRune(f1, c)
  }

  /** Inside single quotes: only `\'` is an escape. */
  function StateSQuotesString(f: Fsm): (g: Fsm)
    requires f.Valid() && f.err.None?
    ensures Finishes(f, g)
    decreases |f.input| - f.currentPos, 1
  {
    var (r, f1) := Next(f);
    match r
    case None => Failed(f1, ErrUnterminatedSingleQuotes)
    case Some(c) =>
      if c == SingleQuoteChar then
        var (n, f2) := Peek(f1);
        if n.Some? && !f2.IsSplit(n.value) then Failed(f2, ErrClosingQuote)
        else StateTokenEnd(f2)
      else if c == EscapeChar then
        var (n, f2) := Peek(f1);
        if n == Some(SingleQuoteChar) then StateSQuotesString(Next(AppendRune(f2, SingleQuoteChar)).1)
        else StateSQuotesString(f2)
      else StateSQuotesString(AppendRune(f1, c))
  }

  /* ---------------------------------------------------------------- */
  /* Parse                                                            */
  /* ---------------------------------------------------------------- */

  datatype ParseResult = ParseResult(tokens: seq<string>, err: Option<string>)

  /** The scanner with no token yet, positioned at the start of `line`. */
  function Start(line: string, splitCharacters: string): Fsm {
    Fsm([], splitCharacters, line, 0, 0, None, [])
  }

  /** Scans one line with a fresh scanner. */
  function Parse(line: string, splitCharacters: string): (r: ParseResult)
    ensures r.err.Some? ==> r.err.value in Errors
  {
    var g := PrepareScan(Start(line, splitCharacters));
    ParseResult(g.tokens, g.err)
  }
}
