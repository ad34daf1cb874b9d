/**
 The quote-aware scanner of the temp-path guardrail: find the parenthesis that closes a
 call, and split the text in between at its top-level commas.
 */
module ArgumentScanner {
  import opened Wrappers
  import opened Text

  datatype Quote = Quote(quote: Option<char>, escaped: bool)

  const UNQUOTED := Quote(None, false)

  predicate IsQuoteChar(ch: char) {
    ch == '\'' || ch == '"' || ch == '`'
  }

  /** The quote state after one more character. */
  function NextQuote(q: Quote, ch: char): Quote {
    match q.quote
    case None => if IsQuoteChar(ch) then q.(quote := Some(ch)) else q
    case Some(open) =>
      if q.escaped then q.(escaped := false)
      else if ch == '\\' then q.(escaped := true)
      else if ch == open then q.(quote := None)
      else q
  }

  function QuoteAfter(s: string): Quote {
    if s == "" then UNQUOTED else NextQuote(QuoteAfter(s[..|s| - 1]), s[|s| - 1])
  }

  /** The mutable record the scanning helpers share. */
  class QuoteScanState {
    var quote: Option<char>
    var escaped: bool

    ghost function View(): Quote
      reads this
    {
      Quote(quote, escaped)
    }

    constructor ()
      ensures View() == UNQUOTED
    {
      quote, escaped := None, false;
    }

    method BeginQuotedSection(ch: char) returns (begun: bool)
      requires quote.None?
      modifies this
      ensures begun == IsQuoteChar(ch)
      ensures View() == NextQuote(old(View()), ch)
    {
      if ch != '\'' && ch != '"' && ch != '`' {
        return false;
      }
      quote := Some(ch);
      return true;
    }

    method ConsumeQuotedChar(ch: char) returns (consumed: bool)
      modifies this
      ensures consumed == old(quote).Some?
      ensures View() == if consumed then NextQuote(old(View()), ch) else old(View())
    {
      if quote.None? {
        return false;
      }
      if escaped {
        escaped := false;
        return true;
      }
      if ch == '\\' {
        escaped := true;
        return true;
      }
      if ch == quote.value {
        quote := None;
      }
      return true;
    }
  }

  // ----- The closing parenthesis -----

  /** Unquoted `(` minus unquoted `)`. */
  function Balance(s: string): int {
    if s == "" then 0
    else
      var before, ch := s[..|s| - 1], s[|s| - 1];
      Balance(before) + Weight(QuoteAfter(before), ch)
  }

  function Weight(before: Quote, ch: char): int {
    if before.quote.Some? then 0 else if ch == '(' then 1 else if ch == ')' then -1 else 0
  }

  lemma OneMoreScanned(source: string, from: nat, i: nat)
    requires from <= i < |source|
    ensures QuoteAfter(source[from..i + 1]) == NextQuote(QuoteAfter(source[from..i]), source[i])
    ensures Balance(source[from..i + 1]) == Balance(source[from..i]) + Weight(QuoteAfter(source[from..i]), source[i])
  {
    var next := source[from..i + 1];
    assert next[..|next| - 1] == source[from..i];
  }

  /** `i` holds an unquoted `)` and everything between `open` and `i` balances. */
  predicate Closes(source: string, open: nat, i: int)
    requires open < |source|
  {
    && open < i < |source|
    && source[i] == ')'
    && QuoteAfter(source[open + 1..i]).quote.None?
    && Balance(source[open + 1..i]) == 0
  }

  method FindMatchingParen(source: string, openIndex: nat) returns (r: int)
    requires openIndex < |source|
    ensures r != -1 ==> Closes(source, openIndex, r) && forall j :: openIndex < j < r ==> !Closes(source, openIndex, j)
    ensures r == -1 <==> forall j :: !Closes(source, openIndex, j)
  {
    var depth := 1;
    var quoteState := new QuoteScanState();
    for i := openIndex + 1 to |source|
      invariant fresh(quoteState)
      invariant quoteState.View() == QuoteAfter(source[openIndex + 1..i])
      invariant depth == 1 + Balance(source[openIndex + 1..i]) && depth >= 1
      invariant forall j :: openIndex < j < i ==> !Closes(source, openIndex, j)
    {
      var ch := source[i];
      OneMoreScanned(source, openIndex + 1, i);
      var consumed := quoteState.ConsumeQuotedChar(ch);
      if consumed {
        continue;
      }
      var begun := quoteState.BeginQuotedSection(ch);
      if begun {
        continue;
      }
      if ch == '(' {
        depth := depth + 1;
        continue;
      }
      if ch == ')' {
        depth := depth - 1;
        if depth == 0 {
          return i;
        }
      }
    }
    return -1;
  }

  // ----- Top-level commas -----

  datatype Lex = Lex(quote: Quote, paren: nat, bracket: nat, brace: nat)

  const TOP := Lex(UNQUOTED, 0, 0, 0)

  function Drop(depth: nat): nat {
    if depth > 0 then depth - 1 else 0
  }

  function NextLex(l: Lex, ch: char): Lex {
    var q := NextQuote(l.quote, ch);
    if l.quote.quote.Some? then l.(quote := q)
    else
      match ch
      case '(' => l.(paren := l.paren + 1)
      case ')' => l.(paren := Drop(l.paren))
      case '[' => l.(bracket := l.bracket + 1)
      case ']' => l.(bracket := Drop(l.bracket))
      case '{' => l.(brace := l.brace + 1)
      case '}' => l.(brace := Drop(l.brace))
      case _ => l.(quote := q)
  }

  function LexAfter(s: string): Lex {
    if s == "" then TOP else NextLex(LexAfter(s[..|s| - 1]), s[|s| - 1])
  }

  /** A comma outside quotes with all three depths at zero. */
  predicate TopLevelComma(s: string, i: int) {
    && 0 <= i < |s|
    && s[i] == ','
    && var l := LexAfter(s[..i]);
       l.quote.quote.None? && l.paren == 0 && l.bracket == 0 && l.brace == 0
  }

  /** The argument texts before trimming. */
  function RawPieces(s: string): (r: seq<string>)
    ensures |r| >= 1
  {
    if s == "" then [""]
    else
      var n := |s| - 1;
      var before := RawPieces(s[..n]);
      if TopLevelComma(s, n) then before + [""]
      else before[..|before| - 1] + [before[|before| - 1] + [s[n]]]
  }

  function AllButLast<T>(xs: seq<T>): seq<T>
    requires xs != []
  {
    xs[..|xs| - 1]
  }

  /** All pieces trimmed, a blank last one dropped. */
  function Arguments(raw: seq<string>): seq<string>
    requires |raw| >= 1
  {
    var last := Trim(raw[|raw| - 1]);
    TrimAll(AllButLast(raw)) + (if last == "" then [] else [last])
  }

  function Map<S, T>(f: S -> T, xs: seq<S>): seq<T> {
    seq(|xs|, i requires 0 <= i < |xs| => f(xs[i]))
  }

  lemma MapButLast<S, T>(f: S -> T, xs: seq<S>)
    requires xs != []
    ensures Map(f, xs) == Map(f, AllButLast(xs)) + [f(xs[|xs| - 1])]
  {}

  function TrimAll(raw: seq<string>): seq<string> {
    Map(Trim, raw)
  }

  /** The finished arguments and the piece still growing, after the first characters. */
  function Finished(s: string): seq<string> {
    TrimAll(AllButLast(RawPieces(s)))
  }

  function Current(s: string): string {
    var raw := RawPieces(s);
    raw[|raw| - 1]
  }

  datatype SplitState = SplitState(lex: Lex, current: string, out: seq<string>)

  /** The local state of the split after the first characters. */
  function SplitAfter(s: string): SplitState {
    SplitState(LexAfter(s), Current(s), Finished(s))
  }

  function NextSplit(st: SplitState, ch: char): SplitState {
    var Lex(q, paren, bracket, brace) := st.lex;
    var lex := NextLex(st.lex, ch);
    if ch == ',' && q.quote.None? && paren == 0 && bracket == 0 && brace == 0
    then SplitState(lex, "", st.out + [Trim(st.current)])
    else SplitState(lex, st.current + [ch], st.out)
  }

  lemma OneMoreLex(s: string, i: nat)
    requires i < |s|
    ensures LexAfter(s[..i + 1]) == NextLex(LexAfter(s[..i]), s[i])
    ensures TopLevelComma(s[..i + 1], i) <==> TopLevelComma(s, i)
  {
    assert s[..i + 1][..i] == s[..i];
  }

  lemma OneMoreRaw(s: string, i: nat)
    requires i < |s|
    ensures var before, next := RawPieces(s[..i]), RawPieces(s[..i + 1]);
            if TopLevelComma(s, i) then next == before + [""]
            else next == before[..|before| - 1] + [before[|before| - 1] + [s[i]]]
  {
    OneMoreLex(s, i);
    var next := s[..i + 1];
    assert next[..i] == s[..i] && next[i] == s[i];
  }

  /** A new piece finishes the last one; growing the last one leaves the finished ones alone. */
  lemma FinishedGrows<T>(f: string -> T, before: seq<string>, last: string)
    requires before != []
    ensures Map(f, AllButLast(before + [last])) == Map(f, AllButLast(before)) + [f(before[|before| - 1])]
    ensures Map(f, AllButLast(AllButLast(before) + [last])) == Map(f, AllButLast(before))
  {
    MapButLast(f, before);
    assert AllButLast(before + [last]) == before;
    assert AllButLast(AllButLast(before) + [last]) == AllButLast(before);
  }

  lemma OneMoreCharacter(s: string, i: nat)
    requires i < |s|
    ensures SplitAfter(s[..i + 1]) == NextSplit(SplitAfter(s[..i]), s[i])
  {
    OneMoreLex(s, i);
    OneMoreRaw(s, i);
    FinishedGrows(Trim, RawPieces(s[..i]), if TopLevelComma(s, i) then "" else Current(s[..i]) + [s[i]]);
  }

  /** Scanning on from position `i`. */
  function ScanOn(st: SplitState, s: string, i: nat): SplitState
    requires i <= |s|
    decreases |s| - i
  {
    if i == |s| then st else ScanOn(NextSplit(st, s[i]), s, i + 1)
  }

  lemma {:induction false} ScanOnFromPrefix(s: string, i: nat)
    requires i <= |s|
    ensures ScanOn(SplitAfter(s[..i]), s, i) == SplitAfter(s)
    decreases |s| - i
  {
    if i == |s| {
      assert s[..i] == s;
    } else {
      OneMoreCharacter(s, i);
      ScanOnFromPrefix(s, i + 1);
    }
  }

  const UNSPLIT := SplitState(TOP, "", [])

  lemma ScanOnFromStart(s: string)
    ensures ScanOn(UNSPLIT, s, 0) == SplitAfter(s)
  {
    ScanOnFromPrefix(s, 0);
    assert s[..0] == "" && RawPieces("") == [""];
  }

  /** The local variables of the split, and the body of its loop. */
  class ArgumentSplitter {
    const quoteState: QuoteScanState
    var parenDepth: nat
    var bracketDepth: nat
    var braceDepth: nat
    var current: string
    var out: seq<string>

    ghost function View(): SplitState
      reads this, quoteState
    {
      SplitState(Lex(quoteState.View(), parenDepth, bracketDepth, braceDepth), current, out)
    }

    constructor ()
      ensures fresh(quoteState) && View() == UNSPLIT
    {
      quoteState := new QuoteScanState();
      parenDepth, bracketDepth, braceDepth, current, out := 0, 0, 0, "", [];
    }

    method Take(ch: char)
      modifies this, quoteState
      ensures View() == NextSplit(old(View()), ch)
    {
      if quoteState.quote.Some? {
        current := current + [ch];
        var _ := quoteState.ConsumeQuotedChar(ch);
        return;
      }
      var begun := quoteState.BeginQuotedSection(ch);
      if begun {
        current := current + [ch];
        return;
      }
      if ch == '(' {
        parenDepth := parenDepth + 1;
        current := current + [ch];
        return;
      }
      if ch == ')' {
        if parenDepth > 0 {
          parenDepth := parenDepth - 1;
        }
        current := current + [ch];
        return;
      }
      if ch == '[' {
        bracketDepth := bracketDepth + 1;
        current := current + [ch];
        return;
      }
      if ch == ']' {
        if bracketDepth > 0 {
          bracketDepth := bracketDepth - 1;
        }
        current := current + [ch];
        return;
      }
      if ch == '{' {
        braceDepth := braceDepth + 1;
        current := current + [ch];
        return;
      }
      if ch == '}' {
        if braceDepth > 0 {
          braceDepth := braceDepth - 1;
        }
        current := current + [ch];
        return;
      }
      if ch == ',' && parenDepth == 0 && bracketDepth == 0 && braceDepth == 0 {
        out := out + [Trim(current)];
        current := "";
        return;
      }
      current := current + [ch];
    }
  }

  method SplitTopLevelArguments(source: string) returns (out: seq<string>)
    ensures out == Arguments(RawPieces(source))
  {
    var splitter := new ArgumentSplitter();
    for i := 0 to |source|
      invariant fresh(splitter) && fresh(splitter.quoteState)
      invariant ScanOn(splitter.View(), source, i) == ScanOn(UNSPLIT, source, 0)
    {
      splitter.Take(source[i]);
    }
    ScanOnFromStart(source);
    assert splitter.View() == SplitAfter(source);
    var last := Trim(splitter.current);
    out := if last != "" then splitter.out + [last] else splitter.out;
    FinishedAndLast(source);
  }

  lemma FinishedAndLast(s: string)
    ensures Arguments(RawPieces(s)) == Finished(s) + (if Trim(Current(s)) == "" then [] else [Trim(Current(s))])
  {}

  // ----- What the split means -----

  lemma {:induction false} JoinAppend(parts: seq<string>, last: string, sep: char)
    requires |parts| >= 1
    ensures Join(parts + [last], sep) == Join(parts, sep) + [sep] + last
  {
    if |parts| > 1 {
      JoinAppend(parts[1..], last, sep);
      assert (parts + [last])[1..] == parts[1..] + [last];
    } else {
      assert (parts + [last])[1..] == [last];
    }
  }

  lemma {:induction false} JoinExtendLast(parts: seq<string>, ch: char, sep: char)
    requires |parts| >= 1
    ensures Join(parts[..|parts| - 1] + [parts[|parts| - 1] + [ch]], sep) == Join(parts, sep) + [ch]
  {
    var n := |parts| - 1;
    var ext := parts[..n] + [parts[n] + [ch]];
    if n > 0 {
      JoinExtendLast(parts[1..], ch, sep);
      assert ext[1..] == parts[1..][..n - 1] + [parts[1..][n - 1] + [ch]];
    }
  }

  /** Round trip: the untrimmed pieces joined by commas are the source. */
  lemma {:induction false} PiecesJoinToSource(s: string)
    ensures Join(RawPieces(s), ',') == s
  {
    if s != "" {
      var n := |s| - 1;
      var before := RawPieces(s[..n]);
      PiecesJoinToSource(s[..n]);
      assert s == s[..n] + [s[n]];
      if TopLevelComma(s, n) {
        JoinAppend(before, "", ',');
      } else {
        JoinExtendLast(before, s[n], ',');
      }
    }
  }

  /** Where piece `k` ends when the pieces are joined by commas. */
  function PieceEnd(pieces: seq<string>, k: nat): nat
    requires k < |pieces|
  {
    |Join(pieces[..k + 1], ',')|
  }

  /** Position `i` separates two pieces: some piece but the last ends right before it. */
  ghost predicate Separates(pieces: seq<string>, i: int) {
    exists k :: 0 <= k < |pieces| - 1 && PieceEnd(pieces, k) == i
  }

  /** A comma splits exactly when it is outside quotes and all three depths are zero. */
  lemma {:induction false} CommaSplitsIffTopLevel(s: string, i: int)
    ensures Separates(RawPieces(s), i) <==> TopLevelComma(s, i)
  {
    if s != "" {
      var n := |s| - 1;
      var before, after := RawPieces(s[..n]), RawPieces(s);
      var m := |before|;
      CommaSplitsIffTopLevel(s[..n], i);
      PiecesJoinToSource(s[..n]);
      assert before[..m] == before;
      assert 0 <= i < n ==> s[..n][..i] == s[..i];
      forall k | 0 <= k < m - 1 ensures PieceEnd(after, k) == PieceEnd(before, k) {
        assert after[..k + 1] == before[..k + 1];
      }
      if TopLevelComma(s, n) {
        assert after[..m] == before;
        assert PieceEnd(after, m - 1) == n;
      }
    }
  }

  // ----- The two scanners agree -----

  lemma {:induction false} SameQuotes(s: string)
    ensures LexAfter(s).quote == QuoteAfter(s)
  {
    if s != "" {
      SameQuotes(s[..|s| - 1]);
    }
  }

  /** The clamp on the parenthesis depth would be needed at position `i` of `s`. */
  predicate ParenClampHit(s: string, i: int) {
    0 <= i < |s| && s[i] == ')' && LexAfter(s[..i]).quote.quote.None? && LexAfter(s[..i]).paren == 0
  }

  lemma {:induction false} DepthIsBalance(source: string, open: nat, close: int, n: nat)
    requires open < |source|
    requires Closes(source, open, close) && forall j :: open < j < close ==> !Closes(source, open, j)
    requires open + 1 + n <= close
    ensures LexAfter(source[open + 1..close][..n]).paren == Balance(source[open + 1..close][..n])
    ensures var args := source[open + 1..close]; forall i :: 0 <= i < n ==> !ParenClampHit(args, i)
  {
    var args := source[open + 1..close];
    if n > 0 {
      DepthIsBalance(source, open, close, n - 1);
      SameQuotes(args[..n - 1]);
      assert args[..n][..n - 1] == args[..n - 1];
      assert args[..n - 1] == source[open + 1..open + n];
      assert !Closes(source, open, open + n);
    }
  }

  /**
   On the slice `FindMatchingParen` delimits, `SplitTopLevelArguments` never needs its
   parenthesis clamp and ends with quotes closed and parenthesis depth zero.
   */
  lemma ScannersAgree(source: string, open: nat, close: int)
    requires open < |source|
    requires Closes(source, open, close) && forall j :: open < j < close ==> !Closes(source, open, j)
    ensures var args := source[open + 1..close];
            && LexAfter(args).quote.quote.None?
            && LexAfter(args).paren == 0
            && forall i :: !ParenClampHit(args, i)
  {
    var args := source[open + 1..close];
    assert args[..|args|] == args;
    DepthIsBalance(source, open, close, |args|);
    SameQuotes(args);
  }
}
