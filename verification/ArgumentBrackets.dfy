/**
 What the state of the argument scanner means, told from the characters: which of them are
 quoted, how deep the brackets are, and where a comma separates two arguments.
 */
module ArgumentBrackets {
  import opened Wrappers
  import opened Text
  import opened ArgumentScanner

  // ----- Quotes -----

  /** No quote is open before position `i`. */
  predicate Unquoted(s: string, i: nat)
    requires i <= |s|
  {
    QuoteAfter(s[..i]).quote.None?
  }

  /** The number of backslashes right before position `i`, looking back to `from`. */
  function Backslashes(s: string, from: nat, i: nat): (r: nat)
    requires from <= i <= |s|
  {
    if from < i && s[i - 1] == '\\' then 1 + Backslashes(s, from, i - 1) else 0
  }

  /** A quote was opened at `j`, and its character does not occur unescaped from there to `i`. */
  ghost predicate QuotedFrom(s: string, j: nat, i: nat)
    requires i <= |s|
  {
    && j < i && s[j] in "'\"`" && Unquoted(s, j)
    && forall k :: j < k < i && s[k] == s[j] ==> Backslashes(s, j + 1, k) % 2 == 1
  }

  /** The quote that is open before `i`, and whether position `i` is escaped in it. */
  ghost predicate InQuote(s: string, i: nat, q: Quote)
    requires i <= |s|
  {
    if q.quote.None? then !q.escaped && forall j: nat :: !QuotedFrom(s, j, i)
    else exists j: nat ::
      QuotedFrom(s, j, i) && q.quote == Some(s[j]) && (q.escaped <==> Backslashes(s, j + 1, i) % 2 == 1)
  }

  lemma OneMoreQuoted(s: string, i: nat)
    requires i < |s|
    ensures QuoteAfter(s[..i + 1]) == NextQuote(QuoteAfter(s[..i]), s[i])
  {
    assert s[..i + 1][..i] == s[..i];
  }

  lemma StillQuoted(s: string, j: nat, i: nat)
    requires i < |s| && QuotedFrom(s, j, i)
    ensures QuotedFrom(s, j, i + 1) <==> (s[i] == s[j] ==> Backslashes(s, j + 1, i) % 2 == 1)
  {}

  lemma {:induction false} NothingEscapedOutside(s: string, i: nat)
    requires i <= |s| && Unquoted(s, i)
    ensures QuoteAfter(s[..i]) == UNQUOTED
  {
    if i > 0 {
      OneMoreQuoted(s, i - 1);
      if Unquoted(s, i - 1) {
        NothingEscapedOutside(s, i - 1);
      }
    }
  }

  lemma {:induction false} QuotedInside(s: string, j: nat, i: nat)
    requires i <= |s| && QuotedFrom(s, j, i)
    ensures QuoteAfter(s[..i]) == Quote(Some(s[j]), Backslashes(s, j + 1, i) % 2 == 1)
    decreases i
  {
    OneMoreQuoted(s, i - 1);
    if j < i - 1 {
      QuotedInside(s, j, i - 1);
    } else {
      NothingEscapedOutside(s, j);
    }
  }

  lemma {:induction false} QuoteWasOpened(s: string, i: nat) returns (j: nat)
    requires i <= |s| && !Unquoted(s, i)
    ensures QuotedFrom(s, j, i)
  {
    OneMoreQuoted(s, i - 1);
    if Unquoted(s, i - 1) {
      j := i - 1;
    } else {
      j := QuoteWasOpened(s, i - 1);
      QuotedInside(s, j, i - 1);
      StillQuoted(s, j, i - 1);
    }
  }

  /** The quote state says which quote is open and whether the next character is escaped. */
  lemma QuoteStateIsInQuote(s: string, i: nat)
    requires i <= |s|
    ensures InQuote(s, i, QuoteAfter(s[..i]))
  {
    forall j: nat | QuotedFrom(s, j, i) ensures !Unquoted(s, i) {
      QuotedInside(s, j, i);
    }
    if Unquoted(s, i) {
      NothingEscapedOutside(s, i);
    } else {
      var j := QuoteWasOpened(s, i);
      QuotedInside(s, j, i);
    }
  }

  // ----- Brackets -----

  datatype Kind = Paren | Bracket | Brace

  function Opener(kind: Kind): char {
    match kind
    case Paren => '('
    case Bracket => '['
    case Brace => '{'
  }

  function Closer(kind: Kind): char {
    match kind
    case Paren => ')'
    case Bracket => ']'
    case Brace => '}'
  }

  function Depth(l: Lex, kind: Kind): nat {
    match kind
    case Paren => l.paren
    case Bracket => l.bracket
    case Brace => l.brace
  }

  predicate Opens(s: string, kind: Kind, i: nat) {
    i < |s| && s[i] == Opener(kind) && Unquoted(s, i)
  }

  predicate Shuts(s: string, kind: Kind, i: nat) {
    i < |s| && s[i] == Closer(kind) && Unquoted(s, i)
  }

  /** Unquoted openers minus unquoted closers of one kind from position `from` to before `end`. */
  function Net(s: string, kind: Kind, from: nat, end: nat): int
    requires end <= |s|
  {
    if end <= from then 0
    else
      Net(s, kind, from, end - 1)
      + (if Opens(s, kind, end - 1) then 1 else if Shuts(s, kind, end - 1) then -1 else 0)
  }

  /** Every unquoted opener before `i` has its closer before `i`: what is between them balances. */
  ghost predicate AllClosed(s: string, kind: Kind, i: nat)
    requires i <= |s|
  {
    forall j: nat :: j < i && Opens(s, kind, j) ==> ClosedBefore(s, kind, j, i)
  }

  ghost predicate ClosedBefore(s: string, kind: Kind, j: nat, i: nat)
    requires i <= |s|
  {
    exists k: nat :: j < k < i && Shuts(s, kind, k) && Net(s, kind, j, k + 1) == 0
  }

  /** The scanner's depth is the largest surplus of openers up to here. */
  ghost predicate IsLargestNet(s: string, kind: Kind, i: nat, depth: int)
    requires i <= |s|
  {
    && (forall m: nat :: m <= i ==> Net(s, kind, m, i) <= depth)
    && exists m: nat :: m <= i && Net(s, kind, m, i) == depth
  }

  lemma NextDepth(s: string, kind: Kind, i: nat)
    requires i < |s|
    ensures var before, after := Depth(LexAfter(s[..i]), kind), Depth(LexAfter(s[..i + 1]), kind);
            after == if Opens(s, kind, i) then before + 1 else if Shuts(s, kind, i) then Drop(before) else before
  {
    OneMoreLex(s, i);
    SameQuotes(s[..i]);
  }

  lemma {:induction false} DepthIsLargestNet(s: string, kind: Kind, i: nat)
    requires i <= |s|
    ensures IsLargestNet(s, kind, i, Depth(LexAfter(s[..i]), kind))
  {
    if i == 0 {
      assert Net(s, kind, 0, 0) == 0;
    } else {
      var before := Depth(LexAfter(s[..i - 1]), kind);
      DepthIsLargestNet(s, kind, i - 1);
      NextDepth(s, kind, i - 1);
      var m: nat :| m <= i - 1 && Net(s, kind, m, i - 1) == before;
      assert Net(s, kind, i, i) == 0;
      assert Net(s, kind, m, i) == before + Net(s, kind, i - 1, i);
    }
  }

  lemma {:induction false} NetSplits(s: string, kind: Kind, from: nat, mid: nat, end: nat)
    requires from <= mid <= end <= |s|
    ensures Net(s, kind, from, end) == Net(s, kind, from, mid) + Net(s, kind, mid, end)
    decreases end
  {
    if mid < end {
      NetSplits(s, kind, from, mid, end - 1);
    }
  }

  /** An opener whose surplus is gone by `i` has its closer before `i`. */
  lemma {:induction false} SurplusGoneMeansClosed(s: string, kind: Kind, j: nat, i: nat)
    requires j < i <= |s| && Opens(s, kind, j) && Net(s, kind, j, i) <= 0
    ensures ClosedBefore(s, kind, j, i)
    decreases i
  {
    if Net(s, kind, j, i - 1) <= 0 && j < i - 1 {
      SurplusGoneMeansClosed(s, kind, j, i - 1);
    } else {
      assert Net(s, kind, j, j) == 0;
      assert Shuts(s, kind, i - 1) && Net(s, kind, j, (i - 1) + 1) == 0;
    }
  }

  lemma {:induction false} AllClosedMeansNoSurplus(s: string, kind: Kind, m: nat, i: nat)
    requires m <= i <= |s| && AllClosed(s, kind, i)
    ensures Net(s, kind, m, i) <= 0
    decreases i - m
  {
    if m < i {
      if Opens(s, kind, m) {
        assert ClosedBefore(s, kind, m, i);
        var k: nat :| m < k < i && Shuts(s, kind, k) && Net(s, kind, m, k + 1) == 0;
        AllClosedMeansNoSurplus(s, kind, k + 1, i);
        NetSplits(s, kind, m, k + 1, i);
      } else {
        AllClosedMeansNoSurplus(s, kind, m + 1, i);
        NetSplits(s, kind, m, m + 1, i);
      }
    }
  }

  /** A depth is zero exactly when every opener of its kind is closed. */
  lemma DepthIsZeroIffAllClosed(s: string, kind: Kind, i: nat)
    requires i <= |s|
    ensures Depth(LexAfter(s[..i]), kind) == 0 <==> AllClosed(s, kind, i)
  {
    DepthIsLargestNet(s, kind, i);
    if Depth(LexAfter(s[..i]), kind) == 0 {
      forall j: nat | j < i && Opens(s, kind, j) ensures ClosedBefore(s, kind, j, i) {
        SurplusGoneMeansClosed(s, kind, j, i);
      }
    }
    if AllClosed(s, kind, i) {
      var m: nat :| m <= i && Net(s, kind, m, i) == Depth(LexAfter(s[..i]), kind);
      AllClosedMeansNoSurplus(s, kind, m, i);
    }
  }

  /**
   A position separates two arguments exactly when it is a comma outside quotes before which
   every opener of each of the three kinds is closed.
   */
  lemma CommaSplitsIffAllClosed(s: string, i: int)
    ensures Separates(RawPieces(s), i) <==>
              && 0 <= i < |s| && s[i] == ',' && Unquoted(s, i)
              && forall kind :: AllClosed(s, kind, i)
  {
    CommaSplitsIffTopLevel(s, i);
    if 0 <= i < |s| {
      SameQuotes(s[..i]);
      var l := LexAfter(s[..i]);
      DepthIsZeroIffAllClosed(s, Paren, i);
      DepthIsZeroIffAllClosed(s, Bracket, i);
      DepthIsZeroIffAllClosed(s, Brace, i);
      assert Depth(l, Paren) == l.paren && Depth(l, Bracket) == l.bracket && Depth(l, Brace) == l.brace;
      if l.paren == l.bracket == l.brace == 0 {
        forall kind ensures AllClosed(s, kind, i) {
          match kind
          case Paren =>
          case Bracket =>
          case Brace =>
        }
      }
    }
  }

  /** The balance the search for the closing parenthesis keeps counts parentheses only. */
  lemma {:induction false} BalanceIsNet(s: string, i: nat)
    requires i <= |s|
    ensures Balance(s[..i]) == Net(s, Paren, 0, i)
  {
    if i > 0 {
      BalanceIsNet(s, i - 1);
      assert s[..i][..i - 1] == s[..i - 1];
    }
  }

  /** The arguments are the trimmed pieces; a last one that is blank is dropped. */
  lemma ArgumentsAreTrimmedPieces(s: string)
    ensures var raw, out := RawPieces(s), Arguments(RawPieces(s));
            var blank := forall c :: c in raw[|raw| - 1] ==> IsSpace(c);
            && |out| == (if blank then |raw| - 1 else |raw|)
            && forall i :: 0 <= i < |out| ==> out[i] == Trim(raw[i])
  {
    var raw := RawPieces(s);
    TrimIsEmptyIffBlank(raw[|raw| - 1]);
  }
}
