/** Placeholder parity: a translation must use exactly the `{name}` placeholders of its source. */
module Placeholders {
  import opened Text
  import opened OrderedMap

  /** `\w` of a regular expression. */
  predicate IsWord(c: char) {
    'a' <= c <= 'z' || 'A' <= c <= 'Z' || '0' <= c <= '9' || c == '_'
  }

  function WordEnd(s: string, i: nat): (j: nat)
    requires i <= |s|
    ensures i <= j <= |s|
    ensures forall k :: i <= k < j ==> IsWord(s[k])
    ensures j < |s| ==> !IsWord(s[j])
    decreases |s| - i
  {
    if i < |s| && IsWord(s[i]) then WordEnd(s, i + 1) else i
  }

  /** The matches of `/\{(\w+)\}/g` from position `i`, left to right without overlap. */
  function MatchAll(s: string, i: nat): seq<string>
    requires i <= |s|
    decreases |s| - i
  {
    if i == |s| then []
    else if s[i] != '{' then MatchAll(s, i + 1)
    else
      var j := WordEnd(s, i + 1);
      if j > i + 1 && j < |s| && s[j] == '}' then [s[i + 1..j]] + MatchAll(s, j + 1)
      else MatchAll(s, i + 1)
  }

  /** `{name}` stands at positions `i` to `j`. */
  predicate PlaceholderAt(s: string, i: int, j: int, name: string) {
    && 0 <= i && i + 1 < j < |s|
    && s[i] == '{' && s[j] == '}'
    && (forall k :: i < k < j ==> IsWord(s[k]))
    && s[i + 1..j] == name
  }

  ghost predicate Uses(s: string, name: string) {
    exists i, j :: PlaceholderAt(s, i, j, name)
  }

  lemma PlaceholderEndsTheWord(s: string, i: int, j: int, name: string)
    requires PlaceholderAt(s, i, j, name)
    ensures j == WordEnd(s, i + 1)
  {}

  /** Some placeholder `name` starts at `from` or later. */
  ghost predicate UsesFrom(s: string, from: nat, name: string) {
    exists i, j :: i >= from && PlaceholderAt(s, i, j, name)
  }

  /** Nothing starts at `from`, so looking from the next position is enough. */
  lemma SkipOne(s: string, from: nat, name: string)
    requires forall j :: !PlaceholderAt(s, from, j, name)
    ensures UsesFrom(s, from, name) <==> UsesFrom(s, from + 1, name)
  {}

  /** The placeholder at `from` to `e` is the only one that starts before `e`. */
  lemma SkipMatch(s: string, from: nat, e: nat, first: string, name: string)
    requires PlaceholderAt(s, from, e, first)
    ensures UsesFrom(s, from, name) <==> name == first || UsesFrom(s, e + 1, name)
  {
    if i, j :| i >= from && PlaceholderAt(s, i, j, name) {
      PlaceholderEndsTheWord(s, i, j, name);
      PlaceholderEndsTheWord(s, from, e, first);
      assert s[i] == '{' && !IsWord(s[i]);
    }
  }

  lemma {:induction false} MatchAllFindsFrom(s: string, from: nat, name: string)
    requires from <= |s|
    ensures name in MatchAll(s, from) <==> UsesFrom(s, from, name)
    decreases |s| - from
  {
    if from < |s| {
      var e := WordEnd(s, from + 1);
      if s[from] == '{' && e > from + 1 && e < |s| && s[e] == '}' {
        MatchAllFindsFrom(s, e + 1, name);
        SkipMatch(s, from, e, s[from + 1..e], name);
      } else {
        MatchAllFindsFrom(s, from + 1, name);
        forall j ensures !PlaceholderAt(s, from, j, name) {
          if PlaceholderAt(s, from, j, name) {
            PlaceholderEndsTheWord(s, from, j, name);
          }
        }
        SkipOne(s, from, name);
      }
    }
  }

  /** `extractTranslationPlaceholders`: the distinct names, sorted. */
  function Extract(text: string): seq<string> {
    SortUnique(MatchAll(text, 0))
  }

  ghost predicate SamePlaceholders(a: string, b: string) {
    forall name :: Uses(a, name) <==> Uses(b, name)
  }

  /** Comparing the sorted lists compares the sets of placeholders used. */
  lemma EqualListsIffSamePlaceholders(a: string, b: string)
    ensures Extract(a) == Extract(b) <==> SamePlaceholders(a, b)
  {
    SortUniqueComparesSets(MatchAll(a, 0), MatchAll(b, 0));
    forall name
      ensures name in MatchAll(a, 0) <==> Uses(a, name)
      ensures name in MatchAll(b, 0) <==> Uses(b, name)
    {
      MatchAllFindsFrom(a, 0, name);
      MatchAllFindsFrom(b, 0, name);
    }
  }

  datatype Mismatch = Mismatch(key: string, source: seq<string>, translated: seq<string>)

  function TextFor(translated: map<string, string>, key: string): string {
    if key in translated then translated[key] else ""
  }

  /** Every entry with the placeholders of its source and of its translation. */
  function Compared(source: Entries<string>, translated: map<string, string>): (r: seq<Mismatch>)
    ensures |r| == |source|
  {
    seq(|source|, i requires 0 <= i < |source| =>
      Mismatch(source[i].0, Extract(source[i].1), Extract(TextFor(translated, source[i].0))))
  }

  /** Those of the first `n` that differ, in order. */
  function Differing(compared: seq<Mismatch>, n: nat): seq<Mismatch>
    requires n <= |compared|
  {
    if n == 0 then []
    else
      var m := compared[n - 1];
      Differing(compared, n - 1) + (if m.source == m.translated then [] else [m])
  }

  lemma {:induction false} DifferingAre(compared: seq<Mismatch>, n: nat, m: Mismatch)
    requires n <= |compared|
    ensures m in Differing(compared, n) <==>
              exists i :: 0 <= i < n && compared[i].source != compared[i].translated && m == compared[i]
  {
    if n > 0 {
      DifferingAre(compared, n - 1, m);
    }
  }

  /** Does the translation of entry `i` use exactly its placeholders? */
  ghost predicate InParity(source: Entries<string>, translated: map<string, string>, i: nat)
    requires i < |source|
  {
    SamePlaceholders(source[i].1, TextFor(translated, source[i].0))
  }

  lemma ComparedIsParity(source: Entries<string>, translated: map<string, string>, i: nat)
    requires i < |source|
    ensures var m := Compared(source, translated)[i];
            m.source == m.translated <==> InParity(source, translated, i)
  {
    EqualListsIffSamePlaceholders(source[i].1, TextFor(translated, source[i].0));
  }

  function Mismatches(source: Entries<string>, translated: map<string, string>): seq<Mismatch> {
    Differing(Compared(source, translated), |source|)
  }

  /** The list names exactly the entries whose translation uses other placeholders. */
  lemma MismatchesAreExact(source: Entries<string>, translated: map<string, string>, m: Mismatch)
    ensures m in Mismatches(source, translated) <==>
              exists i :: 0 <= i < |source| && !InParity(source, translated, i) && m == Compared(source, translated)[i]
  {
    DifferingAre(Compared(source, translated), |source|, m);
    forall i | 0 <= i < |source|
      ensures var c := Compared(source, translated)[i];
              c.source == c.translated <==> InParity(source, translated, i)
    {
      ComparedIsParity(source, translated, i);
    }
  }

  lemma NoMismatchIffParity(source: Entries<string>, translated: map<string, string>)
    ensures Mismatches(source, translated) == [] <==>
              forall i :: 0 <= i < |source| ==> InParity(source, translated, i)
  {
    var list := Mismatches(source, translated);
    forall i | 0 <= i < |source| && !InParity(source, translated, i) ensures list != [] {
      MismatchesAreExact(source, translated, Compared(source, translated)[i]);
    }
    if list != [] {
      MismatchesAreExact(source, translated, list[0]);
    }
  }

  method FindPlaceholderMismatches(source: Entries<string>, translated: map<string, string>)
    returns (mismatches: seq<Mismatch>)
    ensures mismatches == Mismatches(source, translated)
  {
    mismatches := [];
    for i := 0 to |source|
      invariant mismatches == Differing(Compared(source, translated), i)
    {
      var (key, sourceText) := source[i];
      var sourcePlaceholders, translatedPlaceholders := Extract(sourceText), Extract(TextFor(translated, key));
      if sourcePlaceholders != translatedPlaceholders {
        mismatches := mismatches + [Mismatch(key, sourcePlaceholders, translatedPlaceholders)];
      }
    }
  }
}
