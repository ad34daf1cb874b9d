/**
 The dotted-path matcher of the policy coverage report: `**` stands for any run of
 segments, `*` for exactly one, every other segment for itself.
 */
module PathMatcher {
  import opened Text

  const DOT := '.'

  /**
   The declarative meaning of a pattern: cut the value at `cuts` so that the i-th
   pattern segment is responsible for `v[cuts[i]..cuts[i + 1]]`.
   */
  ghost predicate Alignment(p: seq<string>, v: seq<string>, cuts: seq<int>) {
    && |cuts| == |p| + 1
    && cuts[0] == 0
    && cuts[|p|] == |v|
    && (forall i :: 0 <= i < |p| ==> cuts[i] <= cuts[i + 1])
    && (forall i :: 0 <= i < |p| && p[i] != "**" ==>
          && cuts[i + 1] == cuts[i] + 1
          && 0 <= cuts[i] < |v|
          && (p[i] == "*" || p[i] == v[cuts[i]]))
  }

  ghost predicate Matches(p: seq<string>, v: seq<string>) {
    exists cuts :: Alignment(p, v, cuts)
  }

  lemma {:induction false} CutsAreMonotone(p: seq<string>, v: seq<string>, cuts: seq<int>, i: nat, j: nat)
    requires Alignment(p, v, cuts)
    requires i <= j <= |p|
    ensures cuts[i] <= cuts[j]
    decreases j - i
  {
    if i < j {
      CutsAreMonotone(p, v, cuts, i + 1, j);
    }
  }

  /** The point where an alignment of `p1 + p2` crosses from one pattern to the other. */
  lemma AlignmentSplits(p1: seq<string>, p2: seq<string>, v: seq<string>, cuts: seq<int>) returns (k: nat)
    requires Alignment(p1 + p2, v, cuts)
    ensures k <= |v| && Matches(p1, v[..k]) && Matches(p2, v[k..])
  {
    var p, n := p1 + p2, |p1|;
    CutsAreMonotone(p, v, cuts, 0, n);
    CutsAreMonotone(p, v, cuts, n, |p|);
    k := cuts[n];
    var c1 := cuts[..n + 1];
    var c2 := seq(|p2| + 1, i requires 0 <= i <= |p2| => cuts[n + i] - k);
    forall i | 0 <= i < n ensures c1[i] <= c1[i + 1] {
      assert cuts[i] <= cuts[i + 1];
    }
    forall i | 0 <= i < n && p1[i] != "**"
      ensures c1[i + 1] == c1[i] + 1 && 0 <= c1[i] < k && (p1[i] == "*" || p1[i] == v[..k][c1[i]])
    {
      assert p[i] == p1[i];
      CutsAreMonotone(p, v, cuts, i + 1, n);
    }
    forall i | 0 <= i < |p2| && p2[i] != "**"
      ensures c2[i + 1] == c2[i] + 1 && 0 <= c2[i] < |v| - k && (p2[i] == "*" || p2[i] == v[k..][c2[i]])
    {
      assert p[n + i] == p2[i];
      assert cuts[n + i + 1] == cuts[n + i] + 1;
      CutsAreMonotone(p, v, cuts, n, n + i);
    }
    forall i | 0 <= i < |p2| ensures c2[i] <= c2[i + 1] {
      assert cuts[n + i] <= cuts[n + i + 1];
    }
    assert Alignment(p1, v[..k], c1);
    assert Alignment(p2, v[k..], c2);
  }

  lemma AlignmentsJoin(p1: seq<string>, p2: seq<string>, v: seq<string>, k: nat, c1: seq<int>, c2: seq<int>)
    requires k <= |v| && Alignment(p1, v[..k], c1) && Alignment(p2, v[k..], c2)
    ensures Matches(p1 + p2, v)
  {
    var p, n := p1 + p2, |p1|;
    var cuts := seq(|p| + 1, i requires 0 <= i <= |p| => if i <= n then c1[i] else k + c2[i - n]);
    assert cuts[n] == k + c2[0];
    forall i | 0 <= i < |p| && p[i] != "**"
      ensures cuts[i + 1] == cuts[i] + 1 && 0 <= cuts[i] < |v| && (p[i] == "*" || p[i] == v[cuts[i]])
    {
      if i < n {
        assert p[i] == p1[i];
        assert v[..k][c1[i]] == v[c1[i]];
      } else {
        assert p[i] == p2[i - n];
        assert c2[i - n + 1] == c2[i - n] + 1;
        assert v[k..][c2[i - n]] == v[k + c2[i - n]];
      }
    }
    forall i | 0 <= i < |p| ensures cuts[i] <= cuts[i + 1] {
      if i >= n {
        assert c2[i - n] <= c2[i - n + 1];
      }
    }
    assert Alignment(p, v, cuts);
  }

  /** Matching is compositional: `p1` then `p2` matches `v` iff `v` splits accordingly. */
  lemma MatchingIsCompositional(p1: seq<string>, p2: seq<string>, v: seq<string>)
    ensures Matches(p1 + p2, v)
       <==> exists k :: 0 <= k <= |v| && Matches(p1, v[..k]) && Matches(p2, v[k..])
  {
    if Matches(p1 + p2, v) {
      var cuts :| Alignment(p1 + p2, v, cuts);
      var k := AlignmentSplits(p1, p2, v, cuts);
    }
    forall k | 0 <= k <= |v| && Matches(p1, v[..k]) && Matches(p2, v[k..])
      ensures Matches(p1 + p2, v)
    {
      var c1 :| Alignment(p1, v[..k], c1);
      var c2 :| Alignment(p2, v[k..], c2);
      AlignmentsJoin(p1, p2, v, k, c1, c2);
    }
  }

  /** What one pattern segment covers on its own. */
  lemma OneSegment(head: string, v: seq<string>)
    ensures Matches([head], v) <==> head == "**" || (|v| == 1 && (head == "*" || head == v[0]))
  {
    if Matches([head], v) {
      var cuts :| Alignment([head], v, cuts);
      assert [head][0] == head;
    }
    if head == "**" || (|v| == 1 && (head == "*" || head == v[0])) {
      assert Alignment([head], v, [0, |v|]);
    }
  }

  lemma EmptyPattern(v: seq<string>)
    ensures Matches([], v) <==> v == []
  {
    if v == [] {
      assert Alignment([], v, [0]);
    }
  }

  lemma HeadAndTail(p: seq<string>, v: seq<string>)
    requires p != []
    ensures p[0] == "**" ==> (Matches(p, v) <==> exists k :: 0 <= k <= |v| && Matches(p[1..], v[k..]))
    ensures p[0] != "**" ==>
              (Matches(p, v) <==> v != [] && (p[0] == "*" || p[0] == v[0]) && Matches(p[1..], v[1..]))
  {
    assert p == [p[0]] + p[1..];
    MatchingIsCompositional([p[0]], p[1..], v);
    forall k | 0 <= k <= |v|
      ensures Matches([p[0]], v[..k]) <==> p[0] == "**" || (k == 1 && (p[0] == "*" || p[0] == v[0]))
    {
      OneSegment(p[0], v[..k]);
    }
  }

  /** The recursive matcher decides the declarative meaning. */
  method MatchesParts(patternParts: seq<string>, valueParts: seq<string>) returns (r: bool)
    ensures r <==> Matches(patternParts, valueParts)
    decreases |patternParts|
  {
    if |patternParts| == 0 {
      EmptyPattern(valueParts);
      return |valueParts| == 0;
    }
    HeadAndTail(patternParts, valueParts);
    var head, tail := patternParts[0], patternParts[1..];
    if head == "**" {
      if |tail| == 0 {
        OneSegment(head, valueParts);
        assert patternParts == [head];
        return true;
      }
      for index := 0 to |valueParts| + 1
        invariant forall k :: 0 <= k < index ==> !Matches(tail, valueParts[k..])
      {
        var found := MatchesParts(tail, valueParts[index..]);
        if found {
          return true;
        }
      }
      return false;
    }
    if |valueParts| == 0 {
      return false;
    }
    if head != "*" && head != valueParts[0] {
      return false;
    }
    r := MatchesParts(tail, valueParts[1..]);
  }

  method PathMatchesPattern(pattern: string, value: string) returns (r: bool)
    ensures r <==> Matches(Split(pattern, DOT), Split(value, DOT))
  {
    r := MatchesParts(Split(pattern, DOT), Split(value, DOT));
  }

  method MatchesAny(patterns: seq<string>, value: string) returns (r: bool)
    ensures r <==> exists i :: 0 <= i < |patterns| && Matches(Split(patterns[i], DOT), Split(value, DOT))
  {
    for i := 0 to |patterns|
      invariant forall k :: 0 <= k < i ==> !Matches(Split(patterns[k], DOT), Split(value, DOT))
    {
      var found := PathMatchesPattern(patterns[i], value);
      if found {
        return true;
      }
    }
    return false;
  }

  /** Growing the first piece does not touch what follows it. */
  lemma GrowFirst(ch: char, t: seq<string>, u: seq<string>)
    requires t != []
    ensures [[ch] + (t + u)[0]] + (t + u)[1..] == ([[ch] + t[0]] + t[1..]) + u
  {}

  lemma {:induction false} SplitAtDot(a: string, b: string)
    ensures Split(a + [DOT] + b, DOT) == Split(a, DOT) + Split(b, DOT)
  {
    var s := a + [DOT] + b;
    if a == "" {
      assert s[1..] == b;
    } else {
      assert s[1..] == a[1..] + [DOT] + b;
      SplitAtDot(a[1..], b);
      GrowFirst(a[0], Split(a[1..], DOT), Split(b, DOT));
    }
  }

  /** On dotted text: the pattern `a.b` matches iff some dot boundary separates the two matches. */
  lemma DottedPatternsCompose(a: string, b: string, value: string)
    ensures Matches(Split(a + [DOT] + b, DOT), Split(value, DOT))
       <==> exists k :: 0 <= k <= |Split(value, DOT)|
                     && Matches(Split(a, DOT), Split(value, DOT)[..k])
                     && Matches(Split(b, DOT), Split(value, DOT)[k..])
  {
    SplitAtDot(a, b);
    MatchingIsCompositional(Split(a, DOT), Split(b, DOT), Split(value, DOT));
  }
}
