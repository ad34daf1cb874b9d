/**
 The protocol of translating one batch: failed prompts are tried again, and timeouts of
 several items are bisected. It depends on the provider only through the outcome of each
 prompt, which is any function of the items asked for and the number of the prompt.
 */
module Bisection {
  import opened Wrappers
  import opened TranslationBatches

  const TRANSLATE_MAX_ATTEMPTS: nat := 2

  datatype Outcome = Success(values: map<string, string>) | Timeout(error: string) | Broken(error: string) {
    function Error(): Option<string> {
      if Success? then None else Some(error)
    }
  }

  type Attempting = (seq<Item>, nat) -> Outcome

  /** One prompt: the split depth and the items it asks for. */
  datatype Prompt = Prompt(depth: nat, items: seq<Item>)

  /** What a call did: its result and the prompts it sent, in order. */
  datatype Trace = Trace(result: Result<map<string, string>, string>, prompts: seq<Prompt>)

  function Midpoint(items: seq<Item>): (m: nat)
    ensures m <= |items| && (|items| > 1 ==> 1 <= m < |items|)
  {
    (|items| + 1) / 2
  }

  function FirstHalf(items: seq<Item>): seq<Item> {
    items[0..Midpoint(items)]
  }

  function SecondHalf(items: seq<Item>): seq<Item> {
    items[Midpoint(items)..|items|]
  }

  function After(first: Prompt, rest: Trace): Trace {
    rest.(prompts := [first] + rest.prompts)
  }

  /**
   What prompting for the items must do with `tries` attempts left: a timeout of several
   items is split, a timeout of one is given up, any other failure is retried.
   */
  function Try(items: seq<Item>, depth: nat, outcome: Attempting, sent: nat, tries: nat): Trace
    requires |items| >= 1 && tries >= 1
    decreases |items|, 1, tries
  {
    var prompt := Prompt(depth, items);
    match outcome(items, sent)
    case Success(values) => Trace(Ok(values), [prompt])
    case Timeout(error) =>
      if |items| > 1 then After(prompt, Halves(items, depth, outcome, sent + 1)) else Trace(Err(error), [prompt])
    case Broken(error) =>
      if tries == 1 then Trace(Err(error), [prompt])
      else After(prompt, Try(items, depth, outcome, sent + 1, tries - 1))
  }

  /** The first half, and the second only if the first succeeds. */
  function Halves(items: seq<Item>, depth: nat, outcome: Attempting, sent: nat): Trace
    requires |items| > 1
    decreases |items|, 0, 0
  {
    var left := Run(FirstHalf(items), depth + 1, outcome, sent);
    if left.result.Err? then left
    else
      var right := Run(SecondHalf(items), depth + 1, outcome, sent + |left.prompts|);
      Trace(if right.result.Err? then right.result else Ok(left.result.value + right.result.value),
            left.prompts + right.prompts)
  }

  function Run(items: seq<Item>, depth: nat, outcome: Attempting, sent: nat): Trace
    requires |items| >= 1
    decreases |items|, 2, 0
  {
    Try(items, depth, outcome, sent, TRANSLATE_MAX_ATTEMPTS)
  }

  // ----- How many prompts, and how large -----

  /** At most `4n - 2` prompts: two for every segment the bisection can reach. */
  lemma {:induction false} PromptsAreFew(items: seq<Item>, depth: nat, outcome: Attempting, sent: nat, tries: nat)
    requires |items| >= 1 && tries >= 1
    ensures 1 <= |Try(items, depth, outcome, sent, tries).prompts| <= 4 * |items| - 4 + tries
    decreases |items|, tries
  {
    if |items| > 1 {
      HalvesAreFew(items, depth, outcome, sent + 1);
    }
    if tries > 1 {
      PromptsAreFew(items, depth, outcome, sent + 1, tries - 1);
    }
  }

  lemma {:induction false} HalvesAreFew(items: seq<Item>, depth: nat, outcome: Attempting, sent: nat)
    requires |items| > 1
    ensures 1 <= |Halves(items, depth, outcome, sent).prompts| <= 4 * |items| - 4
    decreases |items|, 0
  {
    var left := Run(FirstHalf(items), depth + 1, outcome, sent);
    PromptsAreFew(FirstHalf(items), depth + 1, outcome, sent, TRANSLATE_MAX_ATTEMPTS);
    PromptsAreFew(SecondHalf(items), depth + 1, outcome, sent + |left.prompts|, TRANSLATE_MAX_ATTEMPTS);
  }

  /** `n` halved `d` times, rounding up each time. */
  function HalvedUp(n: nat, d: nat): nat {
    if d == 0 then n else HalvedUp((n + 1) / 2, d - 1)
  }

  function Pow2(d: nat): nat {
    if d == 0 then 1 else 2 * Pow2(d - 1)
  }

  /** Halving and rounding up `d` times is `ceil(n / 2^d)`. */
  lemma {:induction false} HalvedUpIsCeiling(n: nat, d: nat)
    requires n >= 1
    ensures HalvedUp(n, d) >= 1
    ensures (HalvedUp(n, d) - 1) * Pow2(d) < n <= HalvedUp(n, d) * Pow2(d)
  {
    if d > 0 {
      var h, p := HalvedUp(n, d), Pow2(d - 1);
      HalvedUpIsCeiling((n + 1) / 2, d - 1);
      DoubleFactor(h, p);
      DoubleFactor(h - 1, p);
    }
  }

  lemma DoubleFactor(a: int, b: int)
    ensures a * (2 * b) == 2 * (a * b)
  {}

  lemma {:induction false} HalvedUpIsMonotone(m: nat, n: nat, d: nat)
    requires m <= n
    ensures HalvedUp(m, d) <= HalvedUp(n, d)
  {
    if d > 0 {
      HalvedUpIsMonotone((m + 1) / 2, (n + 1) / 2, d - 1);
    }
  }

  /** Every prompt at depth `d` below the start holds at most `ceil(n / 2^d)` keys. */
  ghost predicate SizesShrink(prompts: seq<Prompt>, depth: nat, n: nat) {
    forall i :: 0 <= i < |prompts| ==>
      prompts[i].depth >= depth && |prompts[i].items| <= HalvedUp(n, prompts[i].depth - depth)
  }

  lemma HalfSizesShrink(prompts: seq<Prompt>, depth: nat, half: nat, n: nat)
    requires half <= (n + 1) / 2 && SizesShrink(prompts, depth + 1, half)
    ensures SizesShrink(prompts, depth, n)
  {
    forall i | 0 <= i < |prompts|
      ensures prompts[i].depth >= depth && |prompts[i].items| <= HalvedUp(n, prompts[i].depth - depth)
    {
      HalvedUpIsMonotone(half, (n + 1) / 2, prompts[i].depth - (depth + 1));
    }
  }

  lemma {:induction false} PromptsShrink(items: seq<Item>, depth: nat, outcome: Attempting, sent: nat, tries: nat)
    requires |items| >= 1 && tries >= 1
    ensures SizesShrink(Try(items, depth, outcome, sent, tries).prompts, depth, |items|)
    decreases |items|, tries
  {
    assert HalvedUp(|items|, 0) == |items|;
    if |items| > 1 {
      HalvesShrink(items, depth, outcome, sent + 1);
    }
    if tries > 1 {
      PromptsShrink(items, depth, outcome, sent + 1, tries - 1);
    }
  }

  lemma {:induction false} HalvesShrink(items: seq<Item>, depth: nat, outcome: Attempting, sent: nat)
    requires |items| > 1
    ensures SizesShrink(Halves(items, depth, outcome, sent).prompts, depth, |items|)
    decreases |items|, 0
  {
    var left := Run(FirstHalf(items), depth + 1, outcome, sent);
    var right := Run(SecondHalf(items), depth + 1, outcome, sent + |left.prompts|);
    assert SizesShrink(left.prompts, depth, |items|) by {
      PromptsShrink(FirstHalf(items), depth + 1, outcome, sent, TRANSLATE_MAX_ATTEMPTS);
      HalfSizesShrink(left.prompts, depth, Midpoint(items), |items|);
    }
    assert SizesShrink(right.prompts, depth, |items|) by {
      PromptsShrink(SecondHalf(items), depth + 1, outcome, sent + |left.prompts|, TRANSLATE_MAX_ATTEMPTS);
      HalfSizesShrink(right.prompts, depth, |items| - Midpoint(items), |items|);
    }
  }

  /** Every first try is broken; a second one times out, or succeeds for a single item. */
  ghost predicate Stubborn(items: seq<Item>, outcome: Attempting, sent: nat)
    requires |items| >= 1
    decreases |items|
  {
    && outcome(items, sent).Broken?
    && if |items| == 1 then outcome(items, sent + 1).Success?
       else
         && outcome(items, sent + 1).Timeout?
         && Stubborn(FirstHalf(items), outcome, sent + 2)
         && Stubborn(SecondHalf(items), outcome, sent + 2 + (4 * Midpoint(items) - 2))
  }

  /** The bound is reached by stubborn outcomes. */
  lemma {:induction false} BoundIsReached(items: seq<Item>, depth: nat, outcome: Attempting, sent: nat)
    requires |items| >= 1 && Stubborn(items, outcome, sent)
    ensures |Run(items, depth, outcome, sent).prompts| == 4 * |items| - 2
    ensures Run(items, depth, outcome, sent).result.Ok?
    decreases |items|
  {
    var again := Try(items, depth, outcome, sent + 1, 1);
    assert Run(items, depth, outcome, sent) == After(Prompt(depth, items), again);
    if |items| > 1 {
      BoundIsReached(FirstHalf(items), depth + 1, outcome, sent + 2);
      BoundIsReached(SecondHalf(items), depth + 1, outcome, sent + 2 + (4 * Midpoint(items) - 2));
      assert again == After(Prompt(depth, items), Halves(items, depth, outcome, sent + 2));
    }
  }

  // ----- When it retries, splits and gives up -----

  function OutcomeAt(prompts: seq<Prompt>, i: nat, outcome: Attempting, sent: nat): Outcome
    requires i < |prompts|
  {
    outcome(prompts[i].items, sent + i)
  }

  /** The same prompt failed just before. */
  predicate SecondTry(prompts: seq<Prompt>, i: nat, outcome: Attempting, sent: nat)
    requires i < |prompts|
  {
    i > 0 && prompts[i - 1] == prompts[i] && !OutcomeAt(prompts, i - 1, outcome, sent).Success?
  }

  /**
   What follows prompt `i`: a timeout of several items is followed by its first half, any
   other failure that is not a timeout is tried a second time.
   */
  predicate Followed(prompts: seq<Prompt>, i: nat, outcome: Attempting, sent: nat)
    requires i < |prompts|
  {
    match OutcomeAt(prompts, i, outcome, sent)
    case Success(_) => true
    case Timeout(_) =>
      |prompts[i].items| > 1 ==>
        i + 1 < |prompts| && prompts[i + 1] == Prompt(prompts[i].depth + 1, FirstHalf(prompts[i].items))
    case Broken(_) =>
      SecondTry(prompts, i, outcome, sent) || (i + 1 < |prompts| && prompts[i + 1] == prompts[i])
  }

  ghost predicate AllFollowed(prompts: seq<Prompt>, outcome: Attempting, sent: nat) {
    forall i :: 0 <= i < |prompts| ==> Followed(prompts, i, outcome, sent)
  }

  function ErrorOf<V>(result: Result<V, string>): Option<string> {
    if result.Err? then Some(result.error) else None
  }

  /** A failed call ends with the prompt that failed last; a successful one with a success. */
  ghost predicate EndsWithOutcome(t: Trace, outcome: Attempting, sent: nat) {
    t.prompts != [] && OutcomeAt(t.prompts, |t.prompts| - 1, outcome, sent).Error() == ErrorOf(t.result)
  }

  /** What follows a prompt does not depend on what came long before. */
  lemma ShiftFollowed(before: seq<Prompt>, prompts: seq<Prompt>, i: nat, outcome: Attempting, sent: nat)
    requires i < |prompts| && Followed(prompts, i, outcome, sent + |before|)
    ensures Followed(before + prompts, |before| + i, outcome, sent)
  {
    var all := before + prompts;
    assert all[|before| + i] == prompts[i];
    assert i + 1 < |prompts| ==> all[|before| + i + 1] == prompts[i + 1];
    assert i > 0 ==> all[|before| + i - 1] == prompts[i - 1];
  }

  lemma JoinFollowed(a: seq<Prompt>, b: seq<Prompt>, outcome: Attempting, sent: nat)
    requires forall i :: 0 <= i < |a| ==> Followed(a + b, i, outcome, sent)
    requires AllFollowed(b, outcome, sent + |a|)
    ensures AllFollowed(a + b, outcome, sent)
  {
    forall i | |a| <= i < |a + b| ensures Followed(a + b, i, outcome, sent) {
      ShiftFollowed(a, b, i - |a|, outcome, sent);
    }
  }

  lemma JoinEnd(a: seq<Prompt>, t: Trace, outcome: Attempting, sent: nat)
    requires EndsWithOutcome(t, outcome, sent + |a|)
    ensures EndsWithOutcome(t.(prompts := a + t.prompts), outcome, sent)
  {
    var n := |t.prompts| - 1;
    assert (a + t.prompts)[|a| + n] == t.prompts[n];
    assert sent + |a| + n == sent + (|a| + n);
  }

  /** Everything the order of the prompts and the outcome have to do with the replies. */
  ghost predicate Obeys(t: Trace, first: Prompt, outcome: Attempting, sent: nat) {
    AllFollowed(t.prompts, outcome, sent) && EndsWithOutcome(t, outcome, sent) && t.prompts[0] == first
  }

  /** Prompting again after the first failures of one segment, and then in halves. */
  lemma SplitObeys(attempts: seq<Prompt>, t: Trace, p: Prompt, outcome: Attempting, sent: nat)
    requires |p.items| > 1
    requires Obeys(t, Prompt(p.depth + 1, FirstHalf(p.items)), outcome, sent + |attempts|)
    requires (attempts == [p] && outcome(p.items, sent).Timeout?)
          || (attempts == [p, p] && outcome(p.items, sent).Broken? && outcome(p.items, sent + 1).Timeout?)
    ensures Obeys(t.(prompts := attempts + t.prompts), p, outcome, sent)
  {
    var all := attempts + t.prompts;
    assert all[|attempts|] == t.prompts[0];
    forall i | 0 <= i < |attempts| ensures Followed(all, i, outcome, sent) {
      assert all[i] == p;
      if i + 1 < |attempts| {
        assert all[i + 1] == p;
      }
    }
    JoinFollowed(attempts, t.prompts, outcome, sent);
    JoinEnd(attempts, t, outcome, sent);
  }

  /** Two tries of one segment without a split. */
  lemma TwoTriesObey(t: Trace, p: Prompt, outcome: Attempting, sent: nat)
    requires t.prompts == [p, p]
    requires outcome(p.items, sent).Broken? && outcome(p.items, sent + 1).Error() == ErrorOf(t.result)
    requires outcome(p.items, sent + 1).Timeout? ==> |p.items| <= 1
    ensures Obeys(t, p, outcome, sent)
  {
    assert Followed(t.prompts, 0, outcome, sent);
    assert SecondTry(t.prompts, 1, outcome, sent);
    assert Followed(t.prompts, 1, outcome, sent);
  }

  lemma {:induction false} RunObeys(items: seq<Item>, depth: nat, outcome: Attempting, sent: nat)
    requires |items| >= 1
    ensures Obeys(Run(items, depth, outcome, sent), Prompt(depth, items), outcome, sent)
    decreases |items|, 1
  {
    var p, t, again := Prompt(depth, items), Run(items, depth, outcome, sent), Try(items, depth, outcome, sent + 1, 1);
    assert t == Try(items, depth, outcome, sent, 2);
    match outcome(items, sent)
    case Success(_) => assert Followed(t.prompts, 0, outcome, sent);
    case Timeout(_) =>
      if |items| > 1 {
        HalvesObey(items, depth, outcome, sent + 1);
        SplitObeys([p], Halves(items, depth, outcome, sent + 1), p, outcome, sent);
      } else {
        assert Followed(t.prompts, 0, outcome, sent);
      }
    case Broken(_) =>
      assert t == After(p, again);
      if outcome(items, sent + 1).Timeout? && |items| > 1 {
        HalvesObey(items, depth, outcome, sent + 2);
        var halves := Halves(items, depth, outcome, sent + 2);
        SplitObeys([p, p], halves, p, outcome, sent);
        assert t.prompts == [p, p] + halves.prompts;
      } else {
        TwoTriesObey(t, p, outcome, sent);
      }
  }

  lemma {:induction false} HalvesObey(items: seq<Item>, depth: nat, outcome: Attempting, sent: nat)
    requires |items| > 1
    ensures Obeys(Halves(items, depth, outcome, sent), Prompt(depth + 1, FirstHalf(items)), outcome, sent)
    decreases |items|, 0
  {
    var left := Run(FirstHalf(items), depth + 1, outcome, sent);
    RunObeys(FirstHalf(items), depth + 1, outcome, sent);
    if left.result.Ok? {
      var right := Run(SecondHalf(items), depth + 1, outcome, sent + |left.prompts|);
      RunObeys(SecondHalf(items), depth + 1, outcome, sent + |left.prompts|);
      forall i | 0 <= i < |left.prompts| ensures Followed(left.prompts + right.prompts, i, outcome, sent) {
        ExtendFollowed(left.prompts, right.prompts, i, outcome, sent);
      }
      JoinFollowed(left.prompts, right.prompts, outcome, sent);
      JoinEnd(left.prompts, right, outcome, sent);
    }
  }

  lemma ExtendFollowed(prompts: seq<Prompt>, after: seq<Prompt>, i: nat, outcome: Attempting, sent: nat)
    requires i < |prompts| && Followed(prompts, i, outcome, sent)
    ensures Followed(prompts + after, i, outcome, sent)
  {
    var all := prompts + after;
    assert all[i] == prompts[i];
    assert i + 1 < |prompts| ==> all[i + 1] == prompts[i + 1];
    assert i > 0 ==> all[i - 1] == prompts[i - 1];
  }

  /** Where the last prompt leaves the call. */
  ghost predicate GivesUpRightly(t: Trace, outcome: Attempting, sent: nat) {
    && EndsWithOutcome(t, outcome, sent)
    && var last := |t.prompts| - 1;
       match OutcomeAt(t.prompts, last, outcome, sent)
       case Success(_) => t.result.Ok?
       case Timeout(_) => |t.prompts[last].items| == 1
       case Broken(_) => SecondTry(t.prompts, last, outcome, sent)
  }

  /**
   When a batch is given up: its last prompt timed out on a single item, or failed otherwise
   for the second time in a row. So a timeout of several items is never given up unsplit.
   */
  lemma WhenItGivesUp(items: seq<Item>, depth: nat, outcome: Attempting, sent: nat)
    requires |items| >= 1
    ensures GivesUpRightly(Run(items, depth, outcome, sent), outcome, sent)
  {
    RunObeys(items, depth, outcome, sent);
    PromptsHoldItems(items, depth, outcome, sent, TRANSLATE_MAX_ATTEMPTS);
    var t := Run(items, depth, outcome, sent);
    assert Followed(t.prompts, |t.prompts| - 1, outcome, sent);
    assert Part(t.prompts[|t.prompts| - 1].items, items);
  }

  /** No prompt is empty, and each asks for consecutive items of the batch. */
  lemma {:induction false} PromptsHoldItems(items: seq<Item>, depth: nat, outcome: Attempting, sent: nat, tries: nat)
    requires |items| >= 1 && tries >= 1
    ensures HoldItems(Try(items, depth, outcome, sent, tries).prompts, items)
    decreases |items|, tries
  {
    assert Part(items, items) by {
      assert items[0..|items|] == items;
    }
    if |items| > 1 {
      HalvesHoldItems(items, depth, outcome, sent + 1);
    }
    if tries > 1 {
      PromptsHoldItems(items, depth, outcome, sent + 1, tries - 1);
    }
  }

  ghost predicate HoldItems(prompts: seq<Prompt>, items: seq<Item>) {
    forall i :: 0 <= i < |prompts| ==> Part(prompts[i].items, items)
  }

  /** A non-empty stretch of the items. */
  ghost predicate Part(part: seq<Item>, items: seq<Item>) {
    part != [] && exists lo, hi :: 0 <= lo <= hi <= |items| && part == items[lo..hi]
  }

  lemma PartOfStretch(part: seq<Item>, items: seq<Item>, from: nat, to: nat)
    requires from <= to <= |items| && Part(part, items[from..to])
    ensures Part(part, items)
  {
    var stretch := items[from..to];
    var lo, hi :| 0 <= lo <= hi <= |stretch| && part == stretch[lo..hi];
    forall k | 0 <= k < hi - lo ensures stretch[lo..hi][k] == items[from + lo..from + hi][k] {
      assert stretch[lo + k] == items[from + lo + k];
    }
    assert part == items[from + lo..from + hi];
  }

  lemma {:induction false} HalvesHoldItems(items: seq<Item>, depth: nat, outcome: Attempting, sent: nat)
    requires |items| > 1
    ensures HoldItems(Halves(items, depth, outcome, sent).prompts, items)
    decreases |items|, 0
  {
    var left := Run(FirstHalf(items), depth + 1, outcome, sent);
    var right := Run(SecondHalf(items), depth + 1, outcome, sent + |left.prompts|);
    PromptsHoldItems(FirstHalf(items), depth + 1, outcome, sent, TRANSLATE_MAX_ATTEMPTS);
    PromptsHoldItems(SecondHalf(items), depth + 1, outcome, sent + |left.prompts|, TRANSLATE_MAX_ATTEMPTS);
    forall i | 0 <= i < |left.prompts| ensures Part(left.prompts[i].items, items) {
      PartOfStretch(left.prompts[i].items, items, 0, Midpoint(items));
    }
    forall i | 0 <= i < |right.prompts| ensures Part(right.prompts[i].items, items) {
      PartOfStretch(right.prompts[i].items, items, Midpoint(items), |items|);
    }
  }

  // ----- What succeeds -----

  /** The two halves of a split are the batch, and the first has the odd item. */
  lemma HalvesShareItems(items: seq<Item>)
    requires |items| > 1
    ensures FirstHalf(items) + SecondHalf(items) == items
    ensures |SecondHalf(items)| <= |FirstHalf(items)| <= |SecondHalf(items)| + 1
  {}

  predicate Succeeds(prompts: seq<Prompt>, j: nat, outcome: Attempting, sent: nat)
    requires j < |prompts|
  {
    OutcomeAt(prompts, j, outcome, sent).Success?
  }

  /** The items of the first `n` prompts that succeeded, in order. */
  function Translated(prompts: seq<Prompt>, n: nat, outcome: Attempting, sent: nat): seq<Item>
    requires n <= |prompts|
  {
    if n == 0 then []
    else if Succeeds(prompts, n - 1, outcome, sent)
    then Translated(prompts, n - 1, outcome, sent) + prompts[n - 1].items
    else Translated(prompts, n - 1, outcome, sent)
  }

  lemma {:induction false} TranslatedJoin(a: seq<Prompt>, b: seq<Prompt>, n: nat, outcome: Attempting, sent: nat)
    requires n <= |b|
    ensures Translated(a + b, |a| + n, outcome, sent)
         == Translated(a, |a|, outcome, sent) + Translated(b, n, outcome, sent + |a|)
  {
    if n == 0 {
      TranslatedPrefix(a, b, |a|, outcome, sent);
    } else {
      TranslatedJoin(a, b, n - 1, outcome, sent);
      assert (a + b)[|a| + n - 1] == b[n - 1];
    }
  }

  lemma {:induction false} TranslatedPrefix(a: seq<Prompt>, b: seq<Prompt>, n: nat, outcome: Attempting, sent: nat)
    requires n <= |a|
    ensures Translated(a + b, n, outcome, sent) == Translated(a, n, outcome, sent)
  {
    if n > 0 {
      TranslatedPrefix(a, b, n - 1, outcome, sent);
      assert (a + b)[n - 1] == a[n - 1];
    }
  }

  /** A call translates its items from left to right: all of them, or those before it gave up. */
  ghost predicate LeftToRight(t: Trace, items: seq<Item>, outcome: Attempting, sent: nat) {
    var done := Translated(t.prompts, |t.prompts|, outcome, sent);
    done <= items && (t.result.Ok? <==> done == items)
  }

  lemma AfterFailureLeftToRight(p: Prompt, rest: Trace, items: seq<Item>, outcome: Attempting, sent: nat)
    requires !outcome(p.items, sent).Success? && LeftToRight(rest, items, outcome, sent + 1)
    ensures LeftToRight(After(p, rest), items, outcome, sent)
  {
    TranslatedJoin([p], rest.prompts, |rest.prompts|, outcome, sent);
    assert Translated([p], 1, outcome, sent) == [];
  }

  lemma {:induction false} TranslatesLeftToRight(items: seq<Item>, depth: nat, outcome: Attempting, sent: nat,
                                                 tries: nat)
    requires |items| >= 1 && tries >= 1
    ensures LeftToRight(Try(items, depth, outcome, sent, tries), items, outcome, sent)
    decreases |items|, tries
  {
    var p := Prompt(depth, items);
    assert Translated([p], 1, outcome, sent) == if outcome(items, sent).Success? then items else [] by {
      assert Translated([p], 0, outcome, sent) == [];
    }
    match outcome(items, sent)
    case Success(_) =>
    case Timeout(_) =>
      if |items| > 1 {
        HalvesLeftToRight(items, depth, outcome, sent + 1);
        AfterFailureLeftToRight(p, Halves(items, depth, outcome, sent + 1), items, outcome, sent);
      }
    case Broken(_) =>
      if tries > 1 {
        TranslatesLeftToRight(items, depth, outcome, sent + 1, tries - 1);
        AfterFailureLeftToRight(p, Try(items, depth, outcome, sent + 1, tries - 1), items, outcome, sent);
      }
  }

  lemma {:induction false} HalvesLeftToRight(items: seq<Item>, depth: nat, outcome: Attempting, sent: nat)
    requires |items| > 1
    ensures LeftToRight(Halves(items, depth, outcome, sent), items, outcome, sent)
    decreases |items|, 0
  {
    var left := Run(FirstHalf(items), depth + 1, outcome, sent);
    var mid := sent + |left.prompts|;
    var right := Run(SecondHalf(items), depth + 1, outcome, mid);
    TranslatesLeftToRight(FirstHalf(items), depth + 1, outcome, sent, TRANSLATE_MAX_ATTEMPTS);
    TranslatesLeftToRight(SecondHalf(items), depth + 1, outcome, mid, TRANSLATE_MAX_ATTEMPTS);
    HalvesShareItems(items);
    if left.result.Ok? {
      JoinLeftToRight(left, right, FirstHalf(items), SecondHalf(items), outcome, sent);
      assert Halves(items, depth, outcome, sent) == AndThen(left, right);
    } else {
      ShorterPrefix(FirstHalf(items), SecondHalf(items), Translated(left.prompts, |left.prompts|, outcome, sent));
    }
  }

  lemma JoinLeftToRight(a: Trace, b: Trace, items: seq<Item>, more: seq<Item>, outcome: Attempting, sent: nat)
    requires a.result.Ok? && LeftToRight(a, items, outcome, sent) && LeftToRight(b, more, outcome, sent + |a.prompts|)
    ensures LeftToRight(AndThen(a, b), items + more, outcome, sent)
  {
    TranslatedJoin(a.prompts, b.prompts, |b.prompts|, outcome, sent);
    JoinedPrefix(items, more, Translated(b.prompts, |b.prompts|, outcome, sent + |a.prompts|));
  }

  lemma JoinedPrefix(a: seq<Item>, b: seq<Item>, y: seq<Item>)
    requires y <= b
    ensures a + y <= a + b && (a + y == a + b <==> y == b)
  {}

  lemma ShorterPrefix(a: seq<Item>, b: seq<Item>, x: seq<Item>)
    requires x <= a && b != []
    ensures x <= a + b && x != a + b
  {}

  predicate Gives(prompts: seq<Prompt>, j: nat, outcome: Attempting, sent: nat, key: string) {
    j < |prompts| && Succeeds(prompts, j, outcome, sent) && key in OutcomeAt(prompts, j, outcome, sent).values
  }

  /** Prompt `j` is the last to give this value. */
  ghost predicate GivesLast(prompts: seq<Prompt>, j: nat, outcome: Attempting, sent: nat, key: string, value: string) {
    && Gives(prompts, j, outcome, sent, key) && OutcomeAt(prompts, j, outcome, sent).values[key] == value
    && forall m :: j < m < |prompts| ==> !Gives(prompts, m, outcome, sent, key)
  }

  /** The values are exactly those the successful prompts gave; the last one counts. */
  ghost predicate GivenByPrompts(values: map<string, string>, prompts: seq<Prompt>, outcome: Attempting, sent: nat) {
    && (forall k :: k in values ==> exists j: nat :: GivesLast(prompts, j, outcome, sent, k, values[k]))
    && (forall k :: k !in values ==> NoneGives(prompts, outcome, sent, k))
  }

  lemma GivesJoined(a: seq<Prompt>, b: seq<Prompt>, j: nat, outcome: Attempting, sent: nat, key: string)
    ensures Gives(a + b, j, outcome, sent, key)
       <==> if j < |a| then Gives(a, j, outcome, sent, key) else Gives(b, j - |a|, outcome, sent + |a|, key)
  {
    if j < |a| {
      assert (a + b)[j] == a[j];
    } else if j < |a| + |b| {
      assert (a + b)[j] == b[j - |a|];
    }
  }

  lemma GivesLastOfSecond(a: seq<Prompt>, b: seq<Prompt>, j: nat, outcome: Attempting, sent: nat, key: string,
                          value: string)
    requires GivesLast(b, j, outcome, sent + |a|, key, value)
    ensures GivesLast(a + b, |a| + j, outcome, sent, key, value)
  {
    assert (a + b)[|a| + j] == b[j] && sent + |a| + j == sent + (|a| + j);
    forall m | |a| + j <= m < |a| + |b| ensures Gives(a + b, m, outcome, sent, key) <==> m == |a| + j {
      GivesJoined(a, b, m, outcome, sent, key);
    }
  }

  ghost predicate NoneGives(prompts: seq<Prompt>, outcome: Attempting, sent: nat, key: string) {
    forall j: nat :: !Gives(prompts, j, outcome, sent, key)
  }

  lemma GivesLastOfFirst(a: seq<Prompt>, b: seq<Prompt>, j: nat, outcome: Attempting, sent: nat, key: string,
                         value: string)
    requires GivesLast(a, j, outcome, sent, key, value)
    requires NoneGives(b, outcome, sent + |a|, key)
    ensures GivesLast(a + b, j, outcome, sent, key, value)
  {
    assert (a + b)[j] == a[j];
    forall m | j <= m < |a| + |b| ensures Gives(a + b, m, outcome, sent, key) <==> m == j {
      GivesJoined(a, b, m, outcome, sent, key);
    }
  }

  lemma JoinGiven(l: map<string, string>, a: seq<Prompt>, r: map<string, string>, b: seq<Prompt>,
                  outcome: Attempting, sent: nat)
    requires GivenByPrompts(l, a, outcome, sent) && GivenByPrompts(r, b, outcome, sent + |a|)
    ensures GivenByPrompts(l + r, a + b, outcome, sent)
  {
    forall k | k in l + r ensures exists j: nat :: GivesLast(a + b, j, outcome, sent, k, (l + r)[k]) {
      if k in r {
        var j: nat :| GivesLast(b, j, outcome, sent + |a|, k, r[k]);
        GivesLastOfSecond(a, b, j, outcome, sent, k, r[k]);
        assert GivesLast(a + b, |a| + j, outcome, sent, k, (l + r)[k]);
      } else {
        var j: nat :| GivesLast(a, j, outcome, sent, k, l[k]);
        GivesLastOfFirst(a, b, j, outcome, sent, k, l[k]);
        assert GivesLast(a + b, j, outcome, sent, k, (l + r)[k]);
      }
    }
    forall k, j: nat | k !in l + r ensures !Gives(a + b, j, outcome, sent, k) {
      assert NoneGives(a, outcome, sent, k) && NoneGives(b, outcome, sent + |a|, k);
      GivesJoined(a, b, j, outcome, sent, k);
    }
  }

  lemma OnePromptGives(p: Prompt, outcome: Attempting, sent: nat)
    ensures var o := outcome(p.items, sent);
            GivenByPrompts(if o.Success? then o.values else map[], [p], outcome, sent)
  {
    var o := outcome(p.items, sent);
    if o.Success? {
      forall k | k in o.values ensures GivesLast([p], 0, outcome, sent, k, o.values[k]) {}
    }
  }

  lemma AfterFailureGiven(p: Prompt, rest: Trace, outcome: Attempting, sent: nat)
    requires !outcome(p.items, sent).Success? && rest.result.Ok?
    requires GivenByPrompts(rest.result.value, rest.prompts, outcome, sent + 1)
    ensures GivenByPrompts(rest.result.value, After(p, rest).prompts, outcome, sent)
  {
    OnePromptGives(p, outcome, sent);
    JoinGiven(map[], [p], rest.result.value, rest.prompts, outcome, sent);
    assert map[] + rest.result.value == rest.result.value;
  }

  lemma {:induction false} ValuesAreGiven(items: seq<Item>, depth: nat, outcome: Attempting, sent: nat, tries: nat)
    requires |items| >= 1 && tries >= 1
    ensures var t := Try(items, depth, outcome, sent, tries);
            t.result.Ok? ==> GivenByPrompts(t.result.value, t.prompts, outcome, sent)
    decreases |items|, tries
  {
    var p := Prompt(depth, items);
    match outcome(items, sent)
    case Success(_) => OnePromptGives(p, outcome, sent);
    case Timeout(_) =>
      if |items| > 1 && Halves(items, depth, outcome, sent + 1).result.Ok? {
        HalvesAreGiven(items, depth, outcome, sent + 1);
        AfterFailureGiven(p, Halves(items, depth, outcome, sent + 1), outcome, sent);
      }
    case Broken(_) =>
      if tries > 1 && Try(items, depth, outcome, sent + 1, tries - 1).result.Ok? {
        ValuesAreGiven(items, depth, outcome, sent + 1, tries - 1);
        AfterFailureGiven(p, Try(items, depth, outcome, sent + 1, tries - 1), outcome, sent);
      }
  }

  lemma {:induction false} HalvesAreGiven(items: seq<Item>, depth: nat, outcome: Attempting, sent: nat)
    requires |items| > 1
    ensures var t := Halves(items, depth, outcome, sent);
            t.result.Ok? ==> GivenByPrompts(t.result.value, t.prompts, outcome, sent)
    decreases |items|, 0
  {
    var left := Run(FirstHalf(items), depth + 1, outcome, sent);
    var mid := sent + |left.prompts|;
    var right := Run(SecondHalf(items), depth + 1, outcome, mid);
    ValuesAreGiven(FirstHalf(items), depth + 1, outcome, sent, TRANSLATE_MAX_ATTEMPTS);
    ValuesAreGiven(SecondHalf(items), depth + 1, outcome, mid, TRANSLATE_MAX_ATTEMPTS);
    if left.result.Ok? && right.result.Ok? {
      JoinGiven(left.result.value, left.prompts, right.result.value, right.prompts, outcome, sent);
    }
  }

  // ----- One batch after another -----

  predicate NoneEmpty(batches: seq<seq<Item>>) {
    forall b :: 0 <= b < |batches| ==> batches[b] != []
  }

  /** The first `n` batches in turn, up to the first that is given up. */
  function SendAll(batches: seq<seq<Item>>, n: nat, outcome: Attempting): Trace
    requires NoneEmpty(batches) && n <= |batches|
  {
    if n == 0 then Trace(Ok(map[]), [])
    else
      var before := SendAll(batches, n - 1, outcome);
      if before.result.Err? then before
      else AndThen(before, Run(batches[n - 1], 0, outcome, |before.prompts|))
  }

  function AndThen(before: Trace, t: Trace): Trace
    requires before.result.Ok?
  {
    Trace(if t.result.Err? then t.result else Ok(before.result.value + t.result.value), before.prompts + t.prompts)
  }

  /** What the prompts for batch `b` do when its turn comes. */
  function BatchRun(batches: seq<seq<Item>>, b: nat, outcome: Attempting): Trace
    requires NoneEmpty(batches) && b < |batches|
  {
    Run(batches[b], 0, outcome, |SendAll(batches, b, outcome).prompts|)
  }

  /** After a batch is given up no further prompt is sent. */
  lemma {:induction false} GivenUpStays(batches: seq<seq<Item>>, m: nat, n: nat, outcome: Attempting)
    requires NoneEmpty(batches) && m <= n <= |batches| && SendAll(batches, m, outcome).result.Err?
    ensures SendAll(batches, n, outcome) == SendAll(batches, m, outcome)
  {
    if m < n {
      GivenUpStays(batches, m, n - 1, outcome);
    }
  }

  /** All succeed together exactly when each does in its turn. */
  lemma {:induction false} SucceedsIffEachDoes(batches: seq<seq<Item>>, n: nat, outcome: Attempting)
    requires NoneEmpty(batches) && n <= |batches|
    ensures SendAll(batches, n, outcome).result.Ok?
       <==> forall b :: 0 <= b < n ==> BatchRun(batches, b, outcome).result.Ok?
  {
    if n > 0 {
      SucceedsIffEachDoes(batches, n - 1, outcome);
      assert SendAll(batches, n, outcome).result.Ok?
        <==> SendAll(batches, n - 1, outcome).result.Ok? && BatchRun(batches, n - 1, outcome).result.Ok?;
    }
  }

  /**
   The order of all prompts obeys the rules of one batch, and the batches fail together
   exactly when the last prompt of all failed, with its error.
   */
  lemma {:induction false} SendAllObeys(batches: seq<seq<Item>>, n: nat, outcome: Attempting)
    requires NoneEmpty(batches) && n <= |batches|
    ensures var t := SendAll(batches, n, outcome);
            && AllFollowed(t.prompts, outcome, 0)
            && (if t.prompts == [] then t.result == Ok(map[]) else EndsWithOutcome(t, outcome, 0))
  {
    if n > 0 {
      SendAllObeys(batches, n - 1, outcome);
      var before := SendAll(batches, n - 1, outcome);
      if before.result.Ok? {
        var t := Run(batches[n - 1], 0, outcome, |before.prompts|);
        RunObeys(batches[n - 1], 0, outcome, |before.prompts|);
        forall i | 0 <= i < |before.prompts| ensures Followed(before.prompts + t.prompts, i, outcome, 0) {
          ExtendFollowed(before.prompts, t.prompts, i, outcome, 0);
        }
        JoinFollowed(before.prompts, t.prompts, outcome, 0);
        JoinEnd(before.prompts, t, outcome, 0);
      }
    }
  }

  /** At most `4n - 2` prompts for each batch of `n` items. */
  lemma {:induction false} SendAllIsFew(batches: seq<seq<Item>>, n: nat, outcome: Attempting)
    requires NoneEmpty(batches) && n <= |batches|
    ensures |SendAll(batches, n, outcome).prompts| <= 4 * |Flatten(batches[..n])| - 2 * n
    ensures n > 0 ==> |SendAll(batches, n, outcome).prompts| > 0
  {
    if n > 0 {
      SendAllIsFew(batches, n - 1, outcome);
      FlattenOneMore(batches, n - 1);
      var before := SendAll(batches, n - 1, outcome);
      PromptsAreFew(batches[n - 1], 0, outcome, |before.prompts|, TRANSLATE_MAX_ATTEMPTS);
      if before.result.Err? {
        assert n > 1;
      }
    }
  }

  lemma FlattenOneMore(batches: seq<seq<Item>>, n: nat)
    requires n < |batches|
    ensures Flatten(batches[..n + 1]) == Flatten(batches[..n]) + batches[n]
  {
    FlattenAppend(batches[..n], batches[n]);
    assert batches[..n + 1] == batches[..n] + [batches[n]];
  }

  /** A value is that of the last batch that has one. */
  lemma {:induction false} ValueOfBatch(batches: seq<seq<Item>>, n: nat, b: nat, key: string, outcome: Attempting)
    requires NoneEmpty(batches) && b < n <= |batches| && SendAll(batches, n, outcome).result.Ok?
    requires BatchRun(batches, b, outcome).result.Ok? && key in BatchRun(batches, b, outcome).result.value
    requires forall c :: b < c < n ==>
               var later := BatchRun(batches, c, outcome).result;
               later.Ok? && key !in later.value
    ensures var all := SendAll(batches, n, outcome).result.value;
            key in all && all[key] == BatchRun(batches, b, outcome).result.value[key]
  {
    var last := BatchRun(batches, n - 1, outcome);
    assert SendAll(batches, n, outcome) == AndThen(SendAll(batches, n - 1, outcome), last);
    if b < n - 1 {
      ValueOfBatch(batches, n - 1, b, key, outcome);
      assert last.result.Ok? && key !in last.result.value;
    }
  }

  /** Batch after batch, the items are translated from left to right. */
  lemma {:induction false} SendAllLeftToRight(batches: seq<seq<Item>>, n: nat, outcome: Attempting)
    requires NoneEmpty(batches) && n <= |batches|
    ensures LeftToRight(SendAll(batches, n, outcome), Flatten(batches[..n]), outcome, 0)
  {
    if n > 0 {
      var before := SendAll(batches, n - 1, outcome);
      SendAllLeftToRight(batches, n - 1, outcome);
      FlattenOneMore(batches, n - 1);
      if before.result.Ok? {
        TranslatesLeftToRight(batches[n - 1], 0, outcome, |before.prompts|, TRANSLATE_MAX_ATTEMPTS);
        JoinLeftToRight(before, Run(batches[n - 1], 0, outcome, |before.prompts|), Flatten(batches[..n - 1]),
                        batches[n - 1], outcome, 0);
      } else {
        ShorterPrefix(Flatten(batches[..n - 1]), batches[n - 1],
                      Translated(before.prompts, |before.prompts|, outcome, 0));
      }
    }
  }

  lemma JoinTraces(a: Trace, b: Trace, outcome: Attempting)
    requires a.result.Ok? && b.result.Ok?
    requires GivenByPrompts(a.result.value, a.prompts, outcome, 0)
    requires GivenByPrompts(b.result.value, b.prompts, outcome, |a.prompts|)
    ensures GivenByPrompts(AndThen(a, b).result.value, AndThen(a, b).prompts, outcome, 0)
  {
    JoinGiven(a.result.value, a.prompts, b.result.value, b.prompts, outcome, 0);
  }

  /** The answers of all batches are exactly what the successful prompts gave. */
  lemma {:induction false} SendAllGiven(batches: seq<seq<Item>>, n: nat, outcome: Attempting)
    requires NoneEmpty(batches) && n <= |batches| && SendAll(batches, n, outcome).result.Ok?
    ensures GivenByPrompts(SendAll(batches, n, outcome).result.value, SendAll(batches, n, outcome).prompts, outcome, 0)
  {
    if n > 0 {
      var before := SendAll(batches, n - 1, outcome);
      SendAllGiven(batches, n - 1, outcome);
      ValuesAreGiven(batches[n - 1], 0, outcome, |before.prompts|, TRANSLATE_MAX_ATTEMPTS);
      JoinTraces(before, Run(batches[n - 1], 0, outcome, |before.prompts|), outcome);
    }
  }

  ghost predicate PartOfSome(part: seq<Item>, batches: seq<seq<Item>>) {
    exists b :: 0 <= b < |batches| && Part(part, batches[b])
  }

  /** Every prompt asks for consecutive items of one of the batches. */
  lemma {:induction false} SendAllHoldItems(batches: seq<seq<Item>>, n: nat, outcome: Attempting)
    requires NoneEmpty(batches) && n <= |batches|
    ensures forall p :: p in SendAll(batches, n, outcome).prompts ==> PartOfSome(p.items, batches)
  {
    if n > 0 {
      var before := SendAll(batches, n - 1, outcome);
      SendAllHoldItems(batches, n - 1, outcome);
      if before.result.Ok? {
        PromptsHoldItems(batches[n - 1], 0, outcome, |before.prompts|, TRANSLATE_MAX_ATTEMPTS);
        assert forall p :: p in Run(batches[n - 1], 0, outcome, |before.prompts|).prompts ==>
          Part(p.items, batches[n - 1]);
      }
    }
  }
}
