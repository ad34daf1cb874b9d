/**
 Translating one batch: up to two attempts, and on a timeout a recursive split in halves.
 The provider is an arbitrary sequence of replies, one per prompt.
 */
module BatchTranslation {
  import opened Wrappers
  import opened Text
  import opened TranslationBatches
  import opened Bisection

  /** A reply that parsed as a JSON object (its string members), or an error message. */
  datatype Reply = Answer(values: map<string, string>) | Failure(message: string)

  function Lower(s: string): string {
    if s == "" then ""
    else [if 'A' <= s[0] <= 'Z' then (s[0] as int + 32) as char else s[0]] + Lower(s[1..])
  }

  predicate Includes(s: string, part: string) {
    part <= s || (s != "" && Includes(s[1..], part))
  }

  predicate OccursAt(s: string, part: string, i: nat) {
    i + |part| <= |s| && s[i..i + |part|] == part
  }

  /** `message.includes(part)`: the part stands somewhere in the text. */
  lemma {:induction false} IncludesIffOccurs(s: string, part: string)
    ensures Includes(s, part) <==> exists i: nat :: OccursAt(s, part, i)
    decreases |s|
  {
    if part <= s {
      assert OccursAt(s, part, 0);
    } else if s != "" {
      IncludesIffOccurs(s[1..], part);
      if i: nat :| OccursAt(s, part, i) {
        assert i > 0 && s[1..][i - 1..i - 1 + |part|] == part;
        assert OccursAt(s[1..], part, i - 1);
      }
      if i: nat :| OccursAt(s[1..], part, i) {
        assert s[i + 1..i + 1 + |part|] == s[1..][i..i + |part|];
        assert OccursAt(s, part, i + 1);
      }
    }
  }

  predicate IsPromptTimeout(message: string) {
    Includes(Lower(message), "timed out")
  }

  function MissingMessage(key: string): string {
    "missing translation for " + key
  }

  predicate Answered(values: map<string, string>, key: string) {
    key in values && !Blank(values[key])
  }

  function KeysOf(items: seq<Item>): set<string> {
    set i | 0 <= i < |items| :: items[i].key
  }

  lemma KeysOfOneMore(items: seq<Item>, i: nat)
    requires i < |items|
    ensures KeysOf(items[..i + 1]) == KeysOf(items[..i]) + {items[i].key}
    ensures items[i].key in KeysOf(items)
  {
    assert forall k :: 0 <= k < i ==> items[..i + 1][k] == items[k] == items[..i][k];
    assert items[..i + 1][i] == items[i];
  }

  /** The key of the first item without an answer, if any. */
  function FirstMissing(items: seq<Item>, values: map<string, string>): (r: Option<string>)
    ensures r.None? <==> forall i :: 0 <= i < |items| ==> Answered(values, items[i].key)
  {
    if items == [] then None
    else if !Answered(values, items[0].key) then Some(items[0].key)
    else FirstMissing(items[1..], values)
  }

  /** The missing key that is reported is the first one without an answer. */
  lemma {:induction false} MissingIsFirst(items: seq<Item>, values: map<string, string>) returns (i: nat)
    requires FirstMissing(items, values).Some?
    ensures i < |items| && FirstMissing(items, values) == Some(items[i].key) && !Answered(values, items[i].key)
    ensures forall j :: 0 <= j < i ==> Answered(values, items[j].key)
  {
    if !Answered(values, items[0].key) {
      i := 0;
    } else {
      i := MissingIsFirst(items[1..], values);
      i := i + 1;
    }
  }

  function FailedWith(message: string): Outcome {
    if IsPromptTimeout(message) then Timeout(message) else Broken(message)
  }

  /** What a reply means for a prompt that asked for these items. */
  function OutcomeOf(items: seq<Item>, reply: Reply): Outcome {
    match reply
    case Failure(message) => FailedWith(message)
    case Answer(values) =>
      match FirstMissing(items, values)
      case None => Success(Given(items, values))
      case Some(key) => FailedWith(MissingMessage(key))
  }

  /** The outcomes of all prompts under a sequence of replies. */
  function Under(reply: nat -> Reply): Attempting {
    (items: seq<Item>, j: nat) => OutcomeOf(items, reply(j))
  }

  function Given(items: seq<Item>, values: map<string, string>): (r: map<string, string>)
    requires FirstMissing(items, values).None?
    ensures r.Keys == KeysOf(items) && forall k :: k in r ==> k in values && r[k] == values[k]
  {
    map k | k in KeysOf(items) :: values[k]
  }

  lemma FirstMissingAfter(items: seq<Item>, values: map<string, string>, i: nat)
    requires i < |items|
    ensures FirstMissing(items[i..], values)
         == if Answered(values, items[i].key) then FirstMissing(items[i + 1..], values) else Some(items[i].key)
  {
    assert items[i..][0] == items[i] && items[i..][1..] == items[i + 1..];
  }

  /** Takes one more value into the map of the first `i` items. */
  lemma CollectOneMore(items: seq<Item>, values: map<string, string>, translated: map<string, string>, i: nat)
    requires i < |items| && items[i].key in values
    requires translated.Keys == KeysOf(items[..i])
    requires forall k :: k in translated ==> k in values && translated[k] == values[k]
    ensures var next := translated[items[i].key := values[items[i].key]];
            next.Keys == KeysOf(items[..i + 1]) && forall k :: k in next ==> k in values && next[k] == values[k]
  {
    KeysOfOneMore(items, i);
  }

  /** Reads the answer for every item; the first missing or blank one is an error. */
  method ReadAnswer(values: map<string, string>, items: seq<Item>) returns (r: Result<map<string, string>, string>)
    ensures r == match FirstMissing(items, values)
                 case None => Ok(Given(items, values))
                 case Some(key) => Err(MissingMessage(key))
  {
    var translated: map<string, string> := map[];
    for i := 0 to |items|
      invariant FirstMissing(items, values) == FirstMissing(items[i..], values)
      invariant translated.Keys == KeysOf(items[..i])
      invariant forall k :: k in translated ==> k in values && translated[k] == values[k]
    {
      var key := items[i].key;
      FirstMissingAfter(items, values, i);
      var blank := IsMissing(values, key);
      if blank {
        return Err(MissingMessage(key));
      }
      CollectOneMore(items, values, translated, i);
      translated := translated[key := values[key]];
    }
    assert items[..|items|] == items;
    assert translated == Given(items, values);
    return Ok(translated);
  }

  /** Not a string, or blank once trimmed. */
  method IsMissing(values: map<string, string>, key: string) returns (missing: bool)
    ensures missing <==> !Answered(values, key)
  {
    if key !in values {
      return true;
    }
    TrimIsEmptyIffBlank(values[key]);
    return Trim(values[key]) == "";
  }

  /** One prompt: an answer for every item, or the error that was thrown. */
  method Attempt(items: seq<Item>, reply: nat -> Reply, sent: nat) returns (r: Result<map<string, string>, string>)
    ensures r == match Under(reply)(items, sent)
                 case Success(values) => Ok(values)
                 case Timeout(error) => Err(error)
                 case Broken(error) => Err(error)
    ensures r.Err? ==> (IsPromptTimeout(r.error) <==> Under(reply)(items, sent).Timeout?)
  {
    match reply(sent) {
      case Failure(message) =>
        return Err(message);
      case Answer(values) =>
        r := ReadAnswer(values, items);
    }
  }

  /** The loop so far has sent `prompts`, and what it has left to do completes the protocol. */
  ghost predicate Continues(whole: Trace, prompts: seq<Prompt>, rest: Trace) {
    whole.result == rest.result && whole.prompts == prompts + rest.prompts
  }

  lemma ContinuesAfter(whole: Trace, prompts: seq<Prompt>, first: Prompt, rest: Trace)
    requires Continues(whole, prompts, After(first, rest))
    ensures Continues(whole, prompts + [first], rest)
  {
    assert prompts + ([first] + rest.prompts) == (prompts + [first]) + rest.prompts;
  }

  /** The retry loop; a timeout of several items ends it by recursion on the two halves. */
  method TranslateBatch(items: seq<Item>, splitDepth: nat, reply: nat -> Reply, sent: nat)
    returns (r: Result<map<string, string>, string>, prompts: seq<Prompt>)
    requires |items| >= 1
    ensures Trace(r, prompts) == Run(items, splitDepth, Under(reply), sent)
    decreases |items|, 1
  {
    prompts := [];
    var lastError := "translation failed";
    var attempt: nat := 0;
    ghost var whole := Run(items, splitDepth, Under(reply), sent);
    while attempt < TRANSLATE_MAX_ATTEMPTS
      invariant attempt <= TRANSLATE_MAX_ATTEMPTS
      invariant if attempt == TRANSLATE_MAX_ATTEMPTS then whole == Trace(Err(lastError), prompts)
                else Continues(whole, prompts, Try(items, splitDepth, Under(reply), sent + |prompts|,
                                                   TRANSLATE_MAX_ATTEMPTS - attempt))
    {
      r := Attempt(items, reply, sent + |prompts|);
      ghost var before := prompts;
      prompts := prompts + [Prompt(splitDepth, items)];
      if r.Ok? {
        return;
      }
      lastError := r.error;
      if IsPromptTimeout(lastError) && |items| > 1 {
        ContinuesAfter(whole, before, Prompt(splitDepth, items),
                       Halves(items, splitDepth, Under(reply), sent + |prompts|));
        var halves;
        r, halves := TranslateHalves(items, splitDepth, reply, sent + |prompts|);
        prompts := prompts + halves;
        return;
      }
      if IsPromptTimeout(lastError) {
        return Err(lastError), prompts;
      }
      attempt := attempt + 1;
      if attempt < TRANSLATE_MAX_ATTEMPTS {
        ContinuesAfter(whole, before, Prompt(splitDepth, items),
                       Try(items, splitDepth, Under(reply), sent + |prompts|, TRANSLATE_MAX_ATTEMPTS - attempt));
      }
    }
    return Err(lastError), prompts;
  }

  /** The split after a timeout: the left half first, the right half only if it succeeds. */
  method TranslateHalves(items: seq<Item>, splitDepth: nat, reply: nat -> Reply, sent: nat)
    returns (r: Result<map<string, string>, string>, prompts: seq<Prompt>)
    requires |items| > 1
    ensures Trace(r, prompts) == Halves(items, splitDepth, Under(reply), sent)
    decreases |items|, 0
  {
    var midpoint := (|items| + 1) / 2;
    var left, leftPrompts := TranslateBatch(items[0..midpoint], splitDepth + 1, reply, sent);
    if left.Err? {
      return left, leftPrompts;
    }
    var right, rightPrompts := TranslateBatch(items[midpoint..|items|], splitDepth + 1, reply, sent + |leftPrompts|);
    prompts := leftPrompts + rightPrompts;
    if right.Err? {
      return right, prompts;
    }
    return Ok(left.value + right.value), prompts;
  }

  // ----- What a result contains -----

  /** Every value was given, not blank, by one of the replies to these prompts. */
  ghost predicate FromReplies(result: map<string, string>, reply: nat -> Reply, from: nat, to: nat) {
    forall k :: k in result ==>
      !Blank(result[k]) && exists j :: from <= j < to && GaveAnswer(reply(j), k, result[k])
  }

  predicate GaveAnswer(r: Reply, key: string, value: string) {
    r.Answer? && key in r.values && r.values[key] == value
  }

  lemma LaterReplies(result: map<string, string>, reply: nat -> Reply, from: nat, start: nat, mid: nat, to: nat)
    requires from <= start && mid <= to && FromReplies(result, reply, start, mid)
    ensures FromReplies(result, reply, from, to)
  {}

  lemma MergedFromReplies(left: map<string, string>, right: map<string, string>, reply: nat -> Reply,
                          from: nat, mid: nat, to: nat)
    requires from <= mid <= to
    requires FromReplies(left, reply, from, mid) && FromReplies(right, reply, mid, to)
    ensures FromReplies(left + right, reply, from, to)
  {
    LaterReplies(left, reply, from, from, mid, to);
    LaterReplies(right, reply, from, mid, to, to);
    var both := left + right;
    forall k | k in both
      ensures !Blank(both[k]) && exists j :: from <= j < to && GaveAnswer(reply(j), k, both[k])
    {
      assert both[k] == if k in right then right[k] else left[k];
    }
  }

  lemma GivenIsFromReply(items: seq<Item>, values: map<string, string>, reply: nat -> Reply, sent: nat)
    requires FirstMissing(items, values).None? && reply(sent) == Answer(values)
    ensures FromReplies(Given(items, values), reply, sent, sent + 1)
  {
    var result := Given(items, values);
    forall k | k in result ensures !Blank(result[k]) && GaveAnswer(reply(sent), k, result[k]) {
      var i :| 0 <= i < |items| && items[i].key == k;
      assert Answered(values, items[i].key);
    }
  }

  lemma KeysOfHalves(items: seq<Item>)
    ensures KeysOf(items) == KeysOf(FirstHalf(items)) + KeysOf(SecondHalf(items))
  {
    var m := Midpoint(items);
    forall k | k in KeysOf(items) ensures k in KeysOf(FirstHalf(items)) + KeysOf(SecondHalf(items)) {
      var i :| 0 <= i < |items| && items[i].key == k;
      if i < m {
        assert FirstHalf(items)[i].key == k;
      } else {
        assert SecondHalf(items)[i - m].key == k;
      }
    }
    forall k | k in KeysOf(SecondHalf(items)) ensures k in KeysOf(items) {
      var i :| 0 <= i < |items| - m && SecondHalf(items)[i].key == k;
      assert items[m + i].key == k;
    }
  }

  lemma MergedKeys(items: seq<Item>, left: map<string, string>, right: map<string, string>)
    requires left.Keys == KeysOf(FirstHalf(items)) && right.Keys == KeysOf(SecondHalf(items))
    ensures (left + right).Keys == KeysOf(items)
  {
    KeysOfHalves(items);
  }

  /** A result covers exactly the items' keys, with non-blank values the provider gave. */
  ghost predicate Covers(result: Result<map<string, string>, string>, items: seq<Item>, reply: nat -> Reply,
                         from: nat, to: nat)
  {
    result.Ok? ==> result.value.Keys == KeysOf(items) && FromReplies(result.value, reply, from, to)
  }

  lemma CoversLater(result: Result<map<string, string>, string>, items: seq<Item>, reply: nat -> Reply,
                    from: nat, start: nat, to: nat)
    requires from <= start && Covers(result, items, reply, start, to)
    ensures Covers(result, items, reply, from, to)
  {
    if result.Ok? {
      LaterReplies(result.value, reply, from, start, to, to);
    }
  }

  lemma SuccessCovers(items: seq<Item>, reply: nat -> Reply, sent: nat)
    requires Under(reply)(items, sent).Success?
    ensures Covers(Ok(Under(reply)(items, sent).values), items, reply, sent, sent + 1)
  {
    GivenIsFromReply(items, reply(sent).values, reply, sent);
  }

  lemma {:induction false} ResultsCover(items: seq<Item>, depth: nat, reply: nat -> Reply, sent: nat, tries: nat)
    requires |items| >= 1 && tries >= 1
    ensures var t := Try(items, depth, Under(reply), sent, tries);
            Covers(t.result, items, reply, sent, sent + |t.prompts|)
    decreases |items|, tries
  {
    var outcome := Under(reply);
    match outcome(items, sent)
    case Success(_) => SuccessCovers(items, reply, sent);
    case Timeout(_) =>
      if |items| > 1 {
        var halves := Halves(items, depth, outcome, sent + 1);
        HalvesCover(items, depth, reply, sent + 1);
        CoversLater(halves.result, items, reply, sent, sent + 1, sent + 1 + |halves.prompts|);
      }
    case Broken(_) =>
      if tries > 1 {
        var again := Try(items, depth, outcome, sent + 1, tries - 1);
        ResultsCover(items, depth, reply, sent + 1, tries - 1);
        CoversLater(again.result, items, reply, sent, sent + 1, sent + 1 + |again.prompts|);
      }
  }

  lemma {:induction false} HalvesCover(items: seq<Item>, depth: nat, reply: nat -> Reply, sent: nat)
    requires |items| > 1
    ensures var t := Halves(items, depth, Under(reply), sent);
            Covers(t.result, items, reply, sent, sent + |t.prompts|)
    decreases |items|, 0
  {
    var left := Run(FirstHalf(items), depth + 1, Under(reply), sent);
    var mid := sent + |left.prompts|;
    var right := Run(SecondHalf(items), depth + 1, Under(reply), mid);
    ResultsCover(FirstHalf(items), depth + 1, reply, sent, TRANSLATE_MAX_ATTEMPTS);
    ResultsCover(SecondHalf(items), depth + 1, reply, mid, TRANSLATE_MAX_ATTEMPTS);
    if left.result.Ok? && right.result.Ok? {
      MergedKeys(items, left.result.value, right.result.value);
      MergedFromReplies(left.result.value, right.result.value, reply, sent, mid, mid + |right.prompts|);
    }
  }

  /**
   Whatever the provider replies: at most `4n - 2` prompts, each for a stretch of the items
   that shrinks with its depth; a result covers exactly the items' keys with non-blank values
   the provider gave; and the batch is retried, split and given up as it should be.
   */
  lemma TranslationIsRight(items: seq<Item>, depth: nat, reply: nat -> Reply, sent: nat)
    requires |items| >= 1
    ensures var t := Run(items, depth, Under(reply), sent);
            && 1 <= |t.prompts| <= 4 * |items| - 2
            && SizesShrink(t.prompts, depth, |items|)
            && HoldItems(t.prompts, items)
            && Covers(t.result, items, reply, sent, sent + |t.prompts|)
            && Obeys(t, Prompt(depth, items), Under(reply), sent)
            && GivesUpRightly(t, Under(reply), sent)
  {
    PromptsAreFew(items, depth, Under(reply), sent, TRANSLATE_MAX_ATTEMPTS);
    PromptsShrink(items, depth, Under(reply), sent, TRANSLATE_MAX_ATTEMPTS);
    PromptsHoldItems(items, depth, Under(reply), sent, TRANSLATE_MAX_ATTEMPTS);
    ResultsCover(items, depth, reply, sent, TRANSLATE_MAX_ATTEMPTS);
    RunObeys(items, depth, Under(reply), sent);
    WhenItGivesUp(items, depth, Under(reply), sent);
  }

  // ----- All batches -----

  lemma KeysOfJoined(a: seq<Item>, b: seq<Item>)
    ensures KeysOf(a + b) == KeysOf(a) + KeysOf(b)
  {
    forall k | k in KeysOf(a) + KeysOf(b) ensures k in KeysOf(a + b) {
      if k in KeysOf(a) {
        var i :| 0 <= i < |a| && a[i].key == k;
        assert (a + b)[i].key == k;
      } else {
        var i :| 0 <= i < |b| && b[i].key == k;
        assert (a + b)[|a| + i].key == k;
      }
    }
  }

  /** All batches together: exactly their keys, with non-blank values the provider gave. */
  lemma {:induction false} SendAllCovers(batches: seq<seq<Item>>, n: nat, reply: nat -> Reply)
    requires NoneEmpty(batches) && n <= |batches|
    ensures var t := SendAll(batches, n, Under(reply));
            Covers(t.result, Flatten(batches[..n]), reply, 0, |t.prompts|)
  {
    if n > 0 {
      SendAllCovers(batches, n - 1, reply);
      var before := SendAll(batches, n - 1, Under(reply));
      if before.result.Ok? {
        ResultsCover(batches[n - 1], 0, reply, |before.prompts|, TRANSLATE_MAX_ATTEMPTS);
        FlattenOneMore(batches, n - 1);
        JoinCovers(before, Run(batches[n - 1], 0, Under(reply), |before.prompts|), Flatten(batches[..n - 1]),
                   batches[n - 1], reply);
      }
    }
  }

  lemma JoinCovers(before: Trace, t: Trace, items: seq<Item>, batch: seq<Item>, reply: nat -> Reply)
    requires before.result.Ok? && Covers(before.result, items, reply, 0, |before.prompts|)
    requires Covers(t.result, batch, reply, |before.prompts|, |before.prompts| + |t.prompts|)
    ensures Covers(AndThen(before, t).result, items + batch, reply, 0, |before.prompts| + |t.prompts|)
  {
    if t.result.Ok? {
      KeysOfJoined(items, batch);
      MergedFromReplies(before.result.value, t.result.value, reply, 0, |before.prompts|,
                        |before.prompts| + |t.prompts|);
    }
  }

  // ----- The bound is reached -----

  /** Fails once, then times out; a single item fails once, then is answered. */
  function StubbornReply(items: seq<Item>, j: nat): Reply
    requires |items| >= 1
    decreases |items|
  {
    if j == 0 then Failure("no")
    else if |items| == 1 then Answer(map[items[0].key := "translated"])
    else if j == 1 then Failure("timed out")
    else
      var leftPrompts := 4 * Midpoint(items) - 2;
      if j - 2 < leftPrompts then StubbornReply(FirstHalf(items), j - 2)
      else StubbornReply(SecondHalf(items), j - 2 - leftPrompts)
  }

  lemma MessagesAreRead()
    ensures IsPromptTimeout("timed out") && !IsPromptTimeout("no")
  {
    LowerKeeps("timed out");
    LowerKeeps("no");
    assert !Includes("no", "timed out") by {
      assert "no"[1..] == "o" && "o"[1..] == "";
    }
  }

  lemma {:induction false} LowerKeeps(s: string)
    requires forall i :: 0 <= i < |s| ==> !('A' <= s[i] <= 'Z')
    ensures Lower(s) == s
  {
    if s != "" {
      LowerKeeps(s[1..]);
      assert s == [s[0]] + s[1..];
    }
  }

  lemma StubbornHalves(items: seq<Item>, j: nat)
    requires |items| > 1
    ensures var m := 4 * Midpoint(items) - 2;
            && (j < m ==> StubbornReply(items, 2 + j) == StubbornReply(FirstHalf(items), j))
            && StubbornReply(items, 2 + m + j) == StubbornReply(SecondHalf(items), j)
  {}

  /** Replies from `sent` on are the stubborn ones for these items. */
  ghost predicate RepliesStubbornly(items: seq<Item>, reply: nat -> Reply, sent: nat)
    requires |items| >= 1
  {
    forall j :: 0 <= j < 4 * |items| - 2 ==> reply(sent + j) == StubbornReply(items, j)
  }

  lemma HalvesAreStubborn(items: seq<Item>, reply: nat -> Reply, sent: nat)
    requires |items| > 1 && RepliesStubbornly(items, reply, sent)
    ensures RepliesStubbornly(FirstHalf(items), reply, sent + 2)
    ensures RepliesStubbornly(SecondHalf(items), reply, sent + 2 + (4 * Midpoint(items) - 2))
  {
    var m := 4 * Midpoint(items) - 2;
    forall j | 0 <= j < m ensures reply(sent + 2 + j) == StubbornReply(FirstHalf(items), j) {
      StubbornHalves(items, j);
      assert reply(sent + (2 + j)) == StubbornReply(items, 2 + j);
    }
    forall j | 0 <= j < 4 * |SecondHalf(items)| - 2
      ensures reply(sent + 2 + m + j) == StubbornReply(SecondHalf(items), j)
    {
      StubbornHalves(items, j);
      assert reply(sent + (2 + m + j)) == StubbornReply(items, 2 + m + j);
    }
  }

  lemma FailuresAreTold(items: seq<Item>)
    ensures OutcomeOf(items, Failure("no")).Broken? && OutcomeOf(items, Failure("timed out")).Timeout?
  {
    MessagesAreRead();
  }

  lemma SingleAnswerSucceeds(items: seq<Item>)
    requires |items| == 1
    ensures OutcomeOf(items, Answer(map[items[0].key := "translated"])).Success?
  {
    assert !Blank("translated") by {
      assert !IsSpace("translated"[0]);
    }
  }

  lemma StubbornFirstReplies(items: seq<Item>, reply: nat -> Reply, sent: nat)
    requires |items| >= 1 && RepliesStubbornly(items, reply, sent)
    ensures Under(reply)(items, sent).Broken?
    ensures var second := Under(reply)(items, sent + 1);
            if |items| == 1 then second.Success? else second.Timeout?
  {
    assert reply(sent + 0) == StubbornReply(items, 0) && reply(sent + 1) == StubbornReply(items, 1);
    FailuresAreTold(items);
    if |items| == 1 {
      SingleAnswerSucceeds(items);
    }
  }

  lemma StubbornFromHalves(items: seq<Item>, reply: nat -> Reply, sent: nat)
    requires |items| > 1 && RepliesStubbornly(items, reply, sent)
    requires Stubborn(FirstHalf(items), Under(reply), sent + 2)
    requires Stubborn(SecondHalf(items), Under(reply), sent + 2 + (4 * Midpoint(items) - 2))
    ensures Stubborn(items, Under(reply), sent)
  {
    StubbornFirstReplies(items, reply, sent);
  }

  lemma {:induction false} StubbornRepliesAre(items: seq<Item>, reply: nat -> Reply, sent: nat)
    requires |items| >= 1 && RepliesStubbornly(items, reply, sent)
    ensures Stubborn(items, Under(reply), sent)
    decreases |items|
  {
    if |items| == 1 {
      StubbornFirstReplies(items, reply, sent);
    } else {
      HalvesAreStubborn(items, reply, sent);
      StubbornRepliesAre(FirstHalf(items), reply, sent + 2);
      StubbornRepliesAre(SecondHalf(items), reply, sent + 2 + (4 * Midpoint(items) - 2));
      StubbornFromHalves(items, reply, sent);
    }
  }

  /** The replies that ask for everything twice. */
  function StubbornReplies(items: seq<Item>): nat -> Reply
    requires |items| >= 1
  {
    (j: nat) => StubbornReply(items, j)
  }

  /** The bound is reached: for any items some replies make it send exactly `4n - 2` prompts. */
  lemma RepliesReachBound(items: seq<Item>)
    requires |items| >= 1
    ensures var t := Run(items, 0, Under(StubbornReplies(items)), 0);
            |t.prompts| == 4 * |items| - 2 && t.result.Ok?
  {
    var reply := StubbornReplies(items);
    assert RepliesStubbornly(items, reply, 0) by {
      assert forall j: nat :: reply(0 + j) == StubbornReply(items, j);
    }
    StubbornRepliesAre(items, reply, 0);
    BoundIsReached(items, 0, Under(reply), 0);
  }
}
