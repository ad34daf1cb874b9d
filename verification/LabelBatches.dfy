/**
 The issue labeler: open items are paged in, regrouped into work batches, and a state file
 is checkpointed after each batch.
 */
module LabelBatches {
  import opened Wrappers

  const WORK_BATCH_SIZE: nat := 500

  datatype Node = Node(number: int, title: string, body: Option<string>, labels: Option<seq<string>>)

  datatype LabelItem = LabelItem(number: int, title: string, body: string, labels: seq<string>)

  datatype Page = Page(nodes: seq<Node>, hasNextPage: bool, endCursor: Option<string>, totalCount: Option<nat>)

  datatype Batch = Batch(batchIndex: nat, items: seq<LabelItem>, totalCount: nat, fetchedCount: nat)

  type FetchPage = Option<string> -> Page

  function ToItem(node: Node): LabelItem {
    LabelItem(node.number, node.title, node.body.GetOr(""), node.labels.GetOr([]))
  }

  /** The item says what the node says; a missing body is empty, missing labels are none. */
  predicate Shows(item: LabelItem, node: Node) {
    && item.number == node.number && item.title == node.title
    && |item.body| == (if node.body.Some? then |node.body.value| else 0)
    && (node.body.Some? ==> item.body == node.body.value)
    && |item.labels| == (if node.labels.Some? then |node.labels.value| else 0)
    && (node.labels.Some? ==> item.labels == node.labels.value)
  }

  function ToItems(nodes: seq<Node>): (r: seq<LabelItem>)
    ensures |r| == |nodes|
    ensures forall i :: 0 <= i < |nodes| ==> r[i] == ToItem(nodes[i]) && Shows(r[i], nodes[i])
  {
    if nodes == [] then [] else ToItems(nodes[..|nodes| - 1]) + [ToItem(nodes[|nodes| - 1])]
  }

  // ----- The page chain -----

  /** The cursors of the first pages the API serves, in order. */
  ghost predicate IsChain(fetch: FetchPage, cursors: seq<Option<string>>) {
    && (cursors != [] ==> cursors[0] == None)
    && forall i :: 0 <= i < |cursors| - 1 ==>
         fetch(cursors[i]).hasNextPage && cursors[i + 1] == fetch(cursors[i]).endCursor
  }

  /** These pages are enough: they are all there are, or they hold as many items as wanted. */
  ghost predicate Suffices(fetch: FetchPage, cursors: seq<Option<string>>, limit: Option<nat>) {
    || (cursors != [] && !fetch(cursors[|cursors| - 1]).hasNextPage)
    || !Below(|ChainItems(fetch, cursors)|, limit)
  }

  /** Every item of the first pages. */
  ghost function ChainItems(fetch: FetchPage, cursors: seq<Option<string>>): seq<LabelItem> {
    if cursors == [] then []
    else ChainItems(fetch, cursors[..|cursors| - 1]) + ToItems(fetch(cursors[|cursors| - 1]).nodes)
  }

  /** A missing limit stands for `Infinity`. */
  function Limited(items: seq<LabelItem>, limit: Option<nat>): seq<LabelItem> {
    if limit.None? || |items| <= limit.value then items else items[..limit.value]
  }

  predicate Below(n: nat, limit: Option<nat>) {
    limit.None? || n < limit.value
  }

  function Flat(batches: seq<Batch>): seq<LabelItem> {
    if batches == [] then [] else Flat(batches[..|batches| - 1]) + batches[|batches| - 1].items
  }

  lemma FlatAppend(batches: seq<Batch>, b: Batch)
    ensures Flat(batches + [b]) == Flat(batches) + b.items
  {
    assert (batches + [b])[..|batches|] == batches;
  }

  /** Numbered from 1, full, and each counting the items yielded so far. */
  ghost predicate FullBatches(batches: seq<Batch>) {
    forall i :: 0 <= i < |batches| ==>
      && batches[i].batchIndex == i + 1
      && |batches[i].items| == WORK_BATCH_SIZE
      && batches[i].fetchedCount == (i + 1) * WORK_BATCH_SIZE
  }

  /** A prefix that reaches the limit is cut at the same place as the whole. */
  lemma LimitedPrefix(part: seq<LabelItem>, all: seq<LabelItem>, limit: Option<nat>)
    requires part <= all && !Below(|Limited(part, limit)|, limit)
    ensures Limited(part, limit) == Limited(all, limit)
  {
    assert part[..limit.value] == all[..limit.value];
  }

  lemma {:induction false} LaterPagesExtend(fetch: FetchPage, cursors: seq<Option<string>>, k: nat)
    requires k <= |cursors|
    ensures ChainItems(fetch, cursors[..k]) <= ChainItems(fetch, cursors)
  {
    if k < |cursors| {
      LaterPagesExtend(fetch, cursors[..|cursors| - 1], k);
      assert cursors[..|cursors| - 1][..k] == cursors[..k];
    } else {
      assert cursors[..k] == cursors;
    }
  }

  /** The generator's mutable variables. */
  class Fetcher {
    var results: seq<LabelItem>
    var fetchedCount: nat
    var batchIndex: nat
    var yielded: seq<Batch>

    constructor ()
      ensures Progress([]) && fetchedCount == 0
    {
      results, fetchedCount, batchIndex, yielded := [], 0, 1, [];
    }

    /** What was taken so far sits in full batches plus a rest smaller than a batch. */
    ghost predicate Progress(taken: seq<LabelItem>)
      reads this
    {
      && FullBatches(yielded)
      && batchIndex == |yielded| + 1
      && |results| < WORK_BATCH_SIZE
      && Flat(yielded) + results == taken
      && fetchedCount == |taken| == |yielded| * WORK_BATCH_SIZE + |results|
    }

    /** What was yielded since then carries this total, and counts more than `from - 1` items. */
    ghost predicate Yields(before: seq<Batch>, totalCount: nat, from: nat)
      reads this
    {
      && before <= yielded
      && forall i :: |before| <= i < |yielded| ==>
           yielded[i].totalCount == totalCount && yielded[i].fetchedCount >= from
    }

    method TakeOne(item: LabelItem, totalCount: nat, ghost taken: seq<LabelItem>)
      requires Progress(taken)
      modifies this
      ensures Progress(taken + [item]) && Yields(old(yielded), totalCount, |taken| + 1)
    {
      results := results + [item];
      fetchedCount := fetchedCount + 1;
      assert Flat(yielded) + results == taken + [item];
      if |results| >= WORK_BATCH_SIZE {
        var batch := Batch(batchIndex, results, totalCount, fetchedCount);
        FlatAppend(yielded, batch);
        yielded := yielded + [batch];
        results := [];
        batchIndex := batchIndex + 1;
      }
    }

    method TakePage(nodes: seq<Node>, limit: Option<nat>, totalCount: nat, ghost taken: seq<LabelItem>)
      requires Progress(taken)
      modifies this
      ensures Below(|taken|, limit) ==> Progress(Limited(taken + ToItems(nodes), limit))
      ensures Yields(old(yielded), totalCount, |taken| + 1)
    {
      ghost var items := ToItems(nodes);
      for i := 0 to |nodes|
        invariant Progress(taken + items[..i]) && Yields(old(yielded), totalCount, |taken| + 1)
        invariant Below(|taken|, limit) ==> limit.None? || |taken| + i <= limit.value
      {
        if limit.Some? && fetchedCount >= limit.value {
          assert Below(|taken|, limit) ==> Limited(taken + items, limit) == taken + items[..i];
          return;
        }
        TakeOne(ToItem(nodes[i]), totalCount, taken + items[..i]);
        assert (taken + items[..i]) + [ToItem(nodes[i])] == taken + items[..i + 1];
      }
      assert items[..|nodes|] == items;
    }

    /** Yields the rest as a last, shorter batch. */
    method Finish(totalCount: nat, ghost taken: seq<LabelItem>) returns (batches: seq<Batch>)
      requires Progress(taken)
      ensures Flat(batches) == taken
      ensures WellShaped(batches)
      ensures yielded <= batches
      ensures forall i :: |yielded| <= i < |batches| ==>
                batches[i].totalCount == totalCount && batches[i].fetchedCount == |taken| > 0
    {
      batches := yielded;
      if |results| > 0 {
        var last := Batch(batchIndex, results, totalCount, fetchedCount);
        FlatAppend(batches, last);
        assert (batches + [last])[..|batches|] == batches;
        batches := batches + [last];
      }
    }
  }

  /** Full batches, then one of 1 to 500 items whose count is the total. */
  ghost predicate WellShaped(batches: seq<Batch>) {
    batches != [] ==>
      var last := batches[|batches| - 1];
      && FullBatches(batches[..|batches| - 1])
      && last.batchIndex == |batches|
      && 1 <= |last.items| <= WORK_BATCH_SIZE
      && last.fetchedCount == |Flat(batches)|
  }

  /** The total the first `p` pages report: the last one that is given, or zero. */
  function TotalAfter(fetch: FetchPage, cursors: seq<Option<string>>, p: nat): nat
    requires p <= |cursors|
  {
    if p == 0 then 0
    else match fetch(cursors[p - 1]).totalCount
         case Some(total) => total
         case None => TotalAfter(fetch, cursors, p - 1)
  }

  /** Page `p`, counted from 1, is the last one that is read. */
  ghost predicate LastPage(fetch: FetchPage, cursors: seq<Option<string>>, limit: Option<nat>, p: nat)
    requires 1 <= p <= |cursors|
  {
    !fetch(cursors[p - 1]).hasNextPage || !Below(|ChainItems(fetch, cursors[..p])|, limit)
  }

  /** The batch was yielded at page `p`: it holds items of that page, or is the rest after the last page. */
  ghost predicate YieldedAt(fetch: FetchPage, cursors: seq<Option<string>>, limit: Option<nat>, batch: Batch, p: nat) {
    && 1 <= p <= |cursors|
    && batch.totalCount == TotalAfter(fetch, cursors, p)
    && batch.fetchedCount <= |ChainItems(fetch, cursors[..p])|
    && Below(|ChainItems(fetch, cursors[..p - 1])|, limit)
    && (|ChainItems(fetch, cursors[..p - 1])| < batch.fetchedCount || LastPage(fetch, cursors, limit, p))
  }

  ghost predicate AllYielded(fetch: FetchPage, cursors: seq<Option<string>>, limit: Option<nat>, batches: seq<Batch>) {
    forall i :: 0 <= i < |batches| ==> WasYielded(fetch, cursors, limit, batches[i])
  }

  ghost predicate WasYielded(fetch: FetchPage, cursors: seq<Option<string>>, limit: Option<nat>, batch: Batch) {
    exists p: nat :: YieldedAt(fetch, cursors, limit, batch, p)
  }

  /**
   Drives the generator to its end. The batches concatenate to the first `limit` items of
   the page chain, every batch but the last holds exactly 500, the last 1 to 500. The chain
   may go on for ever as long as the limit is reached.
   */
  method FetchOpenLabelItemBatches(limit: Option<nat>, fetch: FetchPage, ghost cursors: seq<Option<string>>)
    returns (batches: seq<Batch>)
    requires IsChain(fetch, cursors) && Suffices(fetch, cursors, limit)
    ensures Flat(batches) == Limited(ChainItems(fetch, cursors), limit)
    ensures WellShaped(batches) && AllYielded(fetch, cursors, limit, batches)
  {
    var f := new Fetcher();
    var after: Option<string> := None;
    var totalCount: nat := 0;
    ghost var page, taken := 0, [];
    while Below(f.fetchedCount, limit)
      invariant fresh(f)
      invariant Reading(f, fetch, cursors, limit, page, after, taken, totalCount)
      decreases |cursors| - page
    {
      PagesAreLeft(fetch, cursors, page, after, limit, taken);
      var pageData := fetch(after);
      totalCount, taken := ReadPage(f, pageData, limit, totalCount, fetch, cursors, page, after, taken);
      if !pageData.hasNextPage {
        batches := YieldRest(f, totalCount, fetch, cursors, page + 1, limit, taken);
        return;
      }
      after := pageData.endCursor;
      page := page + 1;
    }
    LimitReached(fetch, cursors, limit, taken, page);
    batches := YieldRest(f, totalCount, fetch, cursors, page, limit, taken);
  }

  /** The state of the generator after `p` pages. */
  ghost predicate Read(f: Fetcher, fetch: FetchPage, cursors: seq<Option<string>>, limit: Option<nat>, p: nat,
                       taken: seq<LabelItem>, totalCount: nat)
    reads f
  {
    && p <= |cursors| && f.Progress(taken) && taken == Limited(ChainItems(fetch, cursors[..p]), limit)
    && AllYielded(fetch, cursors, limit, f.yielded) && totalCount == TotalAfter(fetch, cursors, p)
    && (p > 0 ==> Below(|ChainItems(fetch, cursors[..p - 1])|, limit))
  }

  /** That, and `after` leads to the next page. */
  ghost predicate Reading(f: Fetcher, fetch: FetchPage, cursors: seq<Option<string>>, limit: Option<nat>, p: nat,
                          after: Option<string>, taken: seq<LabelItem>, totalCount: nat)
    reads f
  {
    Read(f, fetch, cursors, limit, p, taken, totalCount) && Paging(fetch, cursors, p, after, limit, taken)
  }

  /** Ends the generator after `p` pages: what is left is the last batch. */
  method YieldRest(f: Fetcher, totalCount: nat, ghost fetch: FetchPage, ghost cursors: seq<Option<string>>,
                   ghost p: nat, ghost limit: Option<nat>, ghost taken: seq<LabelItem>)
    returns (batches: seq<Batch>)
    requires Read(f, fetch, cursors, limit, p, taken, totalCount)
    requires p > 0 ==> !fetch(cursors[p - 1]).hasNextPage || !Below(|taken|, limit)
    ensures Flat(batches) == taken && WellShaped(batches) && AllYielded(fetch, cursors, limit, batches)
  {
    batches := f.Finish(totalCount, taken);
    AllYieldedAtEnd(fetch, cursors, p, limit, taken, f.yielded, batches);
  }

  /** Takes one page: its total, if it gives one, and its items up to the limit. */
  method ReadPage(f: Fetcher, pageData: Page, limit: Option<nat>, totalCount0: nat, ghost fetch: FetchPage,
                  ghost cursors: seq<Option<string>>, ghost page: nat, ghost after: Option<string>,
                  ghost start: seq<LabelItem>)
    returns (totalCount: nat, ghost taken: seq<LabelItem>)
    requires IsChain(fetch, cursors) && page < |cursors| && after == cursors[page] && pageData == fetch(after)
    requires Below(|start|, limit) && Reading(f, fetch, cursors, limit, page, after, start, totalCount0)
    modifies f
    ensures Read(f, fetch, cursors, limit, page + 1, taken, totalCount)
    ensures if pageData.hasNextPage then Paging(fetch, cursors, page + 1, pageData.endCursor, limit, taken)
            else taken == Limited(ChainItems(fetch, cursors), limit)
  {
    totalCount := pageData.totalCount.GetOr(totalCount0);
    ghost var before := f.yielded;
    f.TakePage(pageData.nodes, limit, totalCount, start);
    taken := Limited(start + ToItems(pageData.nodes), limit);
    OnePageMore(fetch, cursors, page, after, limit, start);
    AllYieldedOnPage(fetch, cursors, page, limit, start, taken, before, f.yielded);
  }

  /** No batch counts more than was taken. */
  lemma CountsAreTaken(batches: seq<Batch>, taken: seq<LabelItem>)
    requires FullBatches(batches) && |batches| * WORK_BATCH_SIZE <= |taken|
    ensures forall i :: 0 <= i < |batches| ==> batches[i].fetchedCount <= |taken|
  {}

  lemma YieldedOnPage(fetch: FetchPage, cursors: seq<Option<string>>, page: nat, limit: Option<nat>,
                      start: seq<LabelItem>, taken: seq<LabelItem>, batch: Batch)
    requires page < |cursors| && Below(|start|, limit) && start == Limited(ChainItems(fetch, cursors[..page]), limit)
    requires taken == Limited(ChainItems(fetch, cursors[..page + 1]), limit)
    requires batch.totalCount == TotalAfter(fetch, cursors, page + 1) && |start| < batch.fetchedCount <= |taken|
    ensures WasYielded(fetch, cursors, limit, batch)
  {
    assert cursors[..page + 1 - 1] == cursors[..page];
    assert YieldedAt(fetch, cursors, limit, batch, page + 1);
  }

  lemma AllYieldedOnPage(fetch: FetchPage, cursors: seq<Option<string>>, page: nat, limit: Option<nat>,
                         start: seq<LabelItem>, taken: seq<LabelItem>, before: seq<Batch>, now: seq<Batch>)
    requires page < |cursors| && Below(|start|, limit) && start == Limited(ChainItems(fetch, cursors[..page]), limit)
    requires taken == Limited(ChainItems(fetch, cursors[..page + 1]), limit)
    requires AllYielded(fetch, cursors, limit, before) && before <= now
    requires forall i :: |before| <= i < |now| ==>
               now[i].totalCount == TotalAfter(fetch, cursors, page + 1) && now[i].fetchedCount > |start|
    requires FullBatches(now) && |now| * WORK_BATCH_SIZE <= |taken|
    ensures AllYielded(fetch, cursors, limit, now)
  {
    CountsAreTaken(now, taken);
    forall i | 0 <= i < |now| ensures WasYielded(fetch, cursors, limit, now[i]) {
      if i < |before| {
        assert now[i] == before[i];
      } else {
        YieldedOnPage(fetch, cursors, page, limit, start, taken, now[i]);
      }
    }
  }

  /** The rest is yielded after the last page. */
  lemma AllYieldedAtEnd(fetch: FetchPage, cursors: seq<Option<string>>, p: nat, limit: Option<nat>,
                        taken: seq<LabelItem>, before: seq<Batch>, batches: seq<Batch>)
    requires p <= |cursors| && taken == Limited(ChainItems(fetch, cursors[..p]), limit)
    requires p > 0 ==> Below(|ChainItems(fetch, cursors[..p - 1])|, limit)
    requires p > 0 ==> !fetch(cursors[p - 1]).hasNextPage || !Below(|taken|, limit)
    requires AllYielded(fetch, cursors, limit, before) && before <= batches
    requires forall i :: |before| <= i < |batches| ==>
               && batches[i].totalCount == TotalAfter(fetch, cursors, p)
               && batches[i].fetchedCount == |taken| > 0
    ensures AllYielded(fetch, cursors, limit, batches)
  {
    forall i | 0 <= i < |batches| ensures WasYielded(fetch, cursors, limit, batches[i]) {
      if i < |before| {
        assert batches[i] == before[i];
      } else {
        assert batches[i].fetchedCount == |taken|;
        assert cursors[..0] == [];
        assert YieldedAt(fetch, cursors, limit, batches[i], p);
      }
    }
  }

  /** The first `page` pages were taken, up to the limit, and `after` leads to the next one. */
  ghost predicate Paging(fetch: FetchPage, cursors: seq<Option<string>>, page: nat, after: Option<string>,
                         limit: Option<nat>, taken: seq<LabelItem>)
  {
    && page <= |cursors|
    && (page < |cursors| ==> after == cursors[page])
    && (page == |cursors| > 0 ==> fetch(cursors[page - 1]).hasNextPage)
    && taken == Limited(ChainItems(fetch, cursors[..page]), limit)
  }

  lemma PagesAreLeft(fetch: FetchPage, cursors: seq<Option<string>>, page: nat, after: Option<string>,
                     limit: Option<nat>, taken: seq<LabelItem>)
    requires Suffices(fetch, cursors, limit) && Below(|taken|, limit)
    requires Paging(fetch, cursors, page, after, limit, taken)
    ensures page < |cursors| && after == cursors[page]
  {
    assert cursors[..|cursors|] == cursors;
  }

  /**
   Below the limit nothing was cut off yet, so the next page extends the whole chain; if it
   is the last one, everything was taken.
   */
  lemma OnePageMore(fetch: FetchPage, cursors: seq<Option<string>>, page: nat, after: Option<string>,
                    limit: Option<nat>, taken: seq<LabelItem>)
    requires IsChain(fetch, cursors) && page < |cursors| && Below(|taken|, limit)
    requires Paging(fetch, cursors, page, after, limit, taken)
    ensures var now := Limited(taken + ToItems(fetch(after).nodes), limit);
            && now == Limited(ChainItems(fetch, cursors[..page + 1]), limit)
            && if fetch(after).hasNextPage then Paging(fetch, cursors, page + 1, fetch(after).endCursor, limit, now)
               else now == Limited(ChainItems(fetch, cursors), limit)
  {
    assert cursors[..page + 1][..page] == cursors[..page];
    assert ChainItems(fetch, cursors[..page + 1]) == taken + ToItems(fetch(after).nodes);
    if !fetch(after).hasNextPage {
      assert page == |cursors| - 1 && cursors[..page + 1] == cursors;
    }
  }

  lemma LimitReached(fetch: FetchPage, cursors: seq<Option<string>>, limit: Option<nat>, taken: seq<LabelItem>,
                     page: nat)
    requires page <= |cursors| && !Below(|taken|, limit)
    requires taken == Limited(ChainItems(fetch, cursors[..page]), limit)
    ensures taken == Limited(ChainItems(fetch, cursors), limit)
  {
    LaterPagesExtend(fetch, cursors, page);
    LimitedPrefix(ChainItems(fetch, cursors[..page]), ChainItems(fetch, cursors), limit);
  }

  // ----- Checkpoints -----

  datatype Kind = Issues | PullRequests {
    function Other(): Kind {
      if this == Issues then PullRequests else Issues
    }
  }

  datatype State = State(issues: set<int>, pullRequests: set<int>) {
    function Of(kind: Kind): set<int> {
      if kind == Issues then issues else pullRequests
    }

    function Add(kind: Kind, numbers: set<int>): State {
      if kind == Issues then this.(issues := issues + numbers) else this.(pullRequests := pullRequests + numbers)
    }
  }

  const EMPTY := State({}, {})

  /** The state file: `None` is a file that does not parse, which a run starts from empty. */
  type Disk = Option<State>

  function Loaded(disk: Disk): State {
    disk.GetOr(EMPTY)
  }

  function Numbers(items: seq<LabelItem>): set<int> {
    set i | 0 <= i < |items| :: items[i].number
  }

  function Pending(items: seq<LabelItem>, done: set<int>): (r: seq<LabelItem>)
    ensures forall item :: item in r <==> item in items && item.number !in done
  {
    if items == [] then []
    else (if items[0].number in done then [] else [items[0]]) + Pending(items[1..], done)
  }

  lemma PendingNumbers(items: seq<LabelItem>, done: set<int>)
    ensures Numbers(Pending(items, done)) == Numbers(items) - done
  {
    var pending := Pending(items, done);
    forall n | n in Numbers(items) - done ensures n in Numbers(pending) {
      var i :| 0 <= i < |items| && items[i].number == n;
      assert items[i] in items && items[i] in pending;
    }
    forall n | n in Numbers(pending) ensures n in Numbers(items) - done {
      var i :| 0 <= i < |pending| && pending[i].number == n;
      assert pending[i] in pending;
    }
  }

  /** Where a run was cut short, if it was. */
  datatype Crash = NoCrash | Handling | Saving

  /** One batch: memory and disk afterwards, what was handled, the steps left and the crash. */
  datatype BatchRun = BatchRun(processed: State, disk: Disk, handled: set<int>, left: nat, crash: Crash)

  /**
   One batch cut short after `steps` steps. Handling an item is one step; saving is two: the
   file is truncated in place and then written, and in between it does not parse.
   */
  function RunOne(processed: State, disk: Disk, kind: Kind, batch: seq<LabelItem>, dryRun: bool, steps: nat): BatchRun {
    var pending := Pending(batch, processed.Of(kind));
    var handled := Numbers(if steps < |pending| then pending[..steps] else pending);
    var after := processed.Add(kind, handled);
    if steps < |pending| then BatchRun(after, disk, handled, 0, Handling)
    else
      var left := steps - |pending|;
      if dryRun || pending == [] then BatchRun(after, disk, handled, left, NoCrash)
      else if left == 0 then BatchRun(after, disk, handled, 0, Handling)
      else if left == 1 then BatchRun(after, None, handled, 0, Saving)
      else BatchRun(after, Some(after), handled, left - 2, NoCrash)
  }

  /** One phase of `main`: how many batches were completed, and the rest as for one batch. */
  datatype PhaseRun = PhaseRun(processed: State, disk: Disk, completed: nat, handled: set<int>, left: nat, crash: Crash)

  function RunAll(processed: State, disk: Disk, kind: Kind, batches: seq<seq<LabelItem>>, dryRun: bool,
                  steps: nat): PhaseRun
    decreases |batches|
  {
    if batches == [] then PhaseRun(processed, disk, 0, {}, steps, NoCrash)
    else
      var b := RunOne(processed, disk, kind, batches[0], dryRun, steps);
      if b.crash != NoCrash then PhaseRun(b.processed, b.disk, 0, b.handled, 0, b.crash)
      else
        var rest := RunAll(b.processed, b.disk, kind, batches[1..], dryRun, b.left);
        Prepend(b, rest)
  }

  /** Everything in the first `n` batches. */
  function AllNumbers(batches: seq<seq<LabelItem>>, n: nat): set<int>
    requires n <= |batches|
  {
    if n == 0 then {} else AllNumbers(batches, n - 1) + Numbers(batches[n - 1])
  }

  lemma {:induction false} AllNumbersFromFront(batches: seq<seq<LabelItem>>, n: nat)
    requires 0 < n <= |batches|
    ensures AllNumbers(batches, n) == Numbers(batches[0]) + AllNumbers(batches[1..], n - 1)
  {
    if n > 1 {
      AllNumbersFromFront(batches, n - 1);
      assert batches[1..][n - 2] == batches[n - 1];
    }
  }

  /** What one batch does, whether or not it is cut short. */
  lemma OneBatch(processed: State, disk: Disk, kind: Kind, batch: seq<LabelItem>, dryRun: bool, steps: nat)
    ensures var r := RunOne(processed, disk, kind, batch, dryRun, steps);
            && r.processed == processed.Add(kind, r.handled)
            && r.handled <= Numbers(batch) - processed.Of(kind)
            && (r.crash == NoCrash ==> r.handled == Numbers(batch) - processed.Of(kind))
            && (r.crash == Saving ==> !dryRun && r.disk == None)
            && (r.crash == Handling ==> r.disk == disk)
            && (dryRun ==> r.disk == disk)
            && (!dryRun && r.crash == NoCrash && Loaded(disk) == processed ==> Loaded(r.disk) == r.processed)
  {
    var pending := Pending(batch, processed.Of(kind));
    PendingNumbers(batch, processed.Of(kind));
    if steps < |pending| {
      forall n | n in Numbers(pending[..steps]) ensures n in Numbers(pending) {
        var i :| 0 <= i < steps && pending[..steps][i].number == n;
        assert pending[i].number == n;
      }
    }
  }

  lemma FirstIsNumbered(items: seq<LabelItem>)
    requires items != []
    ensures items[0].number in Numbers(items)
  {}

  /** A batch whose items are all recorded takes no step and does not touch the file. */
  lemma NothingNewIsNotSaved(processed: State, disk: Disk, kind: Kind, batch: seq<LabelItem>, dryRun: bool, steps: nat)
    requires Numbers(batch) <= processed.Of(kind)
    ensures RunOne(processed, disk, kind, batch, dryRun, steps) == BatchRun(processed, disk, {}, steps, NoCrash)
  {
    var pending := Pending(batch, processed.Of(kind));
    PendingNumbers(batch, processed.Of(kind));
    if pending != [] {
      FirstIsNumbered(pending);
      assert false;
    }
    assert processed.Add(kind, {}) == processed;
  }

  /** The batches a phase completed, and the one it may have begun. */
  function Begun(batches: seq<seq<LabelItem>>, completed: nat): set<int>
    requires completed <= |batches|
  {
    AllNumbers(batches, if completed < |batches| then completed + 1 else completed)
  }

  function Interrupted(batches: seq<seq<LabelItem>>, completed: nat): set<int>
    requires completed <= |batches|
  {
    if completed < |batches| then Numbers(batches[completed]) else {}
  }

  /** What a phase did in memory, whether or not it was cut short. */
  ghost predicate MemoryRight(processed: State, kind: Kind, batches: seq<seq<LabelItem>>, r: PhaseRun) {
    && r.completed <= |batches|
    && (r.crash == NoCrash <==> r.completed == |batches|)
    && r.processed == processed.Add(kind, r.handled)
    && r.handled !! processed.Of(kind)
    && AllNumbers(batches, r.completed) <= r.processed.Of(kind)
    && r.handled <= Begun(batches, r.completed)
  }

  lemma {:induction false} PhaseMemory(processed: State, disk: Disk, kind: Kind, batches: seq<seq<LabelItem>>,
                                       dryRun: bool, steps: nat)
    ensures MemoryRight(processed, kind, batches, RunAll(processed, disk, kind, batches, dryRun, steps))
    decreases |batches|
  {
    if batches != [] {
      var b := RunOne(processed, disk, kind, batches[0], dryRun, steps);
      OneBatch(processed, disk, kind, batches[0], dryRun, steps);
      if b.crash != NoCrash {
        AllNumbersFromFront(batches, 1);
      } else {
        PhaseMemory(b.processed, b.disk, kind, batches[1..], dryRun, b.left);
        MemoryFromFront(processed, kind, batches, b, RunAll(b.processed, b.disk, kind, batches[1..], dryRun, b.left));
      }
    }
  }

  /** One more completed batch in front. */
  function Prepend(b: BatchRun, rest: PhaseRun): PhaseRun {
    rest.(completed := rest.completed + 1, handled := b.handled + rest.handled)
  }

  lemma MemoryFromFront(processed: State, kind: Kind, batches: seq<seq<LabelItem>>, b: BatchRun, rest: PhaseRun)
    requires batches != [] && b.processed == processed.Add(kind, b.handled)
    requires b.handled == Numbers(batches[0]) - processed.Of(kind)
    requires MemoryRight(b.processed, kind, batches[1..], rest)
    ensures MemoryRight(processed, kind, batches, Prepend(b, rest))
  {
    AllNumbersFromFront(batches, rest.completed + 1);
    if rest.completed + 1 < |batches| {
      AllNumbersFromFront(batches, rest.completed + 2);
    }
  }

  /** Outside a save the file has every completed batch and lacks at most the interrupted one. */
  ghost predicate DiskRight(processed: State, kind: Kind, batches: seq<seq<LabelItem>>, r: PhaseRun) {
    var saved := Loaded(r.disk);
    && r.completed <= |batches|
    && processed.Of(kind) + AllNumbers(batches, r.completed) <= saved.Of(kind) <= r.processed.Of(kind)
    && saved.Of(kind.Other()) == processed.Of(kind.Other())
    && r.processed.Of(kind) - saved.Of(kind) <= Interrupted(batches, r.completed)
  }

  /** A crash inside a save leaves an unreadable file; otherwise the file is right. */
  lemma {:induction false} PhaseDisk(processed: State, disk: Disk, kind: Kind, batches: seq<seq<LabelItem>>, steps: nat)
    requires Loaded(disk) == processed
    ensures var r := RunAll(processed, disk, kind, batches, false, steps);
            if r.crash == Saving then r.disk == None else DiskRight(processed, kind, batches, r)
    decreases |batches|
  {
    if batches != [] {
      var b := RunOne(processed, disk, kind, batches[0], false, steps);
      OneBatch(processed, disk, kind, batches[0], false, steps);
      if b.crash == NoCrash {
        var rest := RunAll(b.processed, b.disk, kind, batches[1..], false, b.left);
        PhaseDisk(b.processed, b.disk, kind, batches[1..], b.left);
        if rest.crash != Saving {
          DiskFromFront(processed, kind, batches, b, rest);
        }
      }
    }
  }

  lemma DiskFromFront(processed: State, kind: Kind, batches: seq<seq<LabelItem>>, b: BatchRun, rest: PhaseRun)
    requires batches != [] && b.processed == processed.Add(kind, b.handled)
    requires b.handled == Numbers(batches[0]) - processed.Of(kind)
    requires DiskRight(b.processed, kind, batches[1..], rest)
    ensures DiskRight(processed, kind, batches, Prepend(b, rest))
  {
    AllNumbersFromFront(batches, rest.completed + 1);
    if rest.completed + 1 < |batches| {
      assert batches[1..][rest.completed] == batches[rest.completed + 1];
    }
  }

  /** A dry run never touches the file. */
  lemma {:induction false} DryRunKeepsFile(processed: State, disk: Disk, kind: Kind, batches: seq<seq<LabelItem>>,
                                           steps: nat)
    ensures RunAll(processed, disk, kind, batches, true, steps).disk == disk
    ensures RunAll(processed, disk, kind, batches, true, steps).crash != Saving
    decreases |batches|
  {
    if batches != [] {
      var b := RunOne(processed, disk, kind, batches[0], true, steps);
      OneBatch(processed, disk, kind, batches[0], true, steps);
      if b.crash == NoCrash {
        DryRunKeepsFile(b.processed, b.disk, kind, batches[1..], b.left);
      }
    }
  }

  /** The file covers every completed batch. */
  ghost predicate Covers(disk: Disk, kind: Kind, batches: seq<seq<LabelItem>>, completed: nat)
    requires completed <= |batches|
  {
    forall b :: 0 <= b < completed ==> Numbers(batches[b]) <= Loaded(disk).Of(kind)
  }

  lemma {:induction false} CoversAllNumbers(disk: Disk, kind: Kind, batches: seq<seq<LabelItem>>, n: nat)
    requires n <= |batches|
    ensures Covers(disk, kind, batches, n) <==> AllNumbers(batches, n) <= Loaded(disk).Of(kind)
  {
    if n > 0 {
      CoversAllNumbers(disk, kind, batches, n - 1);
    }
  }

  /**
   Wherever a phase that applies labels stops: the state file covers every completed batch if
   and only if it did not stop inside a save, or every completed batch is empty. Inside a save
   the file is lost altogether, the other kind of item included.
   */
  lemma FileCoversIffNotSaving(processed: State, disk: Disk, kind: Kind, batches: seq<seq<LabelItem>>, steps: nat)
    requires Loaded(disk) == processed
    ensures var r := RunAll(processed, disk, kind, batches, false, steps);
            && r.completed <= |batches|
            && (Covers(r.disk, kind, batches, r.completed)
                <==> r.crash != Saving || forall b :: 0 <= b < r.completed ==> batches[b] == [])
            && (r.crash == Saving ==> Loaded(r.disk) == EMPTY)
  {
    PhaseMemory(processed, disk, kind, batches, false, steps);
    PhaseDisk(processed, disk, kind, batches, steps);
    var r := RunAll(processed, disk, kind, batches, false, steps);
    CoversAllNumbers(r.disk, kind, batches, r.completed);
    if b :| 0 <= b < r.completed && batches[b] != [] {
      assert batches[b][0].number in Numbers(batches[b]);
    }
  }

  /** Two batches of one item each, and a crash between truncating and writing the second time. */
  lemma CrashInSecondSaveForgets()
    ensures var batches := [[LabelItem(1, "", "", [])], [LabelItem(2, "", "", [])]];
            var r := RunAll(EMPTY, Some(EMPTY), Issues, batches, false, 5);
            r.completed == 1 && r.crash == Saving && !Covers(r.disk, Issues, batches, r.completed)
  {
    var one, two := LabelItem(1, "", "", []), LabelItem(2, "", "", []);
    var batches := [[one], [two]];
    assert Pending([one], {}) == [one] + Pending([], {}) == [one];
    assert Numbers([one]) == {1} by {
      assert [one][0].number == 1;
    }
    var first := RunOne(EMPTY, Some(EMPTY), Issues, [one], false, 5);
    assert first.crash == NoCrash && first.left == 2 && first.processed == State({1}, {});
    assert Pending([two], {1}) == [two] + Pending([], {1}) == [two];
    var second := RunOne(first.processed, first.disk, Issues, [two], false, 2);
    assert second.crash == Saving;
    assert batches[1..] == [[two]];
    var rest := RunAll(first.processed, first.disk, Issues, batches[1..], false, 2);
    assert rest.completed == 0 && rest.crash == Saving && rest.disk == None;
    var r := RunAll(EMPTY, Some(EMPTY), Issues, batches, false, 5);
    FileCoversIffNotSaving(EMPTY, Some(EMPTY), Issues, batches, 5);
    assert batches[0] != [];
  }

  /**
   What the next run handles again, if it gets through: after a crash inside a save everything
   recorded before that is still open; otherwise at most items of the interrupted batch.
   */
  lemma RestartHandlesAgain(processed: State, disk: Disk, kind: Kind, batches: seq<seq<LabelItem>>, steps: nat,
                            later: nat)
    requires Loaded(disk) == processed
    requires var r := RunAll(processed, disk, kind, batches, false, steps);
             RunAll(Loaded(r.disk), r.disk, kind, batches, false, later).crash == NoCrash
    ensures var r := RunAll(processed, disk, kind, batches, false, steps);
            var again := RunAll(Loaded(r.disk), r.disk, kind, batches, false, later).handled * r.processed.Of(kind);
            if r.crash == Saving then again == AllNumbers(batches, |batches|) * r.processed.Of(kind)
            else if r.completed < |batches| then again <= Numbers(batches[r.completed])
            else again == {}
  {
    var r := RunAll(processed, disk, kind, batches, false, steps);
    PhaseMemory(processed, disk, kind, batches, false, steps);
    PhaseDisk(processed, disk, kind, batches, steps);
    PhaseMemory(Loaded(r.disk), r.disk, kind, batches, false, later);
  }

  // ----- Both phases over the one file -----

  /** `main`: the issues first, and the pull requests only if that phase got through. */
  datatype MainRun = MainRun(issues: PhaseRun, pulls: Option<PhaseRun>) {
    function Disk(): Disk {
      if pulls.Some? then pulls.value.disk else issues.disk
    }

    function Crash(): Crash {
      if pulls.Some? then pulls.value.crash else issues.crash
    }

    /** How many batches of pull requests were completed. */
    function PullsCompleted(): nat {
      if pulls.Some? then pulls.value.completed else 0
    }
  }

  function RunBoth(processed: State, disk: Disk, issues: seq<seq<LabelItem>>, pulls: seq<seq<LabelItem>>,
                   dryRun: bool, steps: nat): MainRun
  {
    var first := RunAll(processed, disk, Issues, issues, dryRun, steps);
    MainRun(first, if first.crash != NoCrash then None
                   else Some(RunAll(first.processed, first.disk, PullRequests, pulls, dryRun, first.left)))
  }

  /** A phase that got through has saved all it remembers. */
  lemma PhaseSavesAll(processed: State, disk: Disk, kind: Kind, batches: seq<seq<LabelItem>>, steps: nat)
    requires Loaded(disk) == processed && RunAll(processed, disk, kind, batches, false, steps).crash == NoCrash
    ensures var r := RunAll(processed, disk, kind, batches, false, steps);
            Loaded(r.disk) == r.processed
  {
    PhaseMemory(processed, disk, kind, batches, false, steps);
    PhaseDisk(processed, disk, kind, batches, steps);
    var r := RunAll(processed, disk, kind, batches, false, steps);
    assert Loaded(r.disk).Of(kind) == r.processed.Of(kind);
    assert Loaded(r.disk).Of(kind.Other()) == r.processed.Of(kind.Other());
  }

  predicate AllEmpty(batches: seq<seq<LabelItem>>, n: nat)
    requires n <= |batches|
  {
    forall b :: 0 <= b < n ==> batches[b] == []
  }

  lemma EmptyIffNothingToCover(kind: Kind, batches: seq<seq<LabelItem>>, n: nat)
    requires n <= |batches|
    ensures Covers(None, kind, batches, n) <==> AllEmpty(batches, n)
  {
    if b :| 0 <= b < n && batches[b] != [] {
      assert batches[b][0].number in Numbers(batches[b]);
    }
  }

  /** Saving pull requests keeps what the file has of the issues. */
  lemma SecondPhaseKeepsIssues(first: PhaseRun, issues: seq<seq<LabelItem>>, pulls: seq<seq<LabelItem>>)
    requires Loaded(first.disk) == first.processed
    requires AllNumbers(issues, |issues|) <= first.processed.Of(Issues)
    ensures var r := RunAll(first.processed, first.disk, PullRequests, pulls, false, first.left);
            && r.completed <= |pulls|
            && (r.crash == Saving ==> r.disk == None)
            && (r.crash != Saving ==>
                  Covers(r.disk, Issues, issues, |issues|) && Covers(r.disk, PullRequests, pulls, r.completed))
  {
    var r := RunAll(first.processed, first.disk, PullRequests, pulls, false, first.left);
    PhaseMemory(first.processed, first.disk, PullRequests, pulls, false, first.left);
    PhaseDisk(first.processed, first.disk, PullRequests, pulls, first.left);
    CoversAllNumbers(r.disk, Issues, issues, |issues|);
    CoversAllNumbers(r.disk, PullRequests, pulls, r.completed);
  }

  /**
   Wherever the whole run stops: the file covers every completed batch, of issues and of pull
   requests, if and only if it did not stop inside a save, or every completed batch is empty.
   A crash inside a save of the second phase loses the first phase too.
   */
  lemma MainFileCoversIffNotSaving(processed: State, disk: Disk, issues: seq<seq<LabelItem>>,
                                   pulls: seq<seq<LabelItem>>, steps: nat)
    requires Loaded(disk) == processed
    ensures var m := RunBoth(processed, disk, issues, pulls, false, steps);
            && m.issues.completed <= |issues| && m.PullsCompleted() <= |pulls|
            && (m.pulls.Some? ==> m.issues.completed == |issues|)
            && (Covers(m.Disk(), Issues, issues, m.issues.completed)
                && Covers(m.Disk(), PullRequests, pulls, m.PullsCompleted())
                <==> m.Crash() != Saving
                     || (AllEmpty(issues, m.issues.completed) && AllEmpty(pulls, m.PullsCompleted())))
            && (m.Crash() == Saving ==> Loaded(m.Disk()) == EMPTY)
  {
    var m := RunBoth(processed, disk, issues, pulls, false, steps);
    PhaseMemory(processed, disk, Issues, issues, false, steps);
    FileCoversIffNotSaving(processed, disk, Issues, issues, steps);
    EmptyIffNothingToCover(Issues, issues, m.issues.completed);
    if m.pulls.Some? {
      PhaseSavesAll(processed, disk, Issues, issues, steps);
      SecondPhaseKeepsIssues(m.issues, issues, pulls);
      EmptyIffNothingToCover(PullRequests, pulls, m.pulls.value.completed);
    } else {
      PhaseDisk(processed, disk, Issues, issues, steps);
    }
  }

  lemma SingleBatchPhase(processed: State, disk: Disk, kind: Kind, batch: seq<LabelItem>, steps: nat)
    ensures var b := RunOne(processed, disk, kind, batch, false, steps);
            RunAll(processed, disk, kind, [batch], false, steps)
            == if b.crash != NoCrash then PhaseRun(b.processed, b.disk, 0, b.handled, 0, b.crash)
               else PhaseRun(b.processed, b.disk, 1, b.handled, b.left, NoCrash)
  {
    var b := RunOne(processed, disk, kind, batch, false, steps);
    assert [batch][1..] == [];
    assert RunAll(b.processed, b.disk, kind, [], false, b.left)
        == PhaseRun(b.processed, b.disk, 0, {}, b.left, NoCrash);
  }

  /** One issue, one pull request, and a crash inside the save of the second. */
  lemma CrashInPullRequestsForgetsIssues()
    ensures var issues, pulls := [[LabelItem(1, "", "", [])]], [[LabelItem(2, "", "", [])]];
            var m := RunBoth(EMPTY, Some(EMPTY), issues, pulls, false, 5);
            && m.pulls.Some? && m.Crash() == Saving && m.issues.completed == 1
            && !Covers(m.Disk(), Issues, issues, 1)
  {
    var one, two := LabelItem(1, "", "", []), LabelItem(2, "", "", []);
    assert Pending([one], {}) == [one] + Pending([], {}) == [one];
    assert Numbers([one]) == {1} by {
      assert [one][0].number == 1;
    }
    var first := RunOne(EMPTY, Some(EMPTY), Issues, [one], false, 5);
    assert first.crash == NoCrash && first.left == 2 && first.processed == State({1}, {});
    SingleBatchPhase(EMPTY, Some(EMPTY), Issues, [one], 5);
    var phase := RunAll(EMPTY, Some(EMPTY), Issues, [[one]], false, 5);
    assert phase.crash == NoCrash && phase.completed == 1 && phase.left == 2 && phase.processed == first.processed;
    assert Pending([two], {}) == [two] + Pending([], {}) == [two];
    var second := RunOne(phase.processed, phase.disk, PullRequests, [two], false, 2);
    assert second.crash == Saving;
    SingleBatchPhase(phase.processed, phase.disk, PullRequests, [two], 2);
    MainFileCoversIffNotSaving(EMPTY, Some(EMPTY), [[one]], [[two]], 5);
    assert [[one]][0] != [];
    assert Numbers([[one]][0]) == {1};
  }

  /** The processed sets in memory and the state file on disk. */
  class Labeler {
    var processed: State
    var disk: Disk

    /** `loadState`: a missing file is an empty one, an unreadable one is started afresh. */
    constructor (disk: Disk)
      ensures this.disk == disk && processed == Loaded(disk)
    {
      this.disk, processed := disk, disk.GetOr(EMPTY);
    }

    /** `saveState` with `steps` steps to go: the write replaces the file in place. */
    method Save(steps: nat) returns (saved: bool, left: nat)
      modifies `disk
      ensures saved <==> steps >= 2
      ensures disk == if saved then Some(processed) else if steps == 1 then None else old(disk)
      ensures left == if saved then steps - 2 else 0
    {
      if steps == 0 {
        return false, 0;
      }
      disk := None;
      if steps == 1 {
        return false, 0;
      }
      disk := Some(processed);
      return true, steps - 2;
    }

    /** Handles one item after the other as far as the steps go. */
    method HandleItems(kind: Kind, pending: seq<LabelItem>, steps: nat) returns (handled: set<int>, left: nat)
      modifies `processed
      ensures handled == Numbers(if steps < |pending| then pending[..steps] else pending)
      ensures processed == old(processed).Add(kind, handled)
      ensures left == if steps < |pending| then 0 else steps - |pending|
    {
      handled, left := {}, steps;
      for i := 0 to |pending|
        invariant left == steps - i && i <= steps
        invariant handled == Numbers(pending[..i]) && processed == old(processed).Add(kind, handled)
      {
        if left == 0 {
          return;
        }
        left := left - 1;
        NumbersOneMore(pending, i);
        processed := processed.Add(kind, {pending[i].number});
        handled := handled + {pending[i].number};
      }
      assert pending[..|pending|] == pending;
    }

    method RunBatch(kind: Kind, batch: seq<LabelItem>, dryRun: bool, steps: nat)
      returns (handled: set<int>, left: nat, crash: Crash)
      modifies this
      ensures BatchRun(processed, disk, handled, left, crash)
          == RunOne(old(processed), old(disk), kind, batch, dryRun, steps)
    {
      var pending := Pending(batch, processed.Of(kind));
      handled, left := HandleItems(kind, pending, steps);
      if steps < |pending| {
        return handled, left, Handling;
      }
      if dryRun || |pending| == 0 {
        return handled, left, NoCrash;
      }
      var truncating, saved := left == 1, false;
      saved, left := Save(left);
      return handled, left, if saved then NoCrash else if truncating then Saving else Handling;
    }

    /** One phase of `main`, cut short by a crash after `steps` steps. */
    method RunPhase(kind: Kind, batches: seq<seq<LabelItem>>, dryRun: bool, steps: nat)
      returns (completed: nat, handled: set<int>, left: nat, crash: Crash)
      modifies this
      ensures PhaseRun(processed, disk, completed, handled, left, crash)
           == RunAll(old(processed), old(disk), kind, batches, dryRun, steps)
    {
      completed, handled, left, crash := 0, {}, steps, NoCrash;
      ghost var whole := RunAll(processed, disk, kind, batches, dryRun, steps);
      while completed < |batches|
        invariant completed <= |batches| && crash == NoCrash
        invariant Continues(whole, completed, handled,
                            RunAll(processed, disk, kind, batches[completed..], dryRun, left))
      {
        ghost var rest := batches[completed..];
        assert rest[0] == batches[completed] && rest[1..] == batches[completed + 1..];
        ghost var b := RunOne(processed, disk, kind, batches[completed], dryRun, left);
        ContinuesWith(whole, completed, handled, processed, disk, kind, rest, dryRun, left);
        var now;
        now, left, crash := RunBatch(kind, batches[completed], dryRun, left);
        handled := handled + now;
        if crash != NoCrash {
          return;
        }
        completed := completed + 1;
      }
    }
  }

  /** Both phases of `main` over one memory and one file. */
  method RunMain(labeler: Labeler, issues: seq<seq<LabelItem>>, pulls: seq<seq<LabelItem>>, dryRun: bool, steps: nat)
    returns (crash: Crash, issuesCompleted: nat, pullsCompleted: nat)
    modifies labeler
    ensures var m := RunBoth(old(labeler.processed), old(labeler.disk), issues, pulls, dryRun, steps);
            && labeler.disk == m.Disk() && crash == m.Crash()
            && issuesCompleted == m.issues.completed && pullsCompleted == m.PullsCompleted()
            && labeler.processed == (if m.pulls.Some? then m.pulls.value.processed else m.issues.processed)
  {
    var handled, left;
    issuesCompleted, handled, left, crash := labeler.RunPhase(Issues, issues, dryRun, steps);
    if crash != NoCrash {
      return crash, issuesCompleted, 0;
    }
    pullsCompleted, handled, left, crash := labeler.RunPhase(PullRequests, pulls, dryRun, left);
  }

  /** What was done so far, and what is left to do, make up the whole phase. */
  ghost predicate Continues(whole: PhaseRun, completed: nat, handled: set<int>, rest: PhaseRun) {
    whole == rest.(completed := completed + rest.completed, handled := handled + rest.handled)
  }

  lemma ContinuesWith(whole: PhaseRun, completed: nat, handled: set<int>, processed: State, disk: Disk, kind: Kind,
                      rest: seq<seq<LabelItem>>, dryRun: bool, steps: nat)
    requires rest != [] && Continues(whole, completed, handled, RunAll(processed, disk, kind, rest, dryRun, steps))
    ensures var b := RunOne(processed, disk, kind, rest[0], dryRun, steps);
            if b.crash != NoCrash
            then whole == PhaseRun(b.processed, b.disk, completed, handled + b.handled, 0, b.crash) && b.left == 0
            else Continues(whole, completed + 1, handled + b.handled,
                           RunAll(b.processed, b.disk, kind, rest[1..], dryRun, b.left))
  {
    var b := RunOne(processed, disk, kind, rest[0], dryRun, steps);
    if b.crash == NoCrash {
      var more := RunAll(b.processed, b.disk, kind, rest[1..], dryRun, b.left);
      assert handled + (b.handled + more.handled) == (handled + b.handled) + more.handled;
    }
  }

  lemma NumbersOneMore(items: seq<LabelItem>, i: nat)
    requires i < |items|
    ensures Numbers(items[..i + 1]) == Numbers(items[..i]) + {items[i].number}
  {
    assert forall k :: 0 <= k < i ==> items[..i + 1][k] == items[k] == items[..i][k];
    assert items[..i + 1][i] == items[i];
  }
}
