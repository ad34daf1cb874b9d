/**
 The sync of one locale as the script performs it: classify every source key, translate
 what is queued, fill in fallbacks, rebuild the files and decide whether they changed.
 */
module LocaleSync {
  import opened Wrappers
  import opened Text
  import opened OrderedMap
  import opened TranslationTree
  import opened TranslationMemory
  import opened SyncSpec
  import opened Placeholders
  import TranslationBatches
  import Bisection
  import BatchTranslation

  type Item = TranslationBatches.Item

  datatype Options = Options(checkOnly: bool, write: bool, authOptional: bool, budget: int)

  datatype SyncOutcome =
    | Threw(message: string)
    | Skipped(fallbackCount: nat)
    | Done(changed: bool, wrote: bool, fallbackCount: nat)

  // ----- Classification -----

  function ItemFor(cfg: Config, key: string, text: string): Item {
    TranslationBatches.Item(KeyFor(cfg, key, text), key, text, cfg.hashText(text))
  }

  predicate Queued(cfg: Config, v: View, src: Entries<string>, i: int) {
    0 <= i < |src| && Decide(cfg, v, src[i].0, src[i].1).Queue?
  }

  /** The first `n` source keys that are not queued are settled. */
  ghost predicate Settled(cfg: Config, v: View, src: Entries<string>, n: nat, next: map<string, string>,
                          fallbackKeys: seq<string>)
    requires n <= |src|
  {
    && (forall k :: k in next ==> exists i :: 0 <= i < n && src[i].0 == k && !Queued(cfg, v, src, i))
    && (forall i :: 0 <= i < n && !Queued(cfg, v, src, i) ==>
          src[i].0 in next && next[src[i].0] == Settle(cfg, v, map[], src[i].0, src[i].1).text)
    && (forall x :: x in fallbackKeys <==> exists i :: 0 <= i < n && src[i].0 == x && KeepsFallback(cfg, v, src, i))
  }

  predicate KeepsFallback(cfg: Config, v: View, src: Entries<string>, i: int) {
    0 <= i < |src| && !Queued(cfg, v, src, i) && Settle(cfg, v, map[], src[i].0, src[i].1).fallback
  }

  /** The pending items are exactly those of the first `n` source keys that are queued. */
  ghost predicate Collects(cfg: Config, v: View, src: Entries<string>, n: nat, pending: seq<Item>)
    requires n <= |src|
  {
    && (forall i :: 0 <= i < n && Queued(cfg, v, src, i) ==> ItemFor(cfg, src[i].0, src[i].1) in pending)
    && (forall p :: p in pending ==>
          exists i :: 0 <= i < n && Queued(cfg, v, src, i) && p == ItemFor(cfg, src[i].0, src[i].1))
  }

  lemma SettleOneMore(cfg: Config, v: View, src: Entries<string>, n: nat, next: map<string, string>,
                      fallbackKeys: seq<string>)
    requires n < |src| && Distinct(src) && Settled(cfg, v, src, n, next, fallbackKeys)
    ensures var o := Settle(cfg, v, map[], src[n].0, src[n].1);
            if Queued(cfg, v, src, n) then Settled(cfg, v, src, n + 1, next, fallbackKeys)
            else Settled(cfg, v, src, n + 1, next[src[n].0 := o.text],
                         if o.fallback then fallbackKeys + [src[n].0] else fallbackKeys)
  {
    var o := Settle(cfg, v, map[], src[n].0, src[n].1);
    var keys := if KeepsFallback(cfg, v, src, n) then fallbackKeys + [src[n].0] else fallbackKeys;
    forall x
      ensures x in keys <==> exists i :: 0 <= i < n + 1 && src[i].0 == x && KeepsFallback(cfg, v, src, i)
    {
      assert x in keys <==> x in fallbackKeys || (KeepsFallback(cfg, v, src, n) && x == src[n].0);
    }
  }

  /** The items of the first `n` source keys that are queued, in order. */
  function QueuedItems(cfg: Config, v: View, src: Entries<string>, n: nat): seq<Item>
    requires n <= |src|
  {
    if n == 0 then []
    else if Queued(cfg, v, src, n - 1)
    then QueuedItems(cfg, v, src, n - 1) + [ItemFor(cfg, src[n - 1].0, src[n - 1].1)]
    else QueuedItems(cfg, v, src, n - 1)
  }

  lemma {:induction false} QueuedItemsAreCollected(cfg: Config, v: View, src: Entries<string>, n: nat)
    requires n <= |src|
    ensures Collects(cfg, v, src, n, QueuedItems(cfg, v, src, n))
  {
    if n > 0 {
      QueuedItemsAreCollected(cfg, v, src, n - 1);
      var before, item := QueuedItems(cfg, v, src, n - 1), ItemFor(cfg, src[n - 1].0, src[n - 1].1);
      assert forall p :: p in before + [item] <==> p in before || p == item;
    }
  }

  lemma MemoryOneMore(cfg: Config, v: View, src: Entries<string>, n: nat)
    requires n < |src|
    ensures var (key, text) := src[n];
            var before, after := MemoryAfter(cfg, v, map[], src, n), MemoryAfter(cfg, v, map[], src, n + 1);
            match Decide(cfg, v, key, text)
            case FromTextHash(e) => after == Put(before, KeyFor(cfg, key, text), CopyFor(cfg, e, key, text))
            case _ => after == before
  {}

  /** What the sync reads for a key mid-loop decides it as at the start. */
  lemma MemoryIsStillCurrent(cfg: Config, v: View, src: Entries<string>, n: nat)
    requires Collisionless(cfg) && Distinct(src) && n < |src|
    ensures var ck := KeyFor(cfg, src[n].0, src[n].1);
            Get(MemoryAfter(cfg, v, map[], src, n), ck) == Get(v.tm, ck)
  {
    var ck := KeyFor(cfg, src[n].0, src[n].1);
    forall i | 0 <= i < n ensures KeyFor(cfg, src[i].0, src[i].1) != ck {
      KeysAreSeparate(cfg, src[i].0, src[i].1, src[n].0, src[n].1);
    }
    OtherKeysDoNotInterfere(cfg, v, map[], src, n, ck);
  }

  /** The main loop over the source keys; the memory is updated while it is consulted. */
  method Classify(cfg: Config, v: View, src: Entries<string>)
    returns (next: map<string, string>, pending: seq<Item>, fallbackKeys: seq<string>, tm: Tm)
    requires Collisionless(cfg) && Distinct(src)
    ensures Settled(cfg, v, src, |src|, next, fallbackKeys)
    ensures pending == QueuedItems(cfg, v, src, |src|) && Collects(cfg, v, src, |src|, pending)
    ensures tm == MemoryAfter(cfg, v, map[], src, |src|)
  {
    next, pending, fallbackKeys, tm := map[], [], [], v.tm;
    for n := 0 to |src|
      invariant Settled(cfg, v, src, n, next, fallbackKeys) && pending == QueuedItems(cfg, v, src, n)
      invariant tm == MemoryAfter(cfg, v, map[], src, n)
    {
      var (key, text) := src[n];
      var textHash := cfg.hashText(text);
      var segmentCacheKey := KeyFor(cfg, key, text);
      MemoryIsStillCurrent(cfg, v, src, n);
      MemoryOneMore(cfg, v, src, n);
      var cached := Get(tm, segmentCacheKey);
      var existing := Get(v.existing, key);
      var shouldRefreshFallback := key in v.fallback;
      var shouldReuse := ShouldReuseExistingTranslation(cfg.allowTranslate, cfg.force, shouldRefreshFallback);
      SettleOneMore(cfg, v, src, n, next, fallbackKeys);
      if cached.Some? && shouldReuse {
        next := next[key := cached.value.translated];
        if shouldRefreshFallback {
          fallbackKeys := fallbackKeys + [key];
        }
        continue;
      }
      if textHash in v.byText && (shouldRefreshFallback || existing.None?) {
        var cachedByText := v.byText[textHash];
        next := next[key := cachedByText.translated];
        tm := Put(tm, segmentCacheKey, CopyFor(cfg, cachedByText, key, text));
        continue;
      }
      if existing.Some? && shouldReuse {
        next := next[key := existing.value];
        if shouldRefreshFallback {
          fallbackKeys := fallbackKeys + [key];
        }
        continue;
      }
      pending := pending + [ItemFor(cfg, key, text)];
    }
    QueuedItemsAreCollected(cfg, v, src, |src|);
  }

  // ----- Translation of the queued keys -----

  /** Items with one key, or with one cache key, are the same item. */
  ghost predicate Separate(items: seq<Item>) {
    forall p, q :: p in items && q in items && (p.key == q.key || p.cacheKey == q.cacheKey) ==> p == q
  }

  function EntryOf(cfg: Config, item: Item, value: string): TmEntry {
    TmEntry(item.cacheKey, cfg.model, cfg.provider, item.key, "ui/src/i18n/locales/" + cfg.fileName,
            SOURCE_LOCALE, item.text, item.textHash, cfg.locale, value, cfg.now)
  }

  function CacheKeys(items: seq<Item>): set<string> {
    set p | p in items :: p.cacheKey
  }

  function Names(items: seq<Item>): set<string> {
    set p | p in items :: p.key
  }

  lemma OneMoreItem(items: seq<Item>, item: Item)
    ensures CacheKeys(items + [item]) == CacheKeys(items) + {item.cacheKey}
    ensures Names(items + [item]) == Names(items) + {item.key}
    ensures forall p :: p in items + [item] <==> p in items || p == item
  {
    assert forall p :: p in items + [item] <==> p in items || p == item;
  }

  /** The memory is the earlier one updated with the answers for `items`. */
  ghost predicate Recorded(cfg: Config, items: seq<Item>, answers: map<string, string>, tm0: Tm, tm: Tm) {
    && (forall p :: p in items ==> p.key in answers && Get(tm, p.cacheKey) == Some(EntryOf(cfg, p, answers[p.key])))
    && (forall c :: c !in CacheKeys(items) ==> Get(tm, c) == Get(tm0, c))
  }

  /** Everything the answers for `items` changed, starting from `next0` and `tm0`. */
  ghost predicate Answered(cfg: Config, items: seq<Item>, answers: map<string, string>,
                           next0: map<string, string>, tm0: Tm, next: map<string, string>, tm: Tm)
  {
    && Recorded(cfg, items, answers, tm0, tm)
    && Given(items, answers, next0, next)
  }

  /** The answers name exactly the items, none is blank, and all are in the flat map. */
  ghost predicate Given(items: seq<Item>, answers: map<string, string>, next0: map<string, string>,
                        next: map<string, string>)
  {
    && answers.Keys == Names(items)
    && next == next0 + answers
    && forall k :: k in answers ==> !Blank(answers[k])
  }

  lemma RecordOneMore(cfg: Config, all: seq<Item>, items: seq<Item>, answers: map<string, string>,
                      tm0: Tm, tm: Tm, item: Item, value: string)
    requires Separate(all) && item in all && forall p :: p in items ==> p in all
    requires Recorded(cfg, items, answers, tm0, tm)
    ensures Recorded(cfg, items + [item], answers[item.key := value], tm0,
                     Put(tm, item.cacheKey, EntryOf(cfg, item, value)))
  {
    var e := EntryOf(cfg, item, value);
    var answers', tm' := answers[item.key := value], Put(tm, item.cacheKey, e);
    OneMoreItem(items, item);
    forall p | p in items + [item]
      ensures p.key in answers' && Get(tm', p.cacheKey) == Some(EntryOf(cfg, p, answers'[p.key]))
    {
      GetPut(tm, item.cacheKey, e, p.cacheKey);
      assert p in all;
      if p.key == item.key || p.cacheKey == item.cacheKey {
        assert p == item;
      }
    }
    forall c | c !in CacheKeys(items + [item]) ensures Get(tm', c) == Get(tm0, c) {
      GetPut(tm, item.cacheKey, e, c);
    }
  }

  lemma GiveOneMore(items: seq<Item>, answers: map<string, string>, next0: map<string, string>,
                    next: map<string, string>,
                    item: Item, value: string)
    requires Given(items, answers, next0, next) && !Blank(value)
    ensures Given(items + [item], answers[item.key := value], next0, next[item.key := value])
  {
    OneMoreItem(items, item);
  }

  lemma AnswerOneItem(cfg: Config, all: seq<Item>, items: seq<Item>, answers: map<string, string>,
                      next0: map<string, string>, tm0: Tm, next: map<string, string>, tm: Tm, item: Item, value: string)
    requires Separate(all) && item in all && (forall p :: p in items ==> p in all) && !Blank(value)
    requires Answered(cfg, items, answers, next0, tm0, next, tm)
    ensures Answered(cfg, items + [item], answers[item.key := value], next0, tm0, next[item.key := value],
                     Put(tm, item.cacheKey, EntryOf(cfg, item, value)))
  {
    assert Recorded(cfg, items + [item], answers[item.key := value], tm0,
                    Put(tm, item.cacheKey, EntryOf(cfg, item, value))) by {
      RecordOneMore(cfg, all, items, answers, tm0, tm, item, value);
    }
    assert Given(items + [item], answers[item.key := value], next0, next[item.key := value]) by {
      GiveOneMore(items, answers, next0, next, item, value);
    }
  }

  /** The earlier answers, and for the items of this batch what was translated just now. */
  ghost predicate Updated(answers: map<string, string>, earlier: map<string, string>,
                          translated: map<string, string>, items: seq<Item>)
  {
    && answers.Keys == earlier.Keys + Names(items)
    && forall k :: k in answers ==>
         if k in Names(items) then k in translated && answers[k] == translated[k]
         else k in earlier && answers[k] == earlier[k]
  }

  lemma UpdateOneMore(answers: map<string, string>, earlier: map<string, string>, translated: map<string, string>,
                      items: seq<Item>, item: Item)
    requires Updated(answers, earlier, translated, items) && item.key in translated
    ensures Updated(answers[item.key := translated[item.key]], earlier, translated, items + [item])
  {
    OneMoreItem(items, item);
  }

  lemma WholeUpdate(answers: map<string, string>, earlier: map<string, string>, translated: map<string, string>,
                    items: seq<Item>)
    requires Updated(answers, earlier, translated, items) && translated.Keys == BatchTranslation.KeysOf(items)
    ensures answers == earlier + translated
  {
    NamesAreKeys(items);
  }

  lemma TakenOneMore(done: seq<Item>, batch: seq<Item>, j: nat)
    requires j < |batch|
    ensures batch[..j] + [batch[j]] == batch[..j + 1]
    ensures (done + batch[..j]) + [batch[j]] == done + batch[..j + 1]
  {}

  lemma TakenNoneOrAll(done: seq<Item>, batch: seq<Item>)
    ensures done + batch[..0] == done && batch[..|batch|] == batch
  {}

  lemma NamesAreKeys(items: seq<Item>)
    ensures Names(items) == BatchTranslation.KeysOf(items)
  {
    forall k | k in Names(items) ensures k in BatchTranslation.KeysOf(items) {
      var p :| p in items && p.key == k;
    }
  }

  /** The inner loop over one translated batch. */
  method RecordBatch(cfg: Config, ghost all: seq<Item>, ghost done: seq<Item>, batch: seq<Item>,
                     translated: map<string, string>,
                     ghost next0: map<string, string>, ghost tm0: Tm,
                     answers0: map<string, string>, next1: map<string, string>, tm1: Tm)
    returns (next: map<string, string>, answers: map<string, string>, tm: Tm)
    requires Separate(all) && forall p :: p in done || p in batch ==> p in all
    requires Answered(cfg, done, answers0, next0, tm0, next1, tm1)
    requires translated.Keys == BatchTranslation.KeysOf(batch) && forall k :: k in translated ==> !Blank(translated[k])
    ensures Answered(cfg, done + batch, answers, next0, tm0, next, tm)
    ensures answers == answers0 + translated
  {
    next, answers, tm := next1, answers0, tm1;
    TakenNoneOrAll(done, batch);
    for j := 0 to |batch|
      invariant Answered(cfg, done + batch[..j], answers, next0, tm0, next, tm)
      invariant Updated(answers, answers0, translated, batch[..j])
    {
      var item := batch[j];
      assert item.key in BatchTranslation.KeysOf(batch);
      var value := translated[item.key];
      AnswerOneItem(cfg, all, done + batch[..j], answers, next0, tm0, next, tm, item, value);
      UpdateOneMore(answers, answers0, translated, batch[..j], item);
      TakenOneMore(done, batch, j);
      next := next[item.key := value];
      answers := answers[item.key := value];
      tm := Put(tm, item.cacheKey, EntryOf(cfg, item, value));
    }
    WholeUpdate(answers, answers0, translated, batch);
  }

  lemma WholeBatchIsPending(done: seq<Item>, batch: seq<Item>, rest: seq<Item>, pending: seq<Item>)
    requires done + (batch + rest) == pending
    ensures forall p :: p in done || p in batch ==> p in pending
    ensures (done + batch) + rest == pending && |pending| >= |done| + |batch|
  {}

  /** A loop's result, answers and prompt count are those of this trace. */
  ghost predicate Follows(t: Bisection.Trace, r: Result<map<string, string>, string>, answers: map<string, string>,
                          sent: nat)
  {
    sent == |t.prompts| && t.result == if r.Ok? then Ok(answers) else Err(r.error)
  }

  /** One batch in its turn, and its answers recorded. */
  method SendBatch(cfg: Config, ghost all: seq<Item>, ghost done: seq<Item>, batch: seq<Item>,
                   reply: nat -> BatchTranslation.Reply, ghost before: Bisection.Trace, sent0: nat,
                   ghost next0: map<string, string>, ghost tm0: Tm,
                   answers0: map<string, string>, next1: map<string, string>, tm1: Tm)
    returns (r: Result<map<string, string>, string>, answers: map<string, string>, tm: Tm, sent: nat)
    requires |batch| >= 1 && Separate(all) && forall p :: p in done || p in batch ==> p in all
    requires Answered(cfg, done, answers0, next0, tm0, next1, tm1)
    requires Follows(before, Ok(next1), answers0, sent0)
    ensures r.Ok? ==> Answered(cfg, done + batch, answers, next0, tm0, r.value, tm)
    ensures var t := Bisection.Run(batch, 0, BatchTranslation.Under(reply), sent0);
            Follows(Bisection.AndThen(before, t), r, answers, sent)
  {
    var translated, prompts := BatchTranslation.TranslateBatch(batch, 0, reply, sent0);
    sent := sent0 + |prompts|;
    if translated.Err? {
      return translated, answers0, tm1, sent;
    }
    BatchIsCovered(batch, reply, sent0);
    var next;
    next, answers, tm := RecordBatch(cfg, all, done, batch, translated.value, next0, tm0, answers0, next1, tm1);
    r := Ok(next);
  }

  /** A translated batch has a non-blank value for each of its keys, and no other. */
  lemma BatchIsCovered(batch: seq<Item>, reply: nat -> BatchTranslation.Reply, sent: nat)
    requires |batch| >= 1
    ensures var r := Bisection.Run(batch, 0, BatchTranslation.Under(reply), sent).result;
            r.Ok? ==> r.value.Keys == BatchTranslation.KeysOf(batch) && forall k :: k in r.value ==> !Blank(r.value[k])
  {
    BatchTranslation.ResultsCover(batch, 0, reply, sent, Bisection.TRANSLATE_MAX_ATTEMPTS);
  }

  /** Sends the batches in turn, up to the first that is given up, and records every answer. */
  method SendBatches(cfg: Config, batches: seq<seq<Item>>, reply: nat -> BatchTranslation.Reply,
                     next0: map<string, string>, tm0: Tm)
    returns (r: Result<map<string, string>, string>, answers: map<string, string>, tm: Tm, sent: nat)
    requires Separate(TranslationBatches.Flatten(batches)) && Bisection.NoneEmpty(batches)
    ensures r.Ok? ==> Answered(cfg, TranslationBatches.Flatten(batches), answers, next0, tm0, r.value, tm)
    ensures Follows(Bisection.SendAll(batches, |batches|, BatchTranslation.Under(reply)), r, answers, sent)
  {
    ghost var all, outcome := TranslationBatches.Flatten(batches), BatchTranslation.Under(reply);
    answers, tm, sent, r := map[], tm0, 0, Ok(next0);
    ghost var done: seq<Item> := [];
    for b := 0 to |batches|
      invariant done + TranslationBatches.Flatten(batches[b..]) == all
      invariant r.Ok? && Answered(cfg, done, answers, next0, tm0, r.value, tm)
      invariant Follows(Bisection.SendAll(batches, b, outcome), r, answers, sent)
    {
      var batch := batches[b];
      assert batches[b..][0] == batch && batches[b..][1..] == batches[b + 1..];
      WholeBatchIsPending(done, batch, TranslationBatches.Flatten(batches[b + 1..]), all);
      ghost var before := Bisection.SendAll(batches, b, outcome);
      r, answers, tm, sent := SendBatch(cfg, all, done, batch, reply, before, sent, next0, tm0, answers, r.value, tm);
      if r.Err? {
        Bisection.GivenUpStays(batches, b + 1, |batches|, outcome);
        return;
      }
      done := done + batch;
    }
    assert TranslationBatches.Flatten(batches[|batches|..]) == [];
    assert done == all;
  }

  /** The batches for these items. */
  function BatchesOf(items: seq<Item>, budget: int): (batches: seq<seq<Item>>)
    ensures TranslationBatches.Partition(batches, items, budget) && Bisection.NoneEmpty(batches)
  {
    TranslationBatches.GreedyIsPartition([], items, budget);
    assert [] + items == items;
    TranslationBatches.Greedy([], items, budget)
  }

  /** Batches the queued items and sends them. */
  method TranslatePending(cfg: Config, pending: seq<Item>, budget: int, reply: nat -> BatchTranslation.Reply,
                          next0: map<string, string>, tm0: Tm)
    returns (r: Result<map<string, string>, string>, answers: map<string, string>, tm: Tm, sent: nat)
    requires Separate(pending)
    ensures r.Ok? ==> Answered(cfg, pending, answers, next0, tm0, r.value, tm)
    ensures var batches := BatchesOf(pending, budget);
            Follows(Bisection.SendAll(batches, |batches|, BatchTranslation.Under(reply)), r, answers, sent)
  {
    var batches := TranslationBatches.BuildTranslationBatches(pending, budget);
    assert batches == BatchesOf(pending, budget);
    r, answers, tm, sent := SendBatches(cfg, batches, reply, next0, tm0);
  }

  // ----- Fallbacks for what is still missing -----

  function FillText(cfg: Config, v: View, p: Item): string {
    var existing := Get(v.existing, p.key);
    if existing.Some? && !cfg.force then existing.value else p.text
  }

  predicate FillIsFallback(cfg: Config, v: View, p: Item) {
    Get(v.existing, p.key).Some? && !cfg.force ==> p.key in v.fallback
  }

  /** Pending keys that were missing are filled in, and recorded where they are fallbacks. */
  ghost predicate Filled(cfg: Config, v: View, items: seq<Item>, next0: map<string, string>, fallback0: seq<string>,
                         next: map<string, string>, fallbackKeys: seq<string>)
  {
    && FilledIn(cfg, v, items, next0, next)
    && (forall x :: x in fallbackKeys <==> x in fallback0 || FillsFallback(cfg, v, items, next0, x))
  }

  ghost predicate FilledIn(cfg: Config, v: View, items: seq<Item>, next0: map<string, string>,
                           next: map<string, string>)
  {
    && next.Keys == next0.Keys + Names(items)
    && (forall k :: k in next0 ==> k in next && next[k] == next0[k])
    && (forall p :: p in items && p.key !in next0 ==> p.key in next && next[p.key] == FillText(cfg, v, p))
  }

  /** Is `x` the key of an item that was missing and is filled in as a fallback? */
  ghost predicate FillsFallback(cfg: Config, v: View, items: seq<Item>, next0: map<string, string>, x: string) {
    exists p :: p in items && p.key == x && p.key !in next0 && FillIsFallback(cfg, v, p)
  }

  lemma FillInOneMore(cfg: Config, v: View, all: seq<Item>, items: seq<Item>, next0: map<string, string>,
                      next: map<string, string>, item: Item)
    requires Separate(all) && item in all && forall p :: p in items ==> p in all
    requires FilledIn(cfg, v, items, next0, next)
    ensures FilledIn(cfg, v, items + [item], next0,
                     if item.key in next then next else next[item.key := FillText(cfg, v, item)])
    ensures item.key in next && item.key !in next0 ==> item in items
  {
    OneMoreItem(items, item);
    if item.key in next && item.key !in next0 {
      var q :| q in items && q.key == item.key;
      assert q == item;
    }
  }

  lemma FillsOneMore(cfg: Config, v: View, items: seq<Item>, next0: map<string, string>, item: Item, x: string)
    ensures FillsFallback(cfg, v, items + [item], next0, x) <==>
              FillsFallback(cfg, v, items, next0, x)
              || (x == item.key && item.key !in next0 && FillIsFallback(cfg, v, item))
  {
    OneMoreItem(items, item);
  }

  lemma FillOneMore(cfg: Config, v: View, all: seq<Item>, items: seq<Item>, next0: map<string, string>,
                    fallback0: seq<string>,
                    next: map<string, string>, fallbackKeys: seq<string>, item: Item)
    requires Separate(all) && item in all && forall p :: p in items ==> p in all
    requires Filled(cfg, v, items, next0, fallback0, next, fallbackKeys)
    ensures if item.key in next then Filled(cfg, v, items + [item], next0, fallback0, next, fallbackKeys)
            else Filled(cfg, v, items + [item], next0, fallback0, next[item.key := FillText(cfg, v, item)],
                        if FillIsFallback(cfg, v, item) then fallbackKeys + [item.key] else fallbackKeys)
  {
    FillInOneMore(cfg, v, all, items, next0, next, item);
    var keys := if item.key !in next && FillIsFallback(cfg, v, item) then fallbackKeys + [item.key] else fallbackKeys;
    forall x ensures x in keys <==> x in fallback0 || FillsFallback(cfg, v, items + [item], next0, x) {
      FillsOneMore(cfg, v, items, next0, item, x);
      assert x in keys <==> x in fallbackKeys || (item.key !in next && FillIsFallback(cfg, v, item) && x == item.key);
    }
  }

  /** Fills in one key that is still missing. */
  method FillOne(cfg: Config, v: View, item: Item, ghost all: seq<Item>, ghost done: seq<Item>,
                 ghost next0: map<string, string>, ghost fallback0: seq<string>,
                 next1: map<string, string>, fallback1: seq<string>)
    returns (next: map<string, string>, fallbackKeys: seq<string>)
    requires Separate(all) && item in all && forall p :: p in done ==> p in all
    requires Filled(cfg, v, done, next0, fallback0, next1, fallback1)
    ensures Filled(cfg, v, done + [item], next0, fallback0, next, fallbackKeys)
  {
    FillOneMore(cfg, v, all, done, next0, fallback0, next1, fallback1, item);
    next, fallbackKeys := next1, fallback1;
    if item.key in next {
      return;
    }
    var existing := Get(v.existing, item.key);
    if existing.Some? && !cfg.force {
      next := next[item.key := existing.value];
      if item.key in v.fallback {
        fallbackKeys := fallbackKeys + [item.key];
      }
      return;
    }
    next := next[item.key := item.text];
    fallbackKeys := fallbackKeys + [item.key];
  }

  /** The last loop over the pending items. */
  method FillFallbacks(cfg: Config, v: View, pending: seq<Item>, next0: map<string, string>, fallback0: seq<string>)
    returns (next: map<string, string>, fallbackKeys: seq<string>)
    requires Separate(pending)
    ensures Filled(cfg, v, pending, next0, fallback0, next, fallbackKeys)
  {
    next, fallbackKeys := next0, fallback0;
    ghost var done: seq<Item> := [];
    for j := 0 to |pending|
      invariant done == pending[..j]
      invariant Filled(cfg, v, done, next0, fallback0, next, fallbackKeys)
    {
      next, fallbackKeys := FillOne(cfg, v, pending[j], pending, done, next0, fallback0, next, fallbackKeys);
      done := done + [pending[j]];
    }
    assert done == pending;
  }

  // ----- The loops together compute the specification -----

  lemma PendingIsSeparate(cfg: Config, v: View, src: Entries<string>, pending: seq<Item>)
    requires Collisionless(cfg) && Distinct(src) && Collects(cfg, v, src, |src|, pending)
    ensures Separate(pending)
  {
    forall p, q | p in pending && q in pending && (p.key == q.key || p.cacheKey == q.cacheKey) ensures p == q {
      var i :| 0 <= i < |src| && Queued(cfg, v, src, i) && p == ItemFor(cfg, src[i].0, src[i].1);
      var j :| 0 <= j < |src| && Queued(cfg, v, src, j) && q == ItemFor(cfg, src[j].0, src[j].1);
      KeysAreSeparate(cfg, src[i].0, src[i].1, src[j].0, src[j].1);
      assert i == j;
    }
  }

  /** Everything the three loops establish. */
  ghost predicate Looped(cfg: Config, v: View, src: Entries<string>, pending: seq<Item>, answers: map<string, string>,
                         next0: map<string, string>, fallback0: seq<string>, next1: map<string, string>, tm: Tm,
                         next: map<string, string>, fallbackKeys: seq<string>)
  {
    && Settled(cfg, v, src, |src|, next0, fallback0)
    && Collects(cfg, v, src, |src|, pending)
    && Answered(cfg, if cfg.allowTranslate then pending else [], answers, next0,
                MemoryAfter(cfg, v, map[], src, |src|), next1, tm)
    && Filled(cfg, v, pending, next1, fallback0, next, fallbackKeys)
  }

  lemma AnsweredKeysAreQueued(cfg: Config, v: View, src: Entries<string>, pending: seq<Item>,
                              answers: map<string, string>, i: nat)
    requires Distinct(src) && i < |src| && Collects(cfg, v, src, |src|, pending)
    requires answers.Keys == Names(if cfg.allowTranslate then pending else [])
    ensures src[i].0 in answers <==> cfg.allowTranslate && Queued(cfg, v, src, i)
  {
    if src[i].0 in answers {
      var p :| p in pending && p.key == src[i].0;
      var j :| 0 <= j < |src| && Queued(cfg, v, src, j) && p == ItemFor(cfg, src[j].0, src[j].1);
      assert i == j;
    }
    if cfg.allowTranslate && Queued(cfg, v, src, i) {
      assert ItemFor(cfg, src[i].0, src[i].1) in pending;
    }
  }

  lemma LoopedAnswersFit(cfg: Config, v: View, src: Entries<string>, pending: seq<Item>, answers: map<string, string>)
    requires Distinct(src) && Collects(cfg, v, src, |src|, pending)
    requires answers.Keys == Names(if cfg.allowTranslate then pending else [])
    requires forall k :: k in answers ==> !Blank(answers[k])
    ensures AnswersFit(cfg, v, src, answers)
  {
    forall i | 0 <= i < |src| && cfg.allowTranslate && Decide(cfg, v, src[i].0, src[i].1).Queue?
      ensures src[i].0 in answers
    {
      AnsweredKeysAreQueued(cfg, v, src, pending, answers, i);
    }
    forall k | k in answers
      ensures cfg.allowTranslate && exists i :: 0 <= i < |src| && src[i].0 == k && Decide(cfg, v, k, src[i].1).Queue?
    {
      var p :| p in pending && p.key == k;
      var j :| 0 <= j < |src| && Queued(cfg, v, src, j) && p == ItemFor(cfg, src[j].0, src[j].1);
    }
  }

  /** A key that was not queued keeps its text through the later loops. */
  lemma KeptText(cfg: Config, v: View, src: Entries<string>, pending: seq<Item>, answers: map<string, string>,
                 next0: map<string, string>, fallback0: seq<string>, next1: map<string, string>, tm: Tm,
                 next: map<string, string>, fallbackKeys: seq<string>, i: nat)
    requires Distinct(src) && i < |src| && !Queued(cfg, v, src, i)
    requires Looped(cfg, v, src, pending, answers, next0, fallback0, next1, tm, next, fallbackKeys)
    ensures src[i].0 in next && next[src[i].0] == Settle(cfg, v, answers, src[i].0, src[i].1).text
  {
    AnsweredKeysAreQueued(cfg, v, src, pending, answers, i);
    assert src[i].0 in next0 && src[i].0 in next1;
  }

  /** A queued key has its answer, or what the fallback loop filled in. */
  lemma QueuedText(cfg: Config, v: View, src: Entries<string>, pending: seq<Item>, answers: map<string, string>,
                   next0: map<string, string>, fallback0: seq<string>, next1: map<string, string>, tm: Tm,
                   next: map<string, string>, fallbackKeys: seq<string>, i: nat)
    requires Distinct(src) && i < |src| && Queued(cfg, v, src, i)
    requires Looped(cfg, v, src, pending, answers, next0, fallback0, next1, tm, next, fallbackKeys)
    ensures src[i].0 in next && next[src[i].0] == Settle(cfg, v, answers, src[i].0, src[i].1).text
  {
    var key, p := src[i].0, ItemFor(cfg, src[i].0, src[i].1);
    assert key in answers <==> cfg.allowTranslate by {
      AnsweredKeysAreQueued(cfg, v, src, pending, answers, i);
    }
    assert p in pending && key !in next0;
    assert next1 == next0 + answers;
    assert next[key] == if key in answers then answers[key] else FillText(cfg, v, p) by {
      FilledText(cfg, v, pending, next1, fallback0, next, fallbackKeys, p);
    }
    SettleOfQueued(cfg, v, answers, key, src[i].1);
  }

  lemma FilledText(cfg: Config, v: View, items: seq<Item>, next0: map<string, string>, fallback0: seq<string>,
                   next: map<string, string>, fallbackKeys: seq<string>, p: Item)
    requires Filled(cfg, v, items, next0, fallback0, next, fallbackKeys) && p in items
    ensures p.key in next && next[p.key] == if p.key in next0 then next0[p.key] else FillText(cfg, v, p)
  {}

  lemma SettleOfQueued(cfg: Config, v: View, answers: map<string, string>, key: string, text: string)
    requires Decide(cfg, v, key, text).Queue?
    ensures Settle(cfg, v, answers, key, text).text
         == if key in answers then answers[key] else FillText(cfg, v, ItemFor(cfg, key, text))
  {}

  lemma LoopedText(cfg: Config, v: View, src: Entries<string>, pending: seq<Item>, answers: map<string, string>,
                   next0: map<string, string>, fallback0: seq<string>, next1: map<string, string>, tm: Tm,
                   next: map<string, string>, fallbackKeys: seq<string>, i: nat)
    requires Distinct(src) && i < |src|
    requires Looped(cfg, v, src, pending, answers, next0, fallback0, next1, tm, next, fallbackKeys)
    ensures src[i].0 in next && next[src[i].0] == Settle(cfg, v, answers, src[i].0, src[i].1).text
  {
    if Queued(cfg, v, src, i) {
      QueuedText(cfg, v, src, pending, answers, next0, fallback0, next1, tm, next, fallbackKeys, i);
    } else {
      KeptText(cfg, v, src, pending, answers, next0, fallback0, next1, tm, next, fallbackKeys, i);
    }
  }

  lemma LoopedFallback(cfg: Config, v: View, src: Entries<string>, pending: seq<Item>, answers: map<string, string>,
                       next0: map<string, string>, fallback0: seq<string>, next1: map<string, string>, tm: Tm,
                       next: map<string, string>, fallbackKeys: seq<string>)
    requires Distinct(src)
    requires Looped(cfg, v, src, pending, answers, next0, fallback0, next1, tm, next, fallbackKeys)
    ensures forall x :: x in fallbackKeys <==> x in FallbackKeys(cfg, v, answers, src, |src|)
  {
    FallbackKeysAre(cfg, v, answers, src, |src|);
    forall i | 0 <= i < |src|
      ensures src[i].0 in fallbackKeys <==> Settle(cfg, v, answers, src[i].0, src[i].1).fallback
    {
      LoopedFallbackOfKey(cfg, v, src, pending, answers, next0, fallback0, next, fallbackKeys, i);
    }
    forall x | x in fallbackKeys ensures exists i :: 0 <= i < |src| && src[i].0 == x {
      if x !in fallback0 {
        var p :| p in pending && p.key == x;
      }
    }
  }

  lemma LoopedFallbackOfKey(cfg: Config, v: View, src: Entries<string>, pending: seq<Item>,
                            answers: map<string, string>,
                            next0: map<string, string>, fallback0: seq<string>,
                            next: map<string, string>, fallbackKeys: seq<string>, i: nat)
    requires Distinct(src) && i < |src|
    requires Settled(cfg, v, src, |src|, next0, fallback0) && Collects(cfg, v, src, |src|, pending)
    requires answers.Keys == Names(if cfg.allowTranslate then pending else [])
    requires Filled(cfg, v, pending, next0 + answers, fallback0, next, fallbackKeys)
    ensures src[i].0 in fallbackKeys <==> Settle(cfg, v, answers, src[i].0, src[i].1).fallback
  {
    var key, item := src[i].0, ItemFor(cfg, src[i].0, src[i].1);
    assert key in answers <==> cfg.allowTranslate && Queued(cfg, v, src, i) by {
      AnsweredKeysAreQueued(cfg, v, src, pending, answers, i);
    }
    assert (key in fallback0 <==> KeepsFallback(cfg, v, src, i)) && (key in next0 <==> !Queued(cfg, v, src, i)) by {
      SettledFallbackOfKey(cfg, v, src, next0, fallback0, i);
    }
    assert item in pending <==> Queued(cfg, v, src, i) by {
      OnlyItemWithKey(cfg, v, src, pending, i);
    }
    assert key in fallbackKeys <==>
             key in fallback0 || (item in pending && key !in next0 + answers && FillIsFallback(cfg, v, item)) by {
      OnlyItemWithKey(cfg, v, src, pending, i);
      FilledFallbackOfKey(cfg, v, pending, next0 + answers, fallback0, next, fallbackKeys, item);
    }
    SettledFallback(cfg, v, answers, src[i].0, src[i].1);
  }

  lemma SettledFallback(cfg: Config, v: View, answers: map<string, string>, key: string, text: string)
    ensures Settle(cfg, v, answers, key, text).fallback <==>
              if Decide(cfg, v, key, text).Queue?
              then key !in answers && FillIsFallback(cfg, v, ItemFor(cfg, key, text))
              else Settle(cfg, v, map[], key, text).fallback
  {}

  lemma SettledFallbackOfKey(cfg: Config, v: View, src: Entries<string>, next0: map<string, string>,
                             fallback0: seq<string>, i: nat)
    requires Distinct(src) && i < |src| && Settled(cfg, v, src, |src|, next0, fallback0)
    ensures src[i].0 in fallback0 <==> KeepsFallback(cfg, v, src, i)
    ensures src[i].0 in next0 <==> !Queued(cfg, v, src, i)
  {}

  lemma OnlyItemWithKey(cfg: Config, v: View, src: Entries<string>, pending: seq<Item>, i: nat)
    requires Distinct(src) && i < |src| && Collects(cfg, v, src, |src|, pending)
    ensures forall q :: q in pending && q.key == src[i].0 ==> q == ItemFor(cfg, src[i].0, src[i].1)
    ensures ItemFor(cfg, src[i].0, src[i].1) in pending <==> Queued(cfg, v, src, i)
  {
    forall q | q in pending && q.key == src[i].0
      ensures q == ItemFor(cfg, src[i].0, src[i].1) && Queued(cfg, v, src, i)
    {
      var j :| 0 <= j < |src| && Queued(cfg, v, src, j) && q == ItemFor(cfg, src[j].0, src[j].1);
      assert i == j;
    }
  }

  lemma FilledFallbackOfKey(cfg: Config, v: View, items: seq<Item>, next0: map<string, string>, fallback0: seq<string>,
                            next: map<string, string>, fallbackKeys: seq<string>, item: Item)
    requires Filled(cfg, v, items, next0, fallback0, next, fallbackKeys)
    requires forall q :: q in items && q.key == item.key ==> q == item
    ensures item.key in fallbackKeys <==>
              item.key in fallback0 || (item in items && item.key !in next0 && FillIsFallback(cfg, v, item))
  {}

  lemma CacheKeysAreQueued(cfg: Config, v: View, src: Entries<string>, pending: seq<Item>, i: nat)
    requires Collisionless(cfg) && Distinct(src) && i < |src| && Collects(cfg, v, src, |src|, pending)
    ensures KeyFor(cfg, src[i].0, src[i].1) in CacheKeys(pending) <==> Queued(cfg, v, src, i)
  {
    var ck := KeyFor(cfg, src[i].0, src[i].1);
    if ck in CacheKeys(pending) {
      var p :| p in pending && p.cacheKey == ck;
      var j :| 0 <= j < |src| && Queued(cfg, v, src, j) && p == ItemFor(cfg, src[j].0, src[j].1);
      KeysAreSeparate(cfg, src[i].0, src[i].1, src[j].0, src[j].1);
      assert i == j;
    }
    if Queued(cfg, v, src, i) {
      assert ItemFor(cfg, src[i].0, src[i].1) in pending;
    }
  }

  lemma RememberedOrNot(cfg: Config, v: View, answers: map<string, string>, key: string, text: string)
    ensures key !in answers ==> Remember(cfg, v, answers, key, text) == Remember(cfg, v, map[], key, text)
    ensures key in answers && Decide(cfg, v, key, text).Queue? ==>
              Remember(cfg, v, answers, key, text) == Some(EntryOf(cfg, ItemFor(cfg, key, text), answers[key]))
  {}

  lemma RecordedEntry(cfg: Config, items: seq<Item>, answers: map<string, string>, tm0: Tm, tm: Tm, item: Item)
    requires Recorded(cfg, items, answers, tm0, tm)
    ensures item in items ==>
              item.key in answers && Get(tm, item.cacheKey) == Some(EntryOf(cfg, item, answers[item.key]))
    ensures item.cacheKey !in CacheKeys(items) ==> Get(tm, item.cacheKey) == Get(tm0, item.cacheKey)
  {}

  lemma LoopedMemoryAt(cfg: Config, v: View, src: Entries<string>, pending: seq<Item>, answers: map<string, string>,
                       tm: Tm, i: nat)
    requires Collisionless(cfg) && Distinct(src) && i < |src| && Collects(cfg, v, src, |src|, pending)
    requires Recorded(cfg, if cfg.allowTranslate then pending else [], answers,
                      MemoryAfter(cfg, v, map[], src, |src|), tm)
    requires answers.Keys == Names(if cfg.allowTranslate then pending else [])
    ensures var ck := KeyFor(cfg, src[i].0, src[i].1);
            Get(tm, ck) == Get(MemoryAfter(cfg, v, answers, src, |src|), ck)
  {
    MemoryAt(cfg, v, map[], src, |src|, i);
    MemoryAt(cfg, v, answers, src, |src|, i);
    AnsweredKeysAreQueued(cfg, v, src, pending, answers, i);
    CacheKeysAreQueued(cfg, v, src, pending, i);
    RememberedOrNot(cfg, v, answers, src[i].0, src[i].1);
    RecordedEntry(cfg, if cfg.allowTranslate then pending else [], answers, MemoryAfter(cfg, v, map[], src, |src|), tm,
                  ItemFor(cfg, src[i].0, src[i].1));
  }

  /** Both ways of writing the memory answer every lookup alike. */
  lemma LoopedMemory(cfg: Config, v: View, src: Entries<string>, pending: seq<Item>, answers: map<string, string>,
                     tm: Tm)
    requires Collisionless(cfg) && Distinct(src) && Collects(cfg, v, src, |src|, pending)
    requires Recorded(cfg, if cfg.allowTranslate then pending else [], answers,
                      MemoryAfter(cfg, v, map[], src, |src|), tm)
    requires answers.Keys == Names(if cfg.allowTranslate then pending else [])
    ensures Agree(tm, MemoryAfter(cfg, v, answers, src, |src|))
  {
    forall c ensures Get(tm, c) == Get(MemoryAfter(cfg, v, answers, src, |src|), c) {
      if i :| 0 <= i < |src| && KeyFor(cfg, src[i].0, src[i].1) == c {
        LoopedMemoryAt(cfg, v, src, pending, answers, tm, i);
      } else {
        OtherKeysDoNotInterfere(cfg, v, map[], src, |src|, c);
        OtherKeysDoNotInterfere(cfg, v, answers, src, |src|, c);
      }
    }
  }

  /** The loops settle every key, collect the fallbacks and write the memory as specified. */
  ghost predicate Specified(cfg: Config, v: View, src: Entries<string>, answers: map<string, string>,
                            next: map<string, string>, fallbackKeys: seq<string>, tm: Tm)
  {
    && AnswersFit(cfg, v, src, answers)
    && (forall i :: 0 <= i < |src| ==>
          src[i].0 in next && next[src[i].0] == Settle(cfg, v, answers, src[i].0, src[i].1).text)
    && (forall x :: x in fallbackKeys <==> x in FallbackKeys(cfg, v, answers, src, |src|))
    && Agree(tm, MemoryAfter(cfg, v, answers, src, |src|))
  }

  lemma LoopedIsSpecified(cfg: Config, v: View, src: Entries<string>, pending: seq<Item>, answers: map<string, string>,
                          next0: map<string, string>, fallback0: seq<string>, next1: map<string, string>, tm: Tm,
                          next: map<string, string>, fallbackKeys: seq<string>)
    requires Collisionless(cfg) && Distinct(src)
    requires Looped(cfg, v, src, pending, answers, next0, fallback0, next1, tm, next, fallbackKeys)
    ensures Specified(cfg, v, src, answers, next, fallbackKeys, tm)
  {
    assert AnswersFit(cfg, v, src, answers) by {
      LoopedAnswersFit(cfg, v, src, pending, answers);
    }
    assert Agree(tm, MemoryAfter(cfg, v, answers, src, |src|)) by {
      LoopedMemory(cfg, v, src, pending, answers, tm);
    }
    assert forall x :: x in fallbackKeys <==> x in FallbackKeys(cfg, v, answers, src, |src|) by {
      LoopedFallback(cfg, v, src, pending, answers, next0, fallback0, next1, tm, next, fallbackKeys);
    }
    forall i | 0 <= i < |src|
      ensures src[i].0 in next && next[src[i].0] == Settle(cfg, v, answers, src[i].0, src[i].1).text
    {
      LoopedText(cfg, v, src, pending, answers, next0, fallback0, next1, tm, next, fallbackKeys, i);
    }
  }

  // ----- The files and the verdict -----

  /** Rebuilds the nested map key by key, as `setNestedValue` does. */
  method RebuildMap(src: Entries<string>, next: map<string, string>,
                    ghost rebuilt: Entries<string>)
    returns (nextMap: Kids)
    requires |rebuilt| == |src|
    requires forall i :: 0 <= i < |src| ==> src[i].0 in next && rebuilt[i] == (src[i].0, next[src[i].0])
    ensures nextMap == Nest(rebuilt, |src|)
  {
    nextMap := Nil;
    for i := 0 to |src|
      invariant nextMap == Nest(rebuilt, i)
    {
      var (key, value) := src[i];
      nextMap := SetNested(nextMap, Split(key, DOT), if key in next then next[key] else value);
    }
  }

  /** Compares the semantic fields one by one and keeps the old timestamp if none changed. */
  method BuildMeta(cfg: Config, previous: Option<Meta>, total: nat,
                   sortedFallbackKeys: seq<string>)
    returns (meta: Meta)
    ensures meta == NextMeta(cfg, previous, total, sortedFallbackKeys)
  {
    var nextProvider :=
      if cfg.allowTranslate then cfg.provider else if previous.Some? then previous.value.provider else "";
    var nextModel := if cfg.allowTranslate then cfg.model else if previous.Some? then previous.value.model else "";
    var translatedKeys := total - |sortedFallbackKeys|;
    var semanticMetaChanged :=
      || previous.None?
      || previous.value.locale != cfg.locale
      || previous.value.sourceHash != cfg.sourceHash
      || previous.value.provider != nextProvider
      || previous.value.model != nextModel
      || previous.value.totalKeys != total
      || previous.value.translatedKeys != translatedKeys
      || previous.value.workflow != CONTROL_UI_I18N_WORKFLOW
      || previous.value.fallbackKeys != sortedFallbackKeys;
    meta := Meta(sortedFallbackKeys, if semanticMetaChanged then cfg.now else previous.value.generatedAt, cfg.locale,
                 nextModel, nextProvider, cfg.sourceHash, total, translatedKeys, CONTROL_UI_I18N_WORKFLOW);
  }

  predicate IsProviderAuthError(message: string) {
    var m := BatchTranslation.Lower(message);
    || BatchTranslation.Includes(m, "401")
    || BatchTranslation.Includes(m, "authentication_error")
    || BatchTranslation.Includes(m, "incorrect api key")
    || BatchTranslation.Includes(m, "invalid x-api-key")
  }

  /** Every text that would be written uses exactly the placeholders of its source. */
  ghost predicate ParityHolds(cfg: Config, v: View, src: Entries<string>, answers: map<string, string>) {
    forall i :: 0 <= i < |src| ==> SamePlaceholders(src[i].1, Settle(cfg, v, answers, src[i].0, src[i].1).text)
  }

  ghost predicate NothingToSend(cfg: Config, v: View, src: Entries<string>) {
    !cfg.allowTranslate || forall i :: 0 <= i < |src| ==> !Queued(cfg, v, src, i)
  }

  /** The batches of a run: the queued items, with a provider. */
  function Batches(cfg: Config, budget: int, v: View, src: Entries<string>): (batches: seq<seq<Item>>)
    ensures Bisection.NoneEmpty(batches)
  {
    BatchesOf(if cfg.allowTranslate then QueuedItems(cfg, v, src, |src|) else [], budget)
  }

  /** The prompts of a run and what comes of them. */
  function Asked(cfg: Config, budget: int, v: View, src: Entries<string>, reply: nat -> BatchTranslation.Reply):
    Bisection.Trace
  {
    var batches := Batches(cfg, budget, v, src);
    Bisection.SendAll(batches, |batches|, BatchTranslation.Under(reply))
  }

  lemma NothingIsAsked(cfg: Config, budget: int, v: View, src: Entries<string>, reply: nat -> BatchTranslation.Reply)
    requires NothingToSend(cfg, v, src)
    ensures Asked(cfg, budget, v, src, reply) == Bisection.Trace(Ok(map[]), [])
  {
    if cfg.allowTranslate {
      NoneIsQueued(cfg, v, src, |src|);
    }
  }

  lemma {:induction false} NoneIsQueued(cfg: Config, v: View, src: Entries<string>, n: nat)
    requires n <= |src| && forall i :: 0 <= i < |src| ==> !Queued(cfg, v, src, i)
    ensures QueuedItems(cfg, v, src, n) == []
  {
    if n > 0 {
      NoneIsQueued(cfg, v, src, n - 1);
    }
  }

  /** The files as the sync reads them. */
  method ReadFiles(cfg: Config, files: Files) returns (v: View)
    ensures v == Look(cfg, files)
  {
    var tmLoaded := LoadTranslationMemory(files.tm);
    var byText := BuildTranslationMemoryByTextHash(tmLoaded, cfg.locale);
    v := View(tmLoaded, byText, if files.locale.Some? then Flatten(files.locale.value) else [],
              if files.meta.Some? then files.meta.value.fallbackKeys else []);
  }

  /**
   The loops: all source keys settled, the memory updated, and the provider's answers used.
   They fail exactly when a batch is given up, with its error.
   */
  method SettleAll(cfg: Config, budget: int, src: Entries<string>, v: View, reply: nat -> BatchTranslation.Reply)
    returns (failed: Option<string>, next: map<string, string>, fallbackKeys: seq<string>, tm: Tm,
             answers: map<string, string>, sent: nat)
    requires Collisionless(cfg) && Distinct(src)
    ensures failed.None? ==> Specified(cfg, v, src, answers, next, fallbackKeys, tm)
    ensures var t := Asked(cfg, budget, v, src, reply);
            sent == |t.prompts| && t.result == if failed.None? then Ok(answers) else Err(failed.value)
  {
    var next0, pending, fallback0, tm0 := Classify(cfg, v, src);
    PendingIsSeparate(cfg, v, src, pending);
    var items := if cfg.allowTranslate then pending else [];
    var r;
    r, answers, tm, sent := TranslatePending(cfg, items, budget, reply, next0, tm0);
    if r.Err? {
      return Some(r.error), next0, fallback0, tm, answers, sent;
    }
    next, fallbackKeys := FillFallbacks(cfg, v, pending, r.value, fallback0);
    failed := None;
    assert Looped(cfg, v, src, pending, answers, next0, fallback0, r.value, tm, next, fallbackKeys);
    LoopedIsSpecified(cfg, v, src, pending, answers, next0, fallback0, r.value, tm, next, fallbackKeys);
  }

  /** The check that stops a run before anything is written. */
  method HasPlaceholderParity(ghost cfg: Config, ghost v: View, src: Entries<string>,
                              ghost answers: map<string, string>,
                              next: map<string, string>)
    returns (parity: bool)
    requires forall i :: 0 <= i < |src| ==>
               src[i].0 in next && next[src[i].0] == Settle(cfg, v, answers, src[i].0, src[i].1).text
    ensures parity <==> ParityHolds(cfg, v, src, answers)
  {
    var mismatches := FindPlaceholderMismatches(src, next);
    NoMismatchIffParity(src, next);
    assert forall i :: 0 <= i < |src| ==>
             (InParity(src, next, i) <==> SamePlaceholders(src[i].1, Settle(cfg, v, answers, src[i].0, src[i].1).text));
    parity := mismatches == [];
  }

  /** Compares the four files and writes them if asked to. */
  method Deliver(cfg: Config, opts: Options, files: Files, expected: Files, meta: Meta)
    returns (outcome: SyncOutcome, after: Files)
    requires expected.meta == Some(meta)
    ensures var changed := files != expected;
            && outcome == Done(changed, !opts.checkOnly && opts.write && changed, |meta.fallbackKeys|)
            && after == (if outcome.wrote then expected else files)
  {
    var changed :=
      || files.locale != expected.locale
      || files.meta != expected.meta
      || files.glossary != expected.glossary
      || files.tm != expected.tm;
    if !changed || (files.meta.Some? && files.meta.value.sourceHash == cfg.sourceHash
                    && !cfg.force && !opts.checkOnly && !opts.write) {
      return Done(changed, false, |meta.fallbackKeys|), files;
    }
    after := files;
    if !opts.checkOnly && opts.write {
      after := expected;
    }
    outcome := Done(changed, !opts.checkOnly && opts.write && changed, |meta.fallbackKeys|);
  }

  /** A run that is done computed the expected files for the answers it got. */
  ghost predicate DoneRightly(cfg: Config, opts: Options, src: Entries<string>, files: Files,
                              answers: map<string, string>,
                              outcome: SyncOutcome, after: Files)
  {
    && AnswersFit(cfg, Look(cfg, files), src, answers)
    && ParityHolds(cfg, Look(cfg, files), src, answers)
    && var expected := Expected(cfg, src, files, answers);
       var changed := files != expected;
       && outcome == Done(changed, !opts.checkOnly && opts.write && changed, |expected.meta.value.fallbackKeys|)
       && after == (if outcome.wrote then expected else files)
  }

  /** What a run reports when a prompt failed with this error. */
  function StoppedBy(opts: Options, files: Files, error: string): SyncOutcome {
    if opts.authOptional && IsProviderAuthError(error)
    then Skipped(if files.meta.Some? then |files.meta.value.fallbackKeys| else 0)
    else Threw(error)
  }

  /**
   Everything a run promises. What it sends and gets is what the batches send and get in turn;
   a batch that is given up stops it, then lost parity does, and otherwise it is done.
   */
  ghost predicate RunsRightly(cfg: Config, opts: Options, src: Entries<string>, files: Files,
                              reply: nat -> BatchTranslation.Reply, answers: map<string, string>, sent: nat,
                              outcome: SyncOutcome, after: Files)
  {
    var v := Look(cfg, files);
    var t := Asked(cfg, opts.budget, v, src, reply);
    && sent == |t.prompts|
    && match t.result
       case Err(error) => outcome == StoppedBy(opts, files, error) && after == files
       case Ok(values) =>
         && answers == values
         && if ParityHolds(cfg, v, src, values) then DoneRightly(cfg, opts, src, files, values, outcome, after)
            else outcome == Threw("placeholder mismatch") && after == files
  }

  /** The files a run with these settled keys has to end with. */
  method ExpectedFiles(cfg: Config, src: Entries<string>, files: Files, ghost answers: map<string, string>,
                       next: map<string, string>, fallbackKeys: seq<string>, tm: Tm)
    returns (expected: Files)
    requires Specified(cfg, Look(cfg, files), src, answers, next, fallbackKeys, tm)
    ensures expected == Expected(cfg, src, files, answers)
  {
    ghost var v := Look(cfg, files);
    var nextMap := RebuildMap(src, next, Rebuilt(cfg, v, answers, src));
    SortUniqueComparesSets(fallbackKeys, FallbackKeys(cfg, v, answers, src, |src|));
    var meta := BuildMeta(cfg, files.meta, |src|, SortUnique(fallbackKeys));
    RenderIgnoresOrder(tm, MemoryAfter(cfg, v, answers, src, |src|));
    expected := Files(Some(nextMap), Some(meta), Some(NextGlossary(files.glossary)), Render(tm));
  }

  /**
   `syncLocale`. What is sent and answered is what the batches send and get in turn. A run is
   done exactly when none of them is given up and placeholder parity holds; then it has
   computed the expected files, reports a change exactly when the files on disk differ, and
   touches them only when asked to write. Any other run leaves the files alone.
   */
  method SyncLocale(cfg: Config, opts: Options, en: Kids, files: Files, reply: nat -> BatchTranslation.Reply)
    returns (outcome: SyncOutcome, after: Files, answers: map<string, string>, sent: nat)
    requires Collisionless(cfg)
    ensures RunsRightly(cfg, opts, Flatten(en), files, reply, answers, sent, outcome, after)
  {
    var src := FlattenTranslations(en, "", []);
    FlattenIsDistinct(en, "", []);
    var v := ReadFiles(cfg, files);
    var failed, next, fallbackKeys, tm;
    failed, next, fallbackKeys, tm, answers, sent := SettleAll(cfg, opts.budget, src, v, reply);
    if failed.Some? {
      if opts.authOptional && IsProviderAuthError(failed.value) {
        return Skipped(if files.meta.Some? then |files.meta.value.fallbackKeys| else 0), files, answers, sent;
      }
      return Threw(failed.value), files, answers, sent;
    }
    var parity := HasPlaceholderParity(cfg, v, src, answers, next);
    if !parity {
      return Threw("placeholder mismatch"), files, answers, sent;
    }
    var expected := ExpectedFiles(cfg, src, files, answers, next, fallbackKeys, tm);
    outcome, after := Deliver(cfg, opts, files, expected, expected.meta.value);
  }

  // ----- Exactly which runs are done -----

  /** The batch has a value for each of its items, with the placeholders of its source. */
  ghost predicate KeepsPlaceholders(batch: seq<Item>, result: Result<map<string, string>, string>) {
    result.Ok? && forall p :: p in batch ==> p.key in result.value && SamePlaceholders(p.text, result.value[p.key])
  }

  /** Every batch is translated in its turn, with all placeholders kept. */
  ghost predicate BatchesSucceed(batches: seq<seq<Item>>, reply: nat -> BatchTranslation.Reply)
    requires Bisection.NoneEmpty(batches)
  {
    forall b :: 0 <= b < |batches| ==>
      KeepsPlaceholders(batches[b], Bisection.BatchRun(batches, b, BatchTranslation.Under(reply)).result)
  }

  /** The texts that are kept or filled in without the provider keep their placeholders. */
  ghost predicate KeptInParity(cfg: Config, v: View, src: Entries<string>) {
    forall i :: 0 <= i < |src| && !(cfg.allowTranslate && Queued(cfg, v, src, i)) ==>
      SamePlaceholders(src[i].1, Settle(cfg, v, map[], src[i].0, src[i].1).text)
  }

  /** What is kept is in parity, every batch succeeds, and so do its placeholders. */
  ghost predicate CanSucceed(cfg: Config, budget: int, v: View, src: Entries<string>,
                             reply: nat -> BatchTranslation.Reply)
  {
    KeptInParity(cfg, v, src) && BatchesSucceed(Batches(cfg, budget, v, src), reply)
  }

  /** No two items have the same key. */
  ghost predicate KeysDiffer(items: seq<Item>) {
    forall i, j :: 0 <= i < j < |items| ==> items[i].key != items[j].key
  }

  lemma {:induction false} QueuedKeysDiffer(cfg: Config, v: View, src: Entries<string>, n: nat)
    requires Distinct(src) && n <= |src|
    ensures KeysDiffer(QueuedItems(cfg, v, src, n))
  {
    if n > 0 {
      QueuedKeysDiffer(cfg, v, src, n - 1);
      QueuedItemsAreCollected(cfg, v, src, n - 1);
      var before := QueuedItems(cfg, v, src, n - 1);
      forall i | 0 <= i < |before| ensures before[i].key != src[n - 1].0 {
        assert before[i] in before;
      }
    }
  }

  /** Different batches ask for different keys. */
  lemma {:induction false} BatchesShareNoKey(batches: seq<seq<Item>>, a: nat, b: nat, p: Item, q: Item)
    requires a < b < |batches| && KeysDiffer(TranslationBatches.Flatten(batches))
    requires p in batches[a] && q in batches[b]
    ensures p.key != q.key
  {
    var first, rest := batches[0], TranslationBatches.Flatten(batches[1..]);
    var all := TranslationBatches.Flatten(batches);
    if a > 0 {
      forall i, j | 0 <= i < j < |rest| ensures rest[i].key != rest[j].key {
        assert all[|first| + i] == rest[i] && all[|first| + j] == rest[j];
      }
      BatchesShareNoKey(batches[1..], a - 1, b - 1, p, q);
    } else {
      ItemOfBatch(batches[1..], b - 1, q);
      var i :| 0 <= i < |first| && first[i] == p;
      var j :| 0 <= j < |rest| && rest[j] == q;
      assert all[i] == p && all[|first| + j] == q;
    }
  }

  lemma {:induction false} ItemOfBatch(batches: seq<seq<Item>>, b: nat, p: Item)
    requires b < |batches| && p in batches[b]
    ensures p in TranslationBatches.Flatten(batches)
  {
    if b > 0 {
      ItemOfBatch(batches[1..], b - 1, p);
    }
  }

  lemma {:induction false} BatchOfItem(batches: seq<seq<Item>>, p: Item) returns (b: nat)
    requires p in TranslationBatches.Flatten(batches)
    ensures b < |batches| && p in batches[b]
  {
    if p in batches[0] {
      b := 0;
    } else {
      b := BatchOfItem(batches[1..], p);
      b := b + 1;
    }
  }

  /** Once all batches are translated, an item's value is the one its own batch was given. */
  lemma ValueOfItem(batches: seq<seq<Item>>, b: nat, p: Item, reply: nat -> BatchTranslation.Reply)
    requires Bisection.NoneEmpty(batches) && KeysDiffer(TranslationBatches.Flatten(batches))
    requires b < |batches| && p in batches[b]
    requires Bisection.SendAll(batches, |batches|, BatchTranslation.Under(reply)).result.Ok?
    ensures var own := Bisection.BatchRun(batches, b, BatchTranslation.Under(reply)).result;
            var all := Bisection.SendAll(batches, |batches|, BatchTranslation.Under(reply)).result.value;
            && own.Ok? && p.key in own.value
            && p.key in all && all[p.key] == own.value[p.key]
  {
    var outcome := BatchTranslation.Under(reply);
    Bisection.SucceedsIffEachDoes(batches, |batches|, outcome);
    BatchRunIsCovered(batches, b, reply);
    NamesAreKeys(batches[b]);
    forall c | b < c < |batches| ensures p.key !in Bisection.BatchRun(batches, c, outcome).result.value {
      BatchRunIsCovered(batches, c, reply);
      NamesAreKeys(batches[c]);
      forall q | q in batches[c] ensures q.key != p.key {
        BatchesShareNoKey(batches, b, c, p, q);
      }
    }
    Bisection.ValueOfBatch(batches, |batches|, b, p.key, outcome);
  }

  lemma BatchRunIsCovered(batches: seq<seq<Item>>, b: nat, reply: nat -> BatchTranslation.Reply)
    requires Bisection.NoneEmpty(batches) && b < |batches|
    ensures var r := Bisection.BatchRun(batches, b, BatchTranslation.Under(reply)).result;
            r.Ok? ==> r.value.Keys == BatchTranslation.KeysOf(batches[b])
  {
    BatchIsCovered(batches[b], reply, |Bisection.SendAll(batches, b, BatchTranslation.Under(reply)).prompts|);
  }

  /** What is asked and answered: the queued keys, with the provider's values. */
  lemma AnswersAreAsked(cfg: Config, budget: int, v: View, src: Entries<string>, reply: nat -> BatchTranslation.Reply)
    requires Distinct(src)
    ensures var t := Asked(cfg, budget, v, src, reply);
            t.result.Ok? ==>
              && AnswersFit(cfg, v, src, t.result.value)
              && BatchTranslation.FromReplies(t.result.value, reply, 0, |t.prompts|)
  {
    var t, batches := Asked(cfg, budget, v, src, reply), Batches(cfg, budget, v, src);
    BatchTranslation.SendAllCovers(batches, |batches|, reply);
    assert batches[..|batches|] == batches;
    if t.result.Ok? {
      var items := QueuedItems(cfg, v, src, |src|);
      NamesAreKeys(if cfg.allowTranslate then items else []);
      QueuedItemsAreCollected(cfg, v, src, |src|);
      LoopedAnswersFit(cfg, v, src, items, t.result.value);
    }
  }

  lemma UnaskedSettlesAlike(cfg: Config, v: View, src: Entries<string>, answers: map<string, string>, i: nat)
    requires Distinct(src) && AnswersFit(cfg, v, src, answers)
    requires i < |src| && !(cfg.allowTranslate && Queued(cfg, v, src, i))
    ensures Settle(cfg, v, answers, src[i].0, src[i].1) == Settle(cfg, v, map[], src[i].0, src[i].1)
  {
    if Queued(cfg, v, src, i) {
      assert src[i].0 !in answers;
    }
  }

  /** A queued key is asked for in some batch. */
  lemma AskedInBatch(cfg: Config, budget: int, v: View, src: Entries<string>, i: nat) returns (b: nat)
    requires i < |src| && cfg.allowTranslate && Queued(cfg, v, src, i)
    ensures var batches := Batches(cfg, budget, v, src);
            b < |batches| && ItemFor(cfg, src[i].0, src[i].1) in batches[b]
  {
    QueuedItemsAreCollected(cfg, v, src, |src|);
    b := BatchOfItem(Batches(cfg, budget, v, src), ItemFor(cfg, src[i].0, src[i].1));
  }

  /** The item of a batch belongs to a queued key. */
  lemma BatchedIsQueued(cfg: Config, budget: int, v: View, src: Entries<string>, b: nat, p: Item) returns (i: nat)
    requires var batches := Batches(cfg, budget, v, src); b < |batches| && p in batches[b]
    ensures cfg.allowTranslate && Queued(cfg, v, src, i) && p == ItemFor(cfg, src[i].0, src[i].1)
  {
    ItemOfBatch(Batches(cfg, budget, v, src), b, p);
    QueuedItemsAreCollected(cfg, v, src, |src|);
    i :| Queued(cfg, v, src, i) && p == ItemFor(cfg, src[i].0, src[i].1);
  }

  lemma AskedKeysDiffer(cfg: Config, budget: int, v: View, src: Entries<string>)
    requires Distinct(src)
    ensures KeysDiffer(TranslationBatches.Flatten(Batches(cfg, budget, v, src)))
  {
    QueuedKeysDiffer(cfg, v, src, |src|);
  }

  /** The settled text of a queued key is the value of its batch. */
  lemma AskedText(cfg: Config, budget: int, v: View, src: Entries<string>, reply: nat -> BatchTranslation.Reply,
                  b: nat, i: nat)
    requires Distinct(src) && i < |src| && cfg.allowTranslate && Queued(cfg, v, src, i)
    requires var batches := Batches(cfg, budget, v, src);
             b < |batches| && ItemFor(cfg, src[i].0, src[i].1) in batches[b]
    requires Asked(cfg, budget, v, src, reply).result.Ok?
    ensures var own := Bisection.BatchRun(Batches(cfg, budget, v, src), b, BatchTranslation.Under(reply)).result;
            && own.Ok? && src[i].0 in own.value
            && Settle(cfg, v, Asked(cfg, budget, v, src, reply).result.value, src[i].0, src[i].1).text
               == own.value[src[i].0]
  {
    AskedKeysDiffer(cfg, budget, v, src);
    ValueOfItem(Batches(cfg, budget, v, src), b, ItemFor(cfg, src[i].0, src[i].1), reply);
    SettleOfQueued(cfg, v, Asked(cfg, budget, v, src, reply).result.value, src[i].0, src[i].1);
  }

  /** If every batch succeeds and what is kept is in parity, all texts are. */
  lemma SuccessKeepsParity(cfg: Config, budget: int, v: View, src: Entries<string>,
                           reply: nat -> BatchTranslation.Reply)
    requires Distinct(src) && CanSucceed(cfg, budget, v, src, reply)
    ensures var r := Asked(cfg, budget, v, src, reply).result;
            r.Ok? && ParityHolds(cfg, v, src, r.value)
  {
    var batches := Batches(cfg, budget, v, src);
    Bisection.SucceedsIffEachDoes(batches, |batches|, BatchTranslation.Under(reply));
    AnswersAreAsked(cfg, budget, v, src, reply);
    var answers := Asked(cfg, budget, v, src, reply).result.value;
    forall i | 0 <= i < |src| ensures SamePlaceholders(src[i].1, Settle(cfg, v, answers, src[i].0, src[i].1).text) {
      if cfg.allowTranslate && Queued(cfg, v, src, i) {
        var b := AskedInBatch(cfg, budget, v, src, i);
        AskedText(cfg, budget, v, src, reply, b, i);
        assert KeepsPlaceholders(batches[b], Bisection.BatchRun(batches, b, BatchTranslation.Under(reply)).result);
      } else {
        UnaskedSettlesAlike(cfg, v, src, answers, i);
      }
    }
  }

  /** If no batch is given up and all texts are in parity, every batch has kept its placeholders. */
  lemma ParityNeedsSuccess(cfg: Config, budget: int, v: View, src: Entries<string>,
                           reply: nat -> BatchTranslation.Reply)
    requires Distinct(src)
    requires var r := Asked(cfg, budget, v, src, reply).result;
             r.Ok? && ParityHolds(cfg, v, src, r.value)
    ensures CanSucceed(cfg, budget, v, src, reply)
  {
    var batches, outcome := Batches(cfg, budget, v, src), BatchTranslation.Under(reply);
    var answers := Asked(cfg, budget, v, src, reply).result.value;
    AnswersAreAsked(cfg, budget, v, src, reply);
    forall i | 0 <= i < |src| && !(cfg.allowTranslate && Queued(cfg, v, src, i))
      ensures SamePlaceholders(src[i].1, Settle(cfg, v, map[], src[i].0, src[i].1).text)
    {
      UnaskedSettlesAlike(cfg, v, src, answers, i);
    }
    forall b | 0 <= b < |batches|
      ensures KeepsPlaceholders(batches[b], Bisection.BatchRun(batches, b, outcome).result)
    {
      ParityOfBatch(cfg, budget, v, src, reply, b);
    }
  }

  lemma ParityOfBatch(cfg: Config, budget: int, v: View, src: Entries<string>, reply: nat -> BatchTranslation.Reply,
                      b: nat)
    requires Distinct(src) && b < |Batches(cfg, budget, v, src)|
    requires var r := Asked(cfg, budget, v, src, reply).result;
             r.Ok? && ParityHolds(cfg, v, src, r.value)
    ensures var batches := Batches(cfg, budget, v, src);
            KeepsPlaceholders(batches[b], Bisection.BatchRun(batches, b, BatchTranslation.Under(reply)).result)
  {
    var batches := Batches(cfg, budget, v, src);
    var own := Bisection.BatchRun(batches, b, BatchTranslation.Under(reply)).result;
    Bisection.SucceedsIffEachDoes(batches, |batches|, BatchTranslation.Under(reply));
    forall p: Item | p in batches[b] ensures p.key in own.value && SamePlaceholders(p.text, own.value[p.key]) {
      var i := BatchedIsQueued(cfg, budget, v, src, b, p);
      AskedText(cfg, budget, v, src, reply, b, i);
    }
  }

  /**
   A run is done exactly when every batch is translated in its turn with all placeholders
   kept, and what is kept without the provider is in parity too.
   */
  lemma DoneIffBatchesSucceed(cfg: Config, opts: Options, src: Entries<string>, files: Files,
                              reply: nat -> BatchTranslation.Reply, answers: map<string, string>, sent: nat,
                              outcome: SyncOutcome, after: Files)
    requires Distinct(src) && RunsRightly(cfg, opts, src, files, reply, answers, sent, outcome, after)
    ensures outcome.Done? <==> CanSucceed(cfg, opts.budget, Look(cfg, files), src, reply)
  {
    var v := Look(cfg, files);
    if CanSucceed(cfg, opts.budget, v, src, reply) {
      SuccessKeepsParity(cfg, opts.budget, v, src, reply);
    }
    if outcome.Done? {
      ParityNeedsSuccess(cfg, opts.budget, v, src, reply);
    }
  }

  /** The batches fail exactly when the last prompt of all does, and with its error. */
  lemma StoppedByLastPrompt(cfg: Config, budget: int, v: View, src: Entries<string>,
                            reply: nat -> BatchTranslation.Reply)
    ensures var t := Asked(cfg, budget, v, src, reply);
            t.result.Err? <==>
              t.prompts != []
              && !BatchTranslation.OutcomeOf(t.prompts[|t.prompts| - 1].items, reply(|t.prompts| - 1)).Success?
    ensures var t := Asked(cfg, budget, v, src, reply);
            t.result.Err? ==>
              BatchTranslation.OutcomeOf(t.prompts[|t.prompts| - 1].items, reply(|t.prompts| - 1)).Error()
              == Some(t.result.error)
  {
    var batches := Batches(cfg, budget, v, src);
    Bisection.SendAllObeys(batches, |batches|, BatchTranslation.Under(reply));
  }

  /** Whatever a reply says about a queued key keeps the placeholders of its source. */
  ghost predicate RepliesInParity(cfg: Config, v: View, src: Entries<string>, reply: nat -> BatchTranslation.Reply) {
    forall i, j: nat :: Queued(cfg, v, src, i) ==> SaysInParity(reply(j), src[i].0, src[i].1)
  }

  ghost predicate SaysInParity(r: BatchTranslation.Reply, key: string, text: string) {
    r.Answer? && key in r.values ==> SamePlaceholders(text, r.values[key])
  }

  /**
   With replies that keep placeholders, however many keys each of them answers, a run is done
   exactly when its last prompt did not fail.
   */
  lemma DoneUnlessLastPromptFails(cfg: Config, opts: Options, src: Entries<string>, files: Files,
                                  reply: nat -> BatchTranslation.Reply, answers: map<string, string>, sent: nat,
                                  outcome: SyncOutcome, after: Files)
    requires Distinct(src) && RunsRightly(cfg, opts, src, files, reply, answers, sent, outcome, after)
    requires KeptInParity(cfg, Look(cfg, files), src) && RepliesInParity(cfg, Look(cfg, files), src, reply)
    ensures var prompts := Asked(cfg, opts.budget, Look(cfg, files), src, reply).prompts;
            && sent == |prompts|
            && (outcome.Done? <==>
                sent == 0 || BatchTranslation.OutcomeOf(prompts[sent - 1].items, reply(sent - 1)).Success?)
  {
    var v := Look(cfg, files);
    StoppedByLastPrompt(cfg, opts.budget, v, src, reply);
    AnswersAreAsked(cfg, opts.budget, v, src, reply);
    var r := Asked(cfg, opts.budget, v, src, reply).result;
    if r.Ok? {
      forall i | 0 <= i < |src| ensures SamePlaceholders(src[i].1, Settle(cfg, v, answers, src[i].0, src[i].1).text) {
        if cfg.allowTranslate && Queued(cfg, v, src, i) {
          var j :| 0 <= j < sent && BatchTranslation.GaveAnswer(reply(j), src[i].0, answers[src[i].0]);
          assert SaysInParity(reply(j), src[i].0, src[i].1);
          SettleOfQueued(cfg, v, answers, src[i].0, src[i].1);
        } else {
          UnaskedSettlesAlike(cfg, v, src, answers, i);
        }
      }
    }
  }

  /** With nothing queued a run is done exactly when what it keeps is in parity. */
  lemma IdleRun(cfg: Config, opts: Options, src: Entries<string>, files: Files,
                reply: nat -> BatchTranslation.Reply, answers: map<string, string>, sent: nat,
                outcome: SyncOutcome, after: Files)
    requires RunsRightly(cfg, opts, src, files, reply, answers, sent, outcome, after)
    requires NothingToSend(cfg, Look(cfg, files), src)
    ensures sent == 0 && answers == map[]
    ensures outcome.Done? <==> ParityHolds(cfg, Look(cfg, files), src, map[])
  {
    NothingIsAsked(cfg, opts.budget, Look(cfg, files), src, reply);
  }

  /**
   A sync with a provider whose batches all succeed: it is done, every source key is translated,
   no key is a fallback, and after writing the locale file holds every key with its settled text.
   */
  method SyncWithProvider(cfg: Config, opts: Options, en: Kids, files: Files, reply: nat -> BatchTranslation.Reply)
    returns (outcome: SyncOutcome, after: Files, answers: map<string, string>, sent: nat)
    requires Collisionless(cfg) && cfg.allowTranslate
    requires CanSucceed(cfg, opts.budget, Look(cfg, files), Flatten(en), reply)
    ensures outcome.Done? && outcome.fallbackCount == 0
    ensures DoneRightly(cfg, opts, Flatten(en), files, answers, outcome, after)
    ensures BatchTranslation.FromReplies(answers, reply, 0, sent)
    ensures opts.write && !opts.checkOnly ==>
              && after.meta.Some? && after.meta.value.fallbackKeys == []
              && after.meta.value.translatedKeys == after.meta.value.totalKeys == |Flatten(en)|
              && (NestsCleanly(Flatten(en)) ==> CoversSource(cfg, Flatten(en), files, answers, after))
  {
    outcome, after, answers, sent := SyncLocale(cfg, opts, en, files, reply);
    ghost var src := Flatten(en);
    FlattenIsDistinct(en, "", []);
    DoneIffBatchesSucceed(cfg, opts, src, files, reply, answers, sent, outcome, after);
    AnswersAreAsked(cfg, opts.budget, Look(cfg, files), src, reply);
    ProviderLeavesNoFallback(cfg, src, files, answers);
    if opts.write && !opts.checkOnly && NestsCleanly(src) {
      ExpectedCoversSource(cfg, src, files, answers);
    }
  }

  /** Every source key reads back from the locale file with the text it was settled to. */
  ghost predicate CoversSource(cfg: Config, src: Entries<string>, files: Files, answers: map<string, string>,
                               after: Files)
  {
    after.locale.Some? && forall i :: 0 <= i < |src| ==>
      Get(Flatten(after.locale.value), src[i].0)
      == Some(Settle(cfg, Look(cfg, files), answers, src[i].0, src[i].1).text)
  }

  lemma ExpectedCoversSource(cfg: Config, src: Entries<string>, files: Files, answers: map<string, string>)
    requires NestsCleanly(src)
    ensures CoversSource(cfg, src, files, answers, Expected(cfg, src, files, answers))
  {
    forall i | 0 <= i < |src|
      ensures Get(Flatten(Expected(cfg, src, files, answers).locale.value), src[i].0)
           == Some(Settle(cfg, Look(cfg, files), answers, src[i].0, src[i].1).text)
    {
      ReadsBackLocale(cfg, src, files, answers, i);
    }
  }

  /**
   Syncing twice: once a writing sync is done, the next run over the same source with the
   same configuration is done too, reports no change and sends no prompt. The first run is
   done exactly when its batches succeed and what it keeps is in parity.
   */
  method SyncTwice(cfg: Config, opts: Options, later: Options, now: string, en: Kids, files: Files,
                   reply: nat -> BatchTranslation.Reply, laterReply: nat -> BatchTranslation.Reply)
    returns (first: SyncOutcome, second: SyncOutcome, after: Files, sent: nat)
    requires Collisionless(cfg) && NestsCleanly(Flatten(en))
    requires opts.write && !opts.checkOnly
    ensures first.Done? <==> CanSucceed(cfg, opts.budget, Look(cfg, files), Flatten(en), reply)
    ensures first.Done? ==> second == Done(false, false, first.fallbackCount) && sent == 0
    ensures first.Done? && cfg.allowTranslate ==> first.fallbackCount == 0
  {
    var answers, n, middle;
    first, middle, answers, n := SyncLocale(cfg, opts, en, files, reply);
    ghost var again, src := Again(cfg, now), Flatten(en);
    FlattenIsDistinct(en, "", []);
    DoneIffBatchesSucceed(cfg, opts, src, files, reply, answers, n, first, middle);
    var laterAnswers;
    second, after, laterAnswers, sent := SyncLocale(Again(cfg, now), later, en, middle, laterReply);
    if first.Done? {
      SecondRunIsClean(cfg, src, files, answers, now);
      SecondRunIsReady(cfg, src, files, answers, now);
      IdleRun(again, later, src, middle, laterReply, laterAnswers, sent, second, after);
      if cfg.allowTranslate {
        ProviderLeavesNoFallback(cfg, src, files, answers);
      }
    }
  }

  lemma SecondRunIsReady(cfg: Config, src: Entries<string>, files: Files, answers: map<string, string>, now: string)
    requires Collisionless(cfg) && NestsCleanly(src)
    requires AnswersFit(cfg, Look(cfg, files), src, answers) && ParityHolds(cfg, Look(cfg, files), src, answers)
    ensures var again, v1 := Again(cfg, now), Look(Again(cfg, now), Expected(cfg, src, files, answers));
            NothingToSend(again, v1, src) && ParityHolds(again, v1, src, map[])
  {
    var v1 := Look(cfg, Expected(cfg, src, files, answers));
    assert Look(Again(cfg, now), Expected(cfg, src, files, answers)) == v1;
    forall i | 0 <= i < |src|
      ensures SamePlaceholders(src[i].1, Settle(Again(cfg, now), v1, map[], src[i].0, src[i].1).text)
      ensures cfg.allowTranslate ==> !Queued(Again(cfg, now), v1, src, i)
    {
      SecondRunOfKey(cfg, src, files, answers, now, i);
    }
  }
}
