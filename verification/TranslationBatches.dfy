/**
 The greedy partition of pending keys into prompts: at most 20 keys a batch and a character
 budget that one oversized key alone may exceed.
 */
module TranslationBatches {

  const MAX_BATCH_ITEMS: nat := 20

  datatype Item = Item(cacheKey: string, key: string, text: string, textHash: string)

  /** The JSON size estimate of a batch. */
  function EstimateBatchChars(items: seq<Item>): nat {
    if items == [] then 2
    else EstimateBatchChars(items[..|items| - 1]) + |items[|items| - 1].key| + |items[|items| - 1].text| + 8
  }

  function Flatten(batches: seq<seq<Item>>): seq<Item> {
    if batches == [] then [] else batches[0] + Flatten(batches[1..])
  }

  /** The loop's own counter, which charges the 2 of an empty estimate once more per item. */
  function Counter(items: seq<Item>): nat {
    if items == [] then 2 else Counter(items[..|items| - 1]) + EstimateBatchChars([items[|items| - 1]])
  }

  lemma SingleEstimate(item: Item)
    ensures EstimateBatchChars([item]) == |item.key| + |item.text| + 10
  {
    assert [item][..0] == [];
  }

  lemma CounterAppend(items: seq<Item>, item: Item)
    ensures Counter(items + [item]) == Counter(items) + EstimateBatchChars([item])
  {
    assert (items + [item])[..|items|] == items;
  }

  lemma {:induction false} CounterOvercountsByTwoPerItem(items: seq<Item>)
    ensures Counter(items) == EstimateBatchChars(items) + 2 * |items|
  {
    if items != [] {
      var n := |items| - 1;
      CounterOvercountsByTwoPerItem(items[..n]);
      SingleEstimate(items[n]);
    }
  }

  /** A batch the loop would accept: not empty, at most 20 items, in budget or a singleton. */
  predicate Fits(batch: seq<Item>, budget: int) {
    1 <= |batch| <= MAX_BATCH_ITEMS && (|batch| == 1 || Counter(batch) <= budget)
  }

  predicate AllFit(batches: seq<seq<Item>>, budget: int) {
    forall i :: 0 <= i < |batches| ==> Fits(batches[i], budget)
  }

  /** A contiguous partition of the items into batches that obey the loop's limits. */
  predicate Partition(batches: seq<seq<Item>>, items: seq<Item>, budget: int) {
    Flatten(batches) == items && AllFit(batches, budget)
  }

  /** The batches the loop produces from `items` when `current` is already open. */
  function Greedy(current: seq<Item>, items: seq<Item>, budget: int): seq<seq<Item>>
    decreases |items|
  {
    if items == [] then (if current == [] then [] else [current])
    else if current != [] && !Fits(current + [items[0]], budget) then [current] + Greedy([items[0]], items[1..], budget)
    else Greedy(current + [items[0]], items[1..], budget)
  }

  lemma {:induction false} GreedyIsPartition(current: seq<Item>, items: seq<Item>, budget: int)
    requires current == [] || Fits(current, budget)
    ensures Partition(Greedy(current, items, budget), current + items, budget)
    decreases |items|
  {
    var r := Greedy(current, items, budget);
    if items == [] {
      assert current + items == current;
    } else if current != [] && !Fits(current + [items[0]], budget) {
      GreedyIsPartition([items[0]], items[1..], budget);
      assert [items[0]] + items[1..] == items;
      assert r[1..] == Greedy([items[0]], items[1..], budget);
    } else {
      GreedyIsPartition(current + [items[0]], items[1..], budget);
      assert (current + [items[0]]) + items[1..] == current + items;
    }
  }

  // ----- Greedy uses the fewest batches -----

  lemma {:induction false} CounterGrows(a: seq<Item>, b: seq<Item>)
    ensures Counter(a + b) == Counter(a) + Counter(b) - 2
  {
    if b == [] {
      assert a + b == a;
    } else {
      var n := |b| - 1;
      CounterGrows(a, b[..n]);
      assert (a + b)[..|a| + n] == a + b[..n];
    }
  }

  lemma {:induction false} CounterIsAtLeastTwo(a: seq<Item>)
    ensures Counter(a) >= 2
  {
    if a != [] {
      CounterIsAtLeastTwo(a[..|a| - 1]);
    }
  }

  /** Every non-empty contiguous part of a batch that fits also fits. */
  lemma PartFits(before: seq<Item>, part: seq<Item>, after: seq<Item>, budget: int)
    requires part != [] && Fits(before + part + after, budget)
    ensures Fits(part, budget)
  {
    CounterGrows(before + part, after);
    CounterGrows(before, part);
    CounterIsAtLeastTwo(before);
    CounterIsAtLeastTwo(after);
  }

  /**
   A greedy batch that is still open when a whole fitting stretch has been consumed only
   ever closes at or after the end of that stretch.
   */
  lemma {:induction false} GreedyReaches(current: seq<Item>, stretch: seq<Item>, rest: seq<Item>, budget: int)
    requires current + stretch == [] || Fits(current + stretch, budget)
    ensures Greedy(current, stretch + rest, budget) == Greedy(current + stretch, rest, budget)
    decreases |stretch|
  {
    if stretch == [] {
      assert stretch + rest == rest && current + stretch == current;
    } else {
      var next := current + [stretch[0]];
      assert current + stretch == [] + next + stretch[1..];
      PartFits([], next, stretch[1..], budget);
      assert (stretch + rest)[1..] == stretch[1..] + rest;
      assert next + stretch[1..] == current + stretch;
      GreedyReaches(next, stretch[1..], rest, budget);
    }
  }

  /** An open batch costs at most one batch more than starting afresh further along. */
  lemma {:induction false} OpenBatchCloses(current: seq<Item>, items: seq<Item>, budget: int)
    returns (k: nat)
    requires Fits(current, budget)
    ensures k <= |items|
    ensures |Greedy(current, items, budget)| == 1 + |Greedy([], items[k..], budget)|
    decreases |items|
  {
    if items == [] {
      k := 0;
    } else if !Fits(current + [items[0]], budget) {
      k := 0;
      assert items[0..] == items && [] + [items[0]] == [items[0]];
    } else {
      k := OpenBatchCloses(current + [items[0]], items[1..], budget);
      assert items[1..][k..] == items[k + 1..];
      k := k + 1;
    }
  }

  /**
   Greedy on a suffix of what a partition covers needs no more batches than the partition.
   */
  lemma {:induction false} GreedyStaysAhead(p: seq<seq<Item>>, budget: int, k: nat)
    requires AllFit(p, budget) && k <= |Flatten(p)|
    ensures |Greedy([], Flatten(p)[k..], budget)| <= |p|
    decreases |p|
  {
    var all := Flatten(p);
    if p != [] {
      var first, rest := p[0], Flatten(p[1..]);
      if k >= |first| {
        assert all[k..] == rest[k - |first|..];
        GreedyStaysAhead(p[1..], budget, k - |first|);
      } else {
        var stretch := first[k..];
        assert first == first[..k] + stretch + [];
        PartFits(first[..k], stretch, [], budget);
        assert all[k..] == stretch + rest;
        assert [] + stretch == stretch;
        GreedyReaches([], stretch, rest, budget);
        var m := OpenBatchCloses(stretch, rest, budget);
        GreedyStaysAhead(p[1..], budget, m);
      }
    }
  }

  /** No contiguous partition obeying the loop's limits uses fewer batches. */
  lemma GreedyIsOptimal(p: seq<seq<Item>>, items: seq<Item>, budget: int)
    requires Partition(p, items, budget)
    ensures |Greedy([], items, budget)| <= |p|
  {
    assert items[0..] == items;
    GreedyStaysAhead(p, budget, 0);
  }

  /** What every batch promises to the prompt: in terms of the estimate, not the counter. */
  lemma FittingBatchIsInBudget(batch: seq<Item>, budget: int)
    requires Fits(batch, budget)
    ensures |batch| == 1 || EstimateBatchChars(batch) + 2 * |batch| <= budget
  {
    CounterOvercountsByTwoPerItem(batch);
  }

  /** The characters of the keys and texts. */
  function Characters(items: seq<Item>): nat {
    if items == [] then 0 else |items[0].key| + |items[0].text| + Characters(items[1..])
  }

  lemma {:induction false} CharactersAppend(items: seq<Item>, item: Item)
    ensures Characters(items + [item]) == Characters(items) + |item.key| + |item.text|
  {
    if items != [] {
      assert (items + [item])[1..] == items[1..] + [item];
      CharactersAppend(items[1..], item);
    }
  }

  lemma {:induction false} CounterCountsCharacters(items: seq<Item>)
    ensures Counter(items) == 2 + Characters(items) + 10 * |items|
  {
    if items != [] {
      var n := |items| - 1;
      CounterCountsCharacters(items[..n]);
      SingleEstimate(items[n]);
      CharactersAppend(items[..n], items[n]);
      assert items == items[..n] + [items[n]];
    }
  }

  /** Exactly which batches the loop accepts, in characters of keys and texts. */
  lemma FitsInCharacters(batch: seq<Item>, budget: int)
    ensures Fits(batch, budget) <==>
              |batch| == 1 || (2 <= |batch| <= 20 && Characters(batch) + 10 * |batch| + 2 <= budget)
  {
    CounterCountsCharacters(batch);
  }

  lemma {:induction false} FlattenAppend(batches: seq<seq<Item>>, b: seq<Item>)
    ensures Flatten(batches + [b]) == Flatten(batches) + b
  {
    if batches == [] {
      assert batches + [b] == [b] && [b][1..] == [];
      assert Flatten([b]) == b;
    } else {
      assert (batches + [b])[1..] == batches[1..] + [b];
      FlattenAppend(batches[1..], b);
    }
  }

  lemma GreedyStep(batches: seq<seq<Item>>, current: seq<Item>, items: seq<Item>, budget: int)
    requires items != []
    ensures batches + Greedy(current, items, budget)
         == if current != [] && !Fits(current + [items[0]], budget)
            then (batches + [current]) + Greedy([items[0]], items[1..], budget)
            else batches + Greedy(current + [items[0]], items[1..], budget)
  {
    if current != [] && !Fits(current + [items[0]], budget) {
      assert batches + ([current] + Greedy([items[0]], items[1..], budget))
          == (batches + [current]) + Greedy([items[0]], items[1..], budget);
    }
  }

  /**
   The batching loop. The batches concatenate to the items in order, each fits, and no
   other partition that fits is shorter. `budget` is the configured budget rounded down.
   */
  method BuildTranslationBatches(items: seq<Item>, budget: int) returns (batches: seq<seq<Item>>)
    ensures Partition(batches, items, budget)
    ensures forall p :: Partition(p, items, budget) ==> |batches| <= |p|
    ensures batches == Greedy([], items, budget)
  {
    batches := [];
    var current: seq<Item> := [];
    var currentChars: nat := 2;
    for i := 0 to |items|
      invariant current == [] || Fits(current, budget)
      invariant currentChars == Counter(current)
      invariant batches + Greedy(current, items[i..], budget) == Greedy([], items, budget)
    {
      var item := items[i];
      var itemChars := EstimateBatchChars([item]);
      CounterAppend(current, item);
      CounterAppend([], item);
      assert [] + [item] == [item];
      assert items[i..][0] == item && items[i..][1..] == items[i + 1..];
      GreedyStep(batches, current, items[i..], budget);
      var wouldOverflow := |current| > 0 && currentChars + itemChars > budget;
      var reachedMaxItems := |current| >= MAX_BATCH_ITEMS;
      if wouldOverflow || reachedMaxItems {
        batches := batches + [current];
        current := [];
        currentChars := 2;
      }
      current := current + [item];
      currentChars := currentChars + itemChars;
    }
    if |current| > 0 {
      batches := batches + [current];
    }
    assert batches == Greedy([], items, budget) by {
      assert items[|items|..] == [];
    }
    assert Partition(batches, items, budget) by {
      GreedyIsPartition([], items, budget);
      assert [] + items == items;
    }
    forall p | Partition(p, items, budget) ensures |batches| <= |p| {
      GreedyIsOptimal(p, items, budget);
    }
  }
}
