/** The translation memory: loading, rendering and the index by text hash. */
module TranslationMemory {
  import opened Wrappers
  import opened Text
  import opened OrderedMap

  datatype TmEntry = TmEntry(
    cacheKey: string, model: string, provider: string, segmentId: string, sourcePath: string,
    srcLang: string, text: string, textHash: string, tgtLang: string, translated: string, updatedAt: string)

  type Tm = Entries<TmEntry>

  predicate Loadable(e: TmEntry) {
    e.cacheKey != "" && !Blank(e.translated)
  }

  /** What a loaded memory, and everything the sync adds to it, looks like. */
  ghost predicate Sound(tm: Tm) {
    Distinct(tm) && forall i :: 0 <= i < |tm| ==> tm[i].0 == tm[i].1.cacheKey && Loadable(tm[i].1)
  }

  /** Loading the first `n` lines; a later line replaces an earlier one with its key. */
  function Load(lines: seq<TmEntry>, n: nat): Tm
    requires n <= |lines|
  {
    if n == 0 then []
    else
      var before, e := Load(lines, n - 1), lines[n - 1];
      if Loadable(e) then Put(before, e.cacheKey, e) else before
  }

  method LoadTranslationMemory(lines: seq<TmEntry>) returns (entries: Tm)
    ensures entries == Load(lines, |lines|)
  {
    entries := [];
    for i := 0 to |lines|
      invariant entries == Load(lines, i)
    {
      TrimIsEmptyIffBlank(lines[i].translated);
      if lines[i].cacheKey != "" && Trim(lines[i].translated) != "" {
        entries := Put(entries, lines[i].cacheKey, lines[i]);
      }
    }
  }

  lemma {:induction false} PutKeepsSound(tm: Tm, e: TmEntry)
    requires Sound(tm) && Loadable(e)
    ensures Sound(Put(tm, e.cacheKey, e))
  {
    PutKeepsDistinct(tm, e.cacheKey, e);
    var r := Put(tm, e.cacheKey, e);
    forall i | 0 <= i < |r| ensures r[i].0 == r[i].1.cacheKey && Loadable(r[i].1) {
      GetFindsEntries(r, r[i].0);
      GetPut(tm, e.cacheKey, e, r[i].0);
      GetFindsEntries(tm, r[i].0);
      if r[i].0 != e.cacheKey {
        assert (r[i].0, r[i].1) in tm;
      }
    }
  }

  lemma {:induction false} LoadIsSound(lines: seq<TmEntry>, n: nat)
    requires n <= |lines|
    ensures Sound(Load(lines, n))
  {
    if n > 0 {
      LoadIsSound(lines, n - 1);
      if Loadable(lines[n - 1]) {
        PutKeepsSound(Load(lines, n - 1), lines[n - 1]);
      }
    }
  }

  function KeyList(tm: Tm): (r: seq<string>)
    ensures forall k :: k in r ==> Get(tm, k).Some?
    ensures forall k :: Get(tm, k).Some? ==> k in r
  {
    if tm == [] then []
    else
      var rest := KeyList(tm[1..]);
      [tm[0].0] + rest
  }

  function Pick(tm: Tm, keys: seq<string>): (r: seq<TmEntry>)
    requires forall k :: k in keys ==> Get(tm, k).Some?
    ensures |r| == |keys| && forall i :: 0 <= i < |keys| ==> r[i] == Get(tm, keys[i]).value
  {
    if keys == [] then [] else [Get(tm, keys[0]).value] + Pick(tm, keys[1..])
  }

  /** The rendered file: entries sorted by cache key. */
  function Render(tm: Tm): seq<TmEntry> {
    Pick(tm, SortUnique(KeyList(tm)))
  }

  /** The two memories answer every lookup alike. */
  ghost predicate Agree(a: Tm, b: Tm) {
    forall k :: Get(a, k) == Get(b, k)
  }

  /** The rendered file depends on the lookups only, not on the order of insertion. */
  lemma RenderIgnoresOrder(a: Tm, b: Tm)
    requires Agree(a, b)
    ensures Render(a) == Render(b)
  {
    forall k ensures k in KeyList(a) <==> k in KeyList(b) {
      assert Get(a, k) == Get(b, k);
    }
    SortUniqueComparesSets(KeyList(a), KeyList(b));
    var keys := SortUnique(KeyList(a));
    forall i | 0 <= i < |keys| ensures Render(a)[i] == Render(b)[i] {
      assert Get(a, keys[i]) == Get(b, keys[i]);
    }
  }

  /** The line can be loaded under this key: the key is not empty, the translation not blank. */
  predicate LoadableAs(e: TmEntry, k: string) {
    e.cacheKey == k && |k| > 0 && exists i :: 0 <= i < |e.translated| && !IsSpace(e.translated[i])
  }

  /** Line `i` is the last of the first `n` that can be loaded under this key. */
  ghost predicate LastLoadable(lines: seq<TmEntry>, n: nat, k: string, i: nat)
    requires n <= |lines|
  {
    i < n && LoadableAs(lines[i], k) && forall j :: i < j < n ==> !LoadableAs(lines[j], k)
  }

  lemma LoadOneMore(lines: seq<TmEntry>, n: nat, k: string)
    requires n < |lines|
    ensures Get(Load(lines, n + 1), k) == if LoadableAs(lines[n], k) then Some(lines[n]) else Get(Load(lines, n), k)
  {
    if Loadable(lines[n]) {
      GetPut(Load(lines, n), lines[n].cacheKey, lines[n], k);
    }
  }

  /** What a lookup has to find: the last loadable line with its key, if there is one. */
  ghost predicate IsLastLine(lines: seq<TmEntry>, n: nat, k: string, found: Option<TmEntry>)
    requires n <= |lines|
  {
    match found
    case Some(e) => exists i: nat :: LastLoadable(lines, n, k, i) && lines[i] == e
    case None => forall i :: 0 <= i < n ==> !LoadableAs(lines[i], k)
  }

  lemma LastLineOneMore(lines: seq<TmEntry>, n: nat, k: string, found: Option<TmEntry>)
    requires n < |lines| && IsLastLine(lines, n, k, found)
    ensures IsLastLine(lines, n + 1, k, if LoadableAs(lines[n], k) then Some(lines[n]) else found)
  {
    if LoadableAs(lines[n], k) {
      assert LastLoadable(lines, n + 1, k, n);
    } else if found.Some? {
      var i: nat :| LastLoadable(lines, n, k, i) && lines[i] == found.value;
      assert LastLoadable(lines, n + 1, k, i);
    }
  }

  /** A lookup in the loaded memory finds the last loadable line with its key, if there is one. */
  lemma {:induction false} LookupIsLastLine(lines: seq<TmEntry>, n: nat, k: string)
    requires n <= |lines|
    ensures IsLastLine(lines, n, k, Get(Load(lines, n), k))
  {
    if n > 0 {
      LookupIsLastLine(lines, n - 1, k);
      LoadOneMore(lines, n - 1, k);
      LastLineOneMore(lines, n - 1, k, Get(Load(lines, n - 1), k));
    }
  }

  /** Writing a sound memory and loading it back answers every lookup as before. */
  lemma LoadOfRender(tm: Tm)
    requires Sound(tm)
    ensures Agree(Load(Render(tm), |Render(tm)|), tm)
  {
    var keys, lines := SortUnique(KeyList(tm)), Render(tm);
    forall i | 0 <= i < |lines| ensures lines[i].cacheKey == keys[i] && Loadable(lines[i]) {
      GetFindsEntries(tm, keys[i]);
    }
    forall i, j | 0 <= i < j < |lines| ensures lines[i].cacheKey != lines[j].cacheKey {
      LessIsIrreflexive(keys[i]);
    }
    forall k ensures Get(Load(lines, |lines|), k) == Get(tm, k) {
      LookupIsLastLine(lines, |lines|, k);
      if Get(tm, k).Some? {
        assert k in keys;
        var i :| 0 <= i < |keys| && keys[i] == k;
        assert LoadableAs(lines[i], k);
      }
    }
  }

  // ----- The index by text hash -----

  predicate Eligible(e: TmEntry, locale: string) {
    e.tgtLang == locale && e.textHash != "" && !Blank(e.translated)
  }

  /** The last eligible entry with a text hash among the first `n`. */
  function TextIndex(tm: Tm, n: nat, locale: string): map<string, TmEntry>
    requires n <= |tm|
  {
    if n == 0 then map[]
    else
      var before, e := TextIndex(tm, n - 1, locale), tm[n - 1].1;
      if Eligible(e, locale) then before[e.textHash := e] else before
  }

  /** The loop's test for skipping an entry. */
  predicate Skipped(e: TmEntry, locale: string) {
    e.tgtLang != locale || e.textHash == "" || Trim(e.translated) == ""
  }

  lemma SkippedIffIneligible(e: TmEntry, locale: string)
    ensures Skipped(e, locale) <==> !Eligible(e, locale)
  {
    TrimIsEmptyIffBlank(e.translated);
  }

  method BuildTranslationMemoryByTextHash(tm: Tm, locale: string) returns (byTextHash: map<string, TmEntry>)
    ensures byTextHash == TextIndex(tm, |tm|, locale)
  {
    byTextHash := map[];
    for i := 0 to |tm|
      invariant byTextHash == TextIndex(tm, i, locale)
    {
      var e := tm[i].1;
      SkippedIffIneligible(e, locale);
      if Skipped(e, locale) {
        continue;
      }
      byTextHash := byTextHash[e.textHash := e];
    }
  }

  /** The entry is for the locale and has this text hash and a translation that is not blank. */
  predicate EligibleAs(e: TmEntry, locale: string, hash: string) {
    && e.tgtLang == locale && e.textHash == hash && |hash| > 0
    && exists i :: 0 <= i < |e.translated| && !IsSpace(e.translated[i])
  }

  /** Entry `i` is the last of the first `n` that is eligible with this hash. */
  ghost predicate LastEligible(tm: Tm, n: nat, locale: string, hash: string, i: nat)
    requires n <= |tm|
  {
    i < n && EligibleAs(tm[i].1, locale, hash) && forall j :: i < j < n ==> !EligibleAs(tm[j].1, locale, hash)
  }

  /** An indexed hash belongs to its last eligible entry. */
  lemma {:induction false} IndexHoldsEligible(tm: Tm, n: nat, locale: string, hash: string)
    requires n <= |tm|
    ensures var idx := TextIndex(tm, n, locale);
            hash in idx ==> exists i: nat :: LastEligible(tm, n, locale, hash, i) && tm[i].1 == idx[hash]
  {
    if n > 0 {
      IndexHoldsEligible(tm, n - 1, locale, hash);
      var before, e := TextIndex(tm, n - 1, locale), tm[n - 1].1;
      if EligibleAs(e, locale, hash) {
        assert LastEligible(tm, n, locale, hash, n - 1);
      } else if hash in before {
        var i: nat :| LastEligible(tm, n - 1, locale, hash, i) && tm[i].1 == before[hash];
        assert LastEligible(tm, n, locale, hash, i);
      }
    }
  }

  /** Every eligible entry's hash is indexed. */
  lemma {:induction false} EligibleIsIndexed(tm: Tm, n: nat, locale: string, i: nat)
    requires i < n <= |tm| && Eligible(tm[i].1, locale)
    ensures tm[i].1.textHash in TextIndex(tm, n, locale)
  {
    if i < n - 1 {
      EligibleIsIndexed(tm, n - 1, locale, i);
    }
  }

  lemma {:induction false} IndexedEntryIsEligible(tm: Tm, n: nat, locale: string, hash: string)
    requires n <= |tm| && hash in TextIndex(tm, n, locale)
    ensures Eligible(TextIndex(tm, n, locale)[hash], locale) && TextIndex(tm, n, locale)[hash].textHash == hash
  {
    if !(Eligible(tm[n - 1].1, locale) && tm[n - 1].1.textHash == hash) {
      IndexedEntryIsEligible(tm, n - 1, locale, hash);
    }
  }

  lemma LookedUpIsIndexed(tm: Tm, locale: string, k: string)
    requires Sound(tm) && Get(tm, k).Some? && Eligible(Get(tm, k).value, locale)
    ensures Get(tm, k).value.textHash in TextIndex(tm, |tm|, locale)
  {
    GetFindsEntries(tm, k);
    var i :| 0 <= i < |tm| && tm[i] == (k, Get(tm, k).value);
    EligibleIsIndexed(tm, |tm|, locale, i);
  }

  lemma IndexedIsLookedUp(tm: Tm, locale: string, hash: string) returns (k: string)
    requires Sound(tm) && hash in TextIndex(tm, |tm|, locale)
    ensures Get(tm, k).Some? && Eligible(Get(tm, k).value, locale) && Get(tm, k).value.textHash == hash
  {
    IndexHoldsEligible(tm, |tm|, locale, hash);
    var i: nat :| LastEligible(tm, |tm|, locale, hash, i);
    k := tm[i].0;
    GetFindsEntries(tm, k);
  }

  // ----- The index in terms of the file's lines -----

  /** Line `a` is the first of the first `n` that can be loaded under this key. */
  ghost predicate FirstLoadable(lines: seq<TmEntry>, n: nat, k: string, a: nat)
    requires n <= |lines|
  {
    a < n && LoadableAs(lines[a], k) && forall b :: 0 <= b < a ==> !LoadableAs(lines[b], k)
  }

  lemma {:induction false} SomeLineIsFirst(lines: seq<TmEntry>, n: nat, k: string, i: nat) returns (a: nat)
    requires i < n <= |lines| && LoadableAs(lines[i], k)
    ensures FirstLoadable(lines, n, k, a) && a <= i
  {
    if b :| 0 <= b < i && LoadableAs(lines[b], k) {
      a := SomeLineIsFirst(lines, n, k, b);
    } else {
      a := i;
    }
  }

  /** The entries stand in the order of the first lines of their keys. */
  ghost predicate InLineOrder(tm: Tm, lines: seq<TmEntry>, n: nat)
    requires n <= |lines|
  {
    forall i, j, a, b ::
      0 <= i < j < |tm| && FirstLoadable(lines, n, tm[i].0, a) && FirstLoadable(lines, n, tm[j].0, b) ==> a < b
  }

  lemma FirstLineStays(lines: seq<TmEntry>, n: nat, k: string, a: nat)
    requires n < |lines| && FirstLoadable(lines, n + 1, k, a)
    ensures if a < n then FirstLoadable(lines, n, k, a)
            else LoadableAs(lines[n], k) && forall i :: 0 <= i < n ==> !LoadableAs(lines[i], k)
  {}

  /** A key that was loaded before has its first line there, and any other has it at line `n`. */
  lemma FirstLineOfEntry(lines: seq<TmEntry>, n: nat, k: string, a: nat)
    requires n < |lines| && FirstLoadable(lines, n + 1, k, a)
    ensures if Get(Load(lines, n), k).Some? then FirstLoadable(lines, n, k, a) else a == n
  {
    FirstLineStays(lines, n, k, a);
    LookupIsLastLine(lines, n, k);
  }

  /** Loading line `n` leaves the order of two entries as it was, or appends the second. */
  lemma LoadKeepsOrderOfTwo(lines: seq<TmEntry>, n: nat, i: nat, j: nat, a: nat, b: nat)
    requires n < |lines| && InLineOrder(Load(lines, n), lines, n) && i < j < |Load(lines, n + 1)|
    requires FirstLoadable(lines, n + 1, Load(lines, n + 1)[i].0, a)
    requires FirstLoadable(lines, n + 1, Load(lines, n + 1)[j].0, b)
    ensures a < b
  {
    var before, tm, e := Load(lines, n), Load(lines, n + 1), lines[n];
    LoadIsSound(lines, n);
    PutKeepsPlaces(before, e.cacheKey, e);
    assert i < |before| && before[i].0 == tm[i].0 && (j < |before| ==> before[j].0 == tm[j].0);
    FirstLineOfEntry(lines, n, tm[i].0, a);
    FirstLineOfEntry(lines, n, tm[j].0, b);
    GetFindsEntries(before, tm[i].0);
    GetFindsEntries(before, tm[j].0);
  }

  /** The entries of a loaded memory stand in the order in which their keys came up. */
  lemma {:induction false} LoadKeepsLineOrder(lines: seq<TmEntry>, n: nat)
    requires n <= |lines|
    ensures InLineOrder(Load(lines, n), lines, n)
  {
    if n > 0 {
      LoadKeepsLineOrder(lines, n - 1);
      var tm := Load(lines, n);
      forall i, j, a, b |
        0 <= i < j < |tm| && FirstLoadable(lines, n, tm[i].0, a) && FirstLoadable(lines, n, tm[j].0, b)
        ensures a < b
      {
        LoadKeepsOrderOfTwo(lines, n - 1, i, j, a, b);
      }
    }
  }

  /** Line `l` is what its key loads as, and is eligible with this hash; line `f` is the key's first. */
  ghost predicate HashLine(lines: seq<TmEntry>, locale: string, hash: string, f: nat, l: nat) {
    && l < |lines| && EligibleAs(lines[l], locale, hash)
    && FirstLoadable(lines, |lines|, lines[l].cacheKey, f) && LastLoadable(lines, |lines|, lines[l].cacheKey, l)
  }

  /** Of the lines with this hash, the one whose key came up last. */
  ghost predicate LastHashLine(lines: seq<TmEntry>, locale: string, hash: string, l: nat) {
    exists f: nat :: HashLine(lines, locale, hash, f, l) && IsLatest(lines, locale, hash, f)
  }

  /** No key with this hash came up after line `f`. */
  ghost predicate IsLatest(lines: seq<TmEntry>, locale: string, hash: string, f: nat) {
    forall g: nat, m: nat :: HashLine(lines, locale, hash, g, m) ==> g <= f
  }

  /** What a lookup by text hash has to find. */
  ghost predicate IsLastHashLine(lines: seq<TmEntry>, locale: string, hash: string, found: Option<TmEntry>) {
    match found
    case Some(e) => exists l: nat :: LastHashLine(lines, locale, hash, l) && lines[l] == e
    case None => forall f: nat, l: nat :: !HashLine(lines, locale, hash, f, l)
  }

  /** The entry of a loaded memory and its key's lines. */
  lemma LinesOfEntry(lines: seq<TmEntry>, i: nat) returns (f: nat, l: nat)
    requires i < |Load(lines, |lines|)|
    ensures var (k, e) := Load(lines, |lines|)[i];
            && FirstLoadable(lines, |lines|, k, f) && LastLoadable(lines, |lines|, k, l)
            && lines[l] == e && e.cacheKey == k
  {
    var tm := Load(lines, |lines|);
    LoadIsSound(lines, |lines|);
    GetFindsEntries(tm, tm[i].0);
    LookupIsLastLine(lines, |lines|, tm[i].0);
    l :| LastLoadable(lines, |lines|, tm[i].0, l) && lines[l] == tm[i].1;
    f := SomeLineIsFirst(lines, |lines|, tm[i].0, l);
  }

  lemma EntryOfHashLine(lines: seq<TmEntry>, locale: string, hash: string, f: nat, l: nat) returns (i: nat)
    requires HashLine(lines, locale, hash, f, l)
    ensures i < |Load(lines, |lines|)| && Load(lines, |lines|)[i] == (lines[l].cacheKey, lines[l])
  {
    var tm, k := Load(lines, |lines|), lines[l].cacheKey;
    LookupIsLastLine(lines, |lines|, k);
    GetFindsEntries(tm, k);
    assert Get(tm, k) == Some(lines[l]);
    i :| 0 <= i < |tm| && tm[i] == (k, lines[l]);
  }

  /** The index holds, for each text hash, the line whose key came up last. */
  lemma IndexIsLastHashLine(lines: seq<TmEntry>, locale: string, hash: string)
    ensures var idx := TextIndex(Load(lines, |lines|), |Load(lines, |lines|)|, locale);
            IsLastHashLine(lines, locale, hash, if hash in idx then Some(idx[hash]) else None)
  {
    var tm := Load(lines, |lines|);
    var idx := TextIndex(tm, |tm|, locale);
    IndexHoldsEligible(tm, |tm|, locale, hash);
    if hash in idx {
      var i: nat :| LastEligible(tm, |tm|, locale, hash, i) && tm[i].1 == idx[hash];
      var f, l := LinesOfEntry(lines, i);
      forall g: nat, m: nat | HashLine(lines, locale, hash, g, m) ensures g <= f {
        var j := EntryOfHashLine(lines, locale, hash, g, m);
        assert j <= i;
        LoadKeepsLineOrder(lines, |lines|);
        assert j < i ==> g < f;
        assert j == i ==> g == f;
      }
      assert HashLine(lines, locale, hash, f, l);
      assert LastHashLine(lines, locale, hash, l);
    } else {
      forall f: nat, l: nat ensures !HashLine(lines, locale, hash, f, l) {
        if HashLine(lines, locale, hash, f, l) {
          var i := EntryOfHashLine(lines, locale, hash, f, l);
          EligibleIsIndexed(tm, |tm|, locale, i);
        }
      }
    }
  }
}
