/**
 What one locale sync produces, key by key, and why a second sync finds nothing to do.
 The files are modelled as the values they round-trip to.
 */
module SyncSpec {
  import opened Wrappers
  import opened Text
  import opened OrderedMap
  import opened TranslationTree
  import opened TranslationMemory

  const CONTROL_UI_I18N_WORKFLOW: nat := 1
  const SOURCE_LOCALE := "en"

  datatype GlossaryEntry = GlossaryEntry(source: string, target: string)

  const DEFAULT_GLOSSARY: seq<GlossaryEntry> := [
    GlossaryEntry("MarketingClaw", "MarketingClaw"), GlossaryEntry("Gateway", "Gateway"),
    GlossaryEntry("Control UI", "Control UI"), GlossaryEntry("Skills", "Skills"),
    GlossaryEntry("Tailscale", "Tailscale"), GlossaryEntry("WhatsApp", "WhatsApp"),
    GlossaryEntry("Telegram", "Telegram"), GlossaryEntry("Discord", "Discord"),
    GlossaryEntry("Signal", "Signal"), GlossaryEntry("iMessage", "iMessage")]

  datatype Meta = Meta(
    fallbackKeys: seq<string>, generatedAt: string, locale: string, model: string, provider: string,
    sourceHash: string, totalKeys: nat, translatedKeys: int, workflow: nat)

  /** The four files of one locale; a missing translation memory reads as an empty one. */
  datatype Files = Files(locale: Option<Kids>, meta: Option<Meta>, glossary: Option<seq<GlossaryEntry>>,
                         tm: seq<TmEntry>)

  /** What the SHA-256 of a cache key is taken over. */
  datatype CacheKey = CacheKey(provider: string, model: string, locale: string, segmentId: string, textHash: string)

  datatype Config = Config(
    locale: string, fileName: string, provider: string, model: string,
    allowTranslate: bool, force: bool, sourceHash: string, now: string,
    hashText: string -> string, digest: CacheKey -> string)

  /** The hash of cache keys has no collisions and is never the empty string. */
  ghost predicate Collisionless(cfg: Config) {
    && (forall a, b :: cfg.digest(a) == cfg.digest(b) ==> a == b)
    && (forall a :: cfg.digest(a) != "")
  }

  function KeyFor(cfg: Config, key: string, text: string): string {
    cfg.digest(CacheKey(cfg.provider, cfg.model, cfg.locale, key, cfg.hashText(text)))
  }

  /** What the sync knows about a key before it decides. */
  datatype View = View(tm: Tm, byText: map<string, TmEntry>, existing: Entries<string>, fallback: seq<string>)

  function Look(cfg: Config, files: Files): View {
    var tm := Load(files.tm, |files.tm|);
    View(tm, TextIndex(tm, |tm|, cfg.locale),
         if files.locale.Some? then Flatten(files.locale.value) else [],
         if files.meta.Some? then files.meta.value.fallbackKeys else [])
  }

  function ShouldReuseExistingTranslation(allowTranslate: bool, force: bool, isFallback: bool): bool {
    !isFallback || (!allowTranslate && !force)
  }

  datatype Decision =
    | FromMemory(text: string, keepFallback: bool)
    | FromTextHash(entry: TmEntry)
    | FromLocale(text: string, keepFallback: bool)
    | Queue

  function Decide(cfg: Config, v: View, key: string, text: string): Decision {
    var hash := cfg.hashText(text);
    var cached := Get(v.tm, KeyFor(cfg, key, text));
    var existing := Get(v.existing, key);
    var isFallback := key in v.fallback;
    var reuse := ShouldReuseExistingTranslation(cfg.allowTranslate, cfg.force, isFallback);
    if cached.Some? && reuse then FromMemory(cached.value.translated, isFallback)
    else if hash in v.byText && (isFallback || existing.None?) then FromTextHash(v.byText[hash])
    else if existing.Some? && reuse then FromLocale(existing.value, isFallback)
    else Queue
  }

  /** The text a key ends with, and whether it is recorded as a fallback. */
  datatype Outcome = Outcome(text: string, fallback: bool)

  function Settle(cfg: Config, v: View, answers: map<string, string>, key: string, text: string): Outcome {
    match Decide(cfg, v, key, text)
    case FromMemory(t, keep) => Outcome(t, keep)
    case FromTextHash(e) => Outcome(e.translated, false)
    case FromLocale(t, keep) => Outcome(t, keep)
    case Queue =>
      var existing := Get(v.existing, key);
      if key in answers then Outcome(answers[key], false)
      else if existing.Some? && !cfg.force then Outcome(existing.value, key in v.fallback)
      else Outcome(text, true)
  }

  function CopyFor(cfg: Config, e: TmEntry, key: string, text: string): TmEntry {
    e.(cacheKey := KeyFor(cfg, key, text), segmentId := key, sourcePath := "ui/src/i18n/locales/" + cfg.fileName)
  }

  function EntryFor(cfg: Config, key: string, text: string, value: string): TmEntry {
    TmEntry(KeyFor(cfg, key, text), cfg.model, cfg.provider, key, "ui/src/i18n/locales/" + cfg.fileName,
            SOURCE_LOCALE, text, cfg.hashText(text), cfg.locale, value, cfg.now)
  }

  /** The memory entry the sync writes for a key, if any. */
  function Remember(cfg: Config, v: View, answers: map<string, string>, key: string, text: string): Option<TmEntry> {
    match Decide(cfg, v, key, text)
    case FromTextHash(e) => Some(CopyFor(cfg, e, key, text))
    case Queue => if key in answers then Some(EntryFor(cfg, key, text, answers[key])) else None
    case _ => None
  }

  function MemoryAfter(cfg: Config, v: View, answers: map<string, string>, src: Entries<string>, n: nat): Tm
    requires n <= |src|
  {
    if n == 0 then v.tm
    else
      var before, e := MemoryAfter(cfg, v, answers, src, n - 1), Remember(cfg, v, answers, src[n - 1].0, src[n - 1].1);
      if e.Some? then Put(before, e.value.cacheKey, e.value) else before
  }

  function FallbackKeys(cfg: Config, v: View, answers: map<string, string>, src: Entries<string>, n: nat): seq<string>
    requires n <= |src|
  {
    if n == 0 then []
    else
      FallbackKeys(cfg, v, answers, src, n - 1)
      + (if Settle(cfg, v, answers, src[n - 1].0, src[n - 1].1).fallback then [src[n - 1].0] else [])
  }

  /** The flat map that is written: every source key with its text. */
  function Rebuilt(cfg: Config, v: View, answers: map<string, string>, src: Entries<string>): (r: Entries<string>)
    ensures |r| == |src|
    ensures forall i :: 0 <= i < |src| ==> r[i] == (src[i].0, Settle(cfg, v, answers, src[i].0, src[i].1).text)
  {
    seq(|src|, i requires 0 <= i < |src| => (src[i].0, Settle(cfg, v, answers, src[i].0, src[i].1).text))
  }

  function NextMeta(cfg: Config, previous: Option<Meta>, total: nat, fallbackKeys: seq<string>): Meta {
    var provider := if cfg.allowTranslate then cfg.provider else if previous.Some? then previous.value.provider else "";
    var model := if cfg.allowTranslate then cfg.model else if previous.Some? then previous.value.model else "";
    var next := Meta(fallbackKeys, cfg.now, cfg.locale, model, provider, cfg.sourceHash, total, total - |fallbackKeys|,
                     CONTROL_UI_I18N_WORKFLOW);
    if previous.Some? && previous.value.(generatedAt := cfg.now) == next then previous.value else next
  }

  function NextGlossary(previous: Option<seq<GlossaryEntry>>): seq<GlossaryEntry> {
    var loaded := previous.GetOr([]);
    if loaded == [] then DEFAULT_GLOSSARY else loaded
  }

  /** The files after a sync whose queued keys got `answers`. */
  function Expected(cfg: Config, src: Entries<string>, files: Files, answers: map<string, string>): Files {
    var v := Look(cfg, files);
    Files(
      Some(Nest(Rebuilt(cfg, v, answers, src), |src|)),
      Some(NextMeta(cfg, files.meta, |src|, SortUnique(FallbackKeys(cfg, v, answers, src, |src|)))),
      Some(NextGlossary(files.glossary)),
      Render(MemoryAfter(cfg, v, answers, src, |src|)))
  }

  /** With a provider all queued keys and no others are answered, without one none is. */
  ghost predicate AnswersFit(cfg: Config, v: View, src: Entries<string>, answers: map<string, string>) {
    && (forall i :: 0 <= i < |src| && cfg.allowTranslate && Decide(cfg, v, src[i].0, src[i].1).Queue? ==>
          src[i].0 in answers)
    && (forall k :: k in answers ==>
          && cfg.allowTranslate && !Blank(answers[k])
          && exists i :: 0 <= i < |src| && src[i].0 == k && Decide(cfg, v, k, src[i].1).Queue?)
  }

  // ----- What the memory looks like afterwards -----

  lemma KeysAreSeparate(cfg: Config, a: string, s: string, b: string, t: string)
    requires Collisionless(cfg)
    ensures KeyFor(cfg, a, s) == KeyFor(cfg, b, t) ==> a == b
  {}

  lemma TextHashHit(cfg: Config, files: Files, key: string, text: string)
    requires Decide(cfg, Look(cfg, files), key, text).FromTextHash?
    ensures var e := Decide(cfg, Look(cfg, files), key, text).entry;
            Eligible(e, cfg.locale) && e.textHash == cfg.hashText(text) && e.textHash in Look(cfg, files).byText
  {
    var v := Look(cfg, files);
    IndexedEntryIsEligible(v.tm, |v.tm|, cfg.locale, cfg.hashText(text));
  }

  lemma RememberedIsLoadable(cfg: Config, files: Files, answers: map<string, string>, src: Entries<string>, i: nat)
    requires Collisionless(cfg) && i < |src| && AnswersFit(cfg, Look(cfg, files), src, answers)
    ensures var e := Remember(cfg, Look(cfg, files), answers, src[i].0, src[i].1);
            e.Some? ==> Loadable(e.value) && e.value.cacheKey == KeyFor(cfg, src[i].0, src[i].1)
  {
    var v := Look(cfg, files);
    if Decide(cfg, v, src[i].0, src[i].1).FromTextHash? {
      TextHashHit(cfg, files, src[i].0, src[i].1);
    }
  }

  /** Writing memory entries for some keys does not touch the entry of another. */
  lemma {:induction false} OtherKeysDoNotInterfere(cfg: Config, v: View, answers: map<string, string>,
                                                   src: Entries<string>,
                                                   n: nat, c: string)
    requires n <= |src|
    requires forall i :: 0 <= i < n ==> KeyFor(cfg, src[i].0, src[i].1) != c
    ensures Get(MemoryAfter(cfg, v, answers, src, n), c) == Get(v.tm, c)
  {
    if n > 0 {
      OtherKeysDoNotInterfere(cfg, v, answers, src, n - 1, c);
      var before, e := MemoryAfter(cfg, v, answers, src, n - 1), Remember(cfg, v, answers, src[n - 1].0, src[n - 1].1);
      if e.Some? {
        GetPut(before, e.value.cacheKey, e.value, c);
      }
    }
  }

  /** The entry of a source key is what was written for it, or the earlier one. */
  ghost predicate HoldsEntry(cfg: Config, v: View, answers: map<string, string>, key: string, text: string, tm: Tm) {
    var e := Remember(cfg, v, answers, key, text);
    Get(tm, KeyFor(cfg, key, text)) == if e.Some? then e else Get(v.tm, KeyFor(cfg, key, text))
  }

  lemma {:induction false} MemoryAt(cfg: Config, v: View, answers: map<string, string>, src: Entries<string>, n: nat,
                                    i: nat)
    requires Collisionless(cfg) && Distinct(src) && i < n <= |src|
    ensures HoldsEntry(cfg, v, answers, src[i].0, src[i].1, MemoryAfter(cfg, v, answers, src, n))
  {
    if i < n - 1 {
      MemoryAt(cfg, v, answers, src, n - 1, i);
      WritingKeepsEntry(cfg, v, answers, src, n - 1, i, MemoryAfter(cfg, v, answers, src, n - 1));
    } else {
      MemoryAtLast(cfg, v, answers, src, i);
    }
  }

  /** Writing for another key keeps the entry. */
  lemma WritingKeepsEntry(cfg: Config, v: View, answers: map<string, string>, src: Entries<string>, n: nat, i: nat,
                          tm: Tm)
    requires Collisionless(cfg) && Distinct(src) && i < n < |src|
    requires HoldsEntry(cfg, v, answers, src[i].0, src[i].1, tm)
    ensures var e := Remember(cfg, v, answers, src[n].0, src[n].1);
            HoldsEntry(cfg, v, answers, src[i].0, src[i].1, if e.Some? then Put(tm, e.value.cacheKey, e.value) else tm)
  {
    var e := Remember(cfg, v, answers, src[n].0, src[n].1);
    if e.Some? {
      GetPut(tm, e.value.cacheKey, e.value, KeyFor(cfg, src[i].0, src[i].1));
      KeysAreSeparate(cfg, src[i].0, src[i].1, src[n].0, src[n].1);
    }
  }

  lemma MemoryAtLast(cfg: Config, v: View, answers: map<string, string>, src: Entries<string>, i: nat)
    requires Collisionless(cfg) && Distinct(src) && i < |src|
    ensures HoldsEntry(cfg, v, answers, src[i].0, src[i].1, MemoryAfter(cfg, v, answers, src, i + 1))
  {
    var ck := KeyFor(cfg, src[i].0, src[i].1);
    var before, e := MemoryAfter(cfg, v, answers, src, i), Remember(cfg, v, answers, src[i].0, src[i].1);
    forall j | 0 <= j < i ensures KeyFor(cfg, src[j].0, src[j].1) != ck {
      KeysAreSeparate(cfg, src[j].0, src[j].1, src[i].0, src[i].1);
    }
    OtherKeysDoNotInterfere(cfg, v, answers, src, i, ck);
    if e.Some? {
      GetPut(before, e.value.cacheKey, e.value, ck);
    }
  }

  lemma {:induction false} MemoryIsSound(cfg: Config, files: Files, answers: map<string, string>,
                                         src: Entries<string>, n: nat)
    requires Collisionless(cfg) && n <= |src| && AnswersFit(cfg, Look(cfg, files), src, answers)
    ensures Sound(MemoryAfter(cfg, Look(cfg, files), answers, src, n))
  {
    var v := Look(cfg, files);
    LoadIsSound(files.tm, |files.tm|);
    if n > 0 {
      MemoryIsSound(cfg, files, answers, src, n - 1);
      RememberedIsLoadable(cfg, files, answers, src, n - 1);
      var before, e := MemoryAfter(cfg, v, answers, src, n - 1), Remember(cfg, v, answers, src[n - 1].0, src[n - 1].1);
      if e.Some? {
        PutKeepsSound(before, e.value);
      }
    }
  }

  /** The memory afterwards: what was written for each source key, and the rest unchanged. */
  ghost predicate HoldsWhatWasWritten(cfg: Config, v: View, answers: map<string, string>, src: Entries<string>,
                                      after: Tm)
  {
    && (forall i :: 0 <= i < |src| ==>
          var ck, e := KeyFor(cfg, src[i].0, src[i].1), Remember(cfg, v, answers, src[i].0, src[i].1);
          Get(after, ck) == if e.Some? then e else Get(v.tm, ck))
    && (forall c :: (forall i :: 0 <= i < |src| ==> c != KeyFor(cfg, src[i].0, src[i].1)) ==>
          Get(after, c) == Get(v.tm, c))
  }

  lemma MemoryLookup(cfg: Config, files: Files, answers: map<string, string>, src: Entries<string>)
    requires Collisionless(cfg) && Distinct(src) && AnswersFit(cfg, Look(cfg, files), src, answers)
    ensures var after := MemoryAfter(cfg, Look(cfg, files), answers, src, |src|);
            Sound(after) && HoldsWhatWasWritten(cfg, Look(cfg, files), answers, src, after)
  {
    var v := Look(cfg, files);
    MemoryIsSound(cfg, files, answers, src, |src|);
    forall i | 0 <= i < |src|
      ensures var ck, e := KeyFor(cfg, src[i].0, src[i].1), Remember(cfg, v, answers, src[i].0, src[i].1);
              Get(MemoryAfter(cfg, v, answers, src, |src|), ck) == if e.Some? then e else Get(v.tm, ck)
    {
      MemoryAt(cfg, v, answers, src, |src|, i);
    }
    forall c | forall i :: 0 <= i < |src| ==> c != KeyFor(cfg, src[i].0, src[i].1)
      ensures Get(MemoryAfter(cfg, v, answers, src, |src|), c) == Get(v.tm, c)
    {
      OtherKeysDoNotInterfere(cfg, v, answers, src, |src|, c);
    }
  }

  lemma {:induction false} FallbackKeysAre(cfg: Config, v: View, answers: map<string, string>, src: Entries<string>,
                                           n: nat)
    requires n <= |src|
    ensures forall x :: x in FallbackKeys(cfg, v, answers, src, n) <==>
              exists i :: 0 <= i < n && src[i].0 == x && Settle(cfg, v, answers, src[i].0, src[i].1).fallback
  {
    if n > 0 {
      FallbackKeysAre(cfg, v, answers, src, n - 1);
    }
  }

  /** One key's part of that: keys are distinct, so only its own entry can put it on the list. */
  lemma {:induction false} IsFallbackKey(cfg: Config, v: View, answers: map<string, string>, src: Entries<string>,
                                         n: nat, i: nat)
    requires Distinct(src) && n <= |src| && i < |src|
    ensures src[i].0 in FallbackKeys(cfg, v, answers, src, n)
       <==> i < n && Settle(cfg, v, answers, src[i].0, src[i].1).fallback
  {
    if n > 0 {
      IsFallbackKey(cfg, v, answers, src, n - 1, i);
      assert i != n - 1 ==> src[i].0 != src[n - 1].0;
    }
  }

  // ----- With a provider nothing is left as a fallback -----

  lemma {:induction false} NoFallbackWithProvider(cfg: Config, v: View, answers: map<string, string>,
                                                  src: Entries<string>, n: nat)
    requires n <= |src| && cfg.allowTranslate && AnswersFit(cfg, v, src, answers)
    ensures FallbackKeys(cfg, v, answers, src, n) == []
  {
    if n > 0 {
      NoFallbackWithProvider(cfg, v, answers, src, n - 1);
      assert !Settle(cfg, v, answers, src[n - 1].0, src[n - 1].1).fallback;
    }
  }

  /** A sync with a provider whose batches all succeed ends with every source key translated. */
  lemma ProviderLeavesNoFallback(cfg: Config, src: Entries<string>, files: Files, answers: map<string, string>)
    requires cfg.allowTranslate && AnswersFit(cfg, Look(cfg, files), src, answers)
    ensures var meta := Expected(cfg, src, files, answers).meta.value;
            meta.fallbackKeys == [] && meta.translatedKeys == meta.totalKeys == |src|
  {
    NoFallbackWithProvider(cfg, Look(cfg, files), answers, src, |src|);
  }

  // ----- The second run -----

  /** What the second run sees of a key that the first run settled. */
  ghost predicate Sees(cfg: Config, v0: View, v1: View, answers: map<string, string>, key: string, text: string) {
    var o, e := Settle(cfg, v0, answers, key, text), Remember(cfg, v0, answers, key, text);
    var ck := KeyFor(cfg, key, text);
    && Get(v1.existing, key) == Some(o.text)
    && (key in v1.fallback <==> o.fallback)
    && Get(v1.tm, ck) == (if e.Some? then e else Get(v0.tm, ck))
    && (!cfg.allowTranslate ==> (cfg.hashText(text) in v1.byText ==> cfg.hashText(text) in v0.byText))
  }

  /**
   The heart of idempotence: on the second run the key settles to the same text and the
   same fallback state, the text-hash index is not used, and nothing is sent or remembered.
   */
  lemma SecondDecision(cfg: Config, v0: View, v1: View, answers: map<string, string>, key: string, text: string)
    requires Sees(cfg, v0, v1, answers, key, text)
    requires cfg.allowTranslate && Decide(cfg, v0, key, text).Queue? ==> key in answers
    requires !cfg.allowTranslate ==> key !in answers
    ensures !Decide(cfg, v1, key, text).FromTextHash?
    ensures cfg.allowTranslate ==> !Decide(cfg, v1, key, text).Queue?
    ensures Settle(cfg, v1, map[], key, text) == Settle(cfg, v0, answers, key, text)
    ensures Remember(cfg, v1, map[], key, text).None?
  {}

  /** The keys of the source survive being nested and flattened. */
  ghost predicate NestsCleanly(src: Entries<string>) {
    Distinct(src) && PrefixFree(src) && NoLeadingDot(src)
  }

  lemma {:induction false} GetAtIndex(m: Entries<string>, i: nat)
    requires Distinct(m) && i < |m|
    ensures Get(m, m[i].0) == Some(m[i].1)
  {
    GetFindsEntries(m, m[i].0);
  }

  lemma RebuiltNests(cfg: Config, v: View, answers: map<string, string>, src: Entries<string>)
    requires NestsCleanly(src)
    ensures var rebuilt := Rebuilt(cfg, v, answers, src);
            Distinct(rebuilt) && RoundTrips(rebuilt)
  {
    var rebuilt := Rebuilt(cfg, v, answers, src);
    assert forall k :: 0 <= k < |src| ==> rebuilt[k].0 == src[k].0;
    NestThenFlatten(rebuilt);
  }

  /** The locale file of the first run reads back as what it settled. */
  lemma ReadsBackLocale(cfg: Config, src: Entries<string>, files: Files, answers: map<string, string>, i: nat)
    requires NestsCleanly(src) && i < |src|
    ensures Get(Look(cfg, Expected(cfg, src, files, answers)).existing, src[i].0)
         == Some(Settle(cfg, Look(cfg, files), answers, src[i].0, src[i].1).text)
  {
    var rebuilt := Rebuilt(cfg, Look(cfg, files), answers, src);
    RebuiltNests(cfg, Look(cfg, files), answers, src);
    assert Look(cfg, Expected(cfg, src, files, answers)).existing == Flatten(Nest(rebuilt, |rebuilt|));
    GetAtIndex(rebuilt, i);
  }

  lemma ReadsBackFallback(cfg: Config, src: Entries<string>, files: Files, answers: map<string, string>, i: nat)
    requires Distinct(src) && i < |src|
    ensures src[i].0 in Look(cfg, Expected(cfg, src, files, answers)).fallback
       <==> Settle(cfg, Look(cfg, files), answers, src[i].0, src[i].1).fallback
  {
    IsFallbackKey(cfg, Look(cfg, files), answers, src, |src|, i);
  }

  /** Without a provider every entry of the memory afterwards has a text hash indexed before. */
  lemma RememberedHashWasKnown(cfg: Config, src: Entries<string>, files: Files, k: string)
    requires Collisionless(cfg) && Distinct(src) && !cfg.allowTranslate
    requires var e := Get(MemoryAfter(cfg, Look(cfg, files), map[], src, |src|), k);
             e.Some? && Eligible(e.value, cfg.locale)
    ensures Get(MemoryAfter(cfg, Look(cfg, files), map[], src, |src|), k).value.textHash in Look(cfg, files).byText
  {
    var v := Look(cfg, files);
    var after := MemoryAfter(cfg, v, map[], src, |src|);
    MemoryLookup(cfg, files, map[], src);
    LoadIsSound(files.tm, |files.tm|);
    if exists i :: 0 <= i < |src| && k == KeyFor(cfg, src[i].0, src[i].1)
                   && Remember(cfg, v, map[], src[i].0, src[i].1).Some? {
      var i :| 0 <= i < |src| && k == KeyFor(cfg, src[i].0, src[i].1)
        && Remember(cfg, v, map[], src[i].0, src[i].1).Some?;
      assert Get(after, k) == Remember(cfg, v, map[], src[i].0, src[i].1);
      assert Decide(cfg, v, src[i].0, src[i].1).FromTextHash?;
      TextHashHit(cfg, files, src[i].0, src[i].1);
    } else {
      assert Get(after, k) == Get(v.tm, k);
      LookedUpIsIndexed(v.tm, cfg.locale, k);
    }
  }

  /** Without a provider the sync adds no new text hash to the index. */
  lemma IndexDoesNotGrow(cfg: Config, src: Entries<string>, files: Files, hash: string)
    requires Collisionless(cfg) && Distinct(src) && !cfg.allowTranslate
    ensures hash in Look(cfg, Expected(cfg, src, files, map[])).byText ==> hash in Look(cfg, files).byText
  {
    var next := Expected(cfg, src, files, map[]);
    var tm := Look(cfg, next).tm;
    MemoryLookup(cfg, files, map[], src);
    LoadOfRender(MemoryAfter(cfg, Look(cfg, files), map[], src, |src|));
    LoadIsSound(next.tm, |next.tm|);
    if hash in Look(cfg, next).byText {
      var k := IndexedIsLookedUp(tm, cfg.locale, hash);
      RememberedHashWasKnown(cfg, src, files, k);
    }
  }

  lemma SecondRunSees(cfg: Config, src: Entries<string>, files: Files, answers: map<string, string>, i: nat)
    requires Collisionless(cfg) && NestsCleanly(src) && i < |src|
    requires AnswersFit(cfg, Look(cfg, files), src, answers)
    ensures Sees(cfg, Look(cfg, files), Look(cfg, Expected(cfg, src, files, answers)), answers, src[i].0, src[i].1)
  {
    var v0, next := Look(cfg, files), Expected(cfg, src, files, answers);
    var ck := KeyFor(cfg, src[i].0, src[i].1);
    ReadsBackLocale(cfg, src, files, answers, i);
    ReadsBackFallback(cfg, src, files, answers, i);
    MemoryLookup(cfg, files, answers, src);
    LoadOfRender(MemoryAfter(cfg, v0, answers, src, |src|));
    assert Get(Look(cfg, next).tm, ck) == Get(MemoryAfter(cfg, v0, answers, src, |src|), ck);
    if !cfg.allowTranslate {
      assert answers == map[];
      IndexDoesNotGrow(cfg, src, files, cfg.hashText(src[i].1));
    }
  }

  /** The second run with the same configuration, at any later time. */
  function Again(cfg: Config, now: string): Config {
    cfg.(now := now)
  }

  lemma LaterDecidesAlike(cfg: Config, now: string, v: View, key: string, text: string)
    ensures Decide(Again(cfg, now), v, key, text) == Decide(cfg, v, key, text)
    ensures Settle(Again(cfg, now), v, map[], key, text) == Settle(cfg, v, map[], key, text)
    ensures Remember(Again(cfg, now), v, map[], key, text).None? <==> Remember(cfg, v, map[], key, text).None?
  {}

  lemma {:induction false} NothingRemembered(cfg: Config, v: View, src: Entries<string>, n: nat)
    requires n <= |src|
    requires forall i :: 0 <= i < |src| ==> Remember(cfg, v, map[], src[i].0, src[i].1).None?
    ensures MemoryAfter(cfg, v, map[], src, n) == v.tm
  {
    if n > 0 {
      NothingRemembered(cfg, v, src, n - 1);
    }
  }

  lemma {:induction false} SameFallbacks(cfg: Config, c1: Config, v0: View, v1: View, answers: map<string, string>,
                                         src: Entries<string>, n: nat)
    requires n <= |src|
    requires forall i :: 0 <= i < |src| ==>
               Settle(c1, v1, map[], src[i].0, src[i].1) == Settle(cfg, v0, answers, src[i].0, src[i].1)
    ensures FallbackKeys(c1, v1, map[], src, n) == FallbackKeys(cfg, v0, answers, src, n)
  {
    if n > 0 {
      SameFallbacks(cfg, c1, v0, v1, answers, src, n - 1);
    }
  }

  lemma SecondRunOfKey(cfg: Config, src: Entries<string>, files: Files, answers: map<string, string>, now: string,
                       i: nat)
    requires Collisionless(cfg) && NestsCleanly(src) && i < |src|
    requires AnswersFit(cfg, Look(cfg, files), src, answers)
    ensures var again, v1 := Again(cfg, now), Look(cfg, Expected(cfg, src, files, answers));
            && Settle(again, v1, map[], src[i].0, src[i].1)
               == Settle(cfg, Look(cfg, files), answers, src[i].0, src[i].1)
            && Remember(again, v1, map[], src[i].0, src[i].1).None?
            && !Decide(again, v1, src[i].0, src[i].1).FromTextHash?
            && (cfg.allowTranslate ==> !Decide(again, v1, src[i].0, src[i].1).Queue?)
  {
    var v1 := Look(cfg, Expected(cfg, src, files, answers));
    SecondRunSees(cfg, src, files, answers, i);
    SecondDecision(cfg, Look(cfg, files), v1, answers, src[i].0, src[i].1);
    LaterDecidesAlike(cfg, now, v1, src[i].0, src[i].1);
  }

  lemma SameMemoryFile(cfg: Config, src: Entries<string>, files: Files, answers: map<string, string>, now: string)
    requires Collisionless(cfg) && NestsCleanly(src)
    requires AnswersFit(cfg, Look(cfg, files), src, answers)
    ensures var next := Expected(cfg, src, files, answers);
            Render(MemoryAfter(Again(cfg, now), Look(cfg, next), map[], src, |src|)) == next.tm
  {
    var v1 := Look(cfg, Expected(cfg, src, files, answers));
    forall i | 0 <= i < |src| ensures Remember(Again(cfg, now), v1, map[], src[i].0, src[i].1).None? {
      SecondRunOfKey(cfg, src, files, answers, now, i);
    }
    NothingRemembered(Again(cfg, now), v1, src, |src|);
    MemoryLookup(cfg, files, answers, src);
    LoadOfRender(MemoryAfter(cfg, Look(cfg, files), answers, src, |src|));
    RenderIgnoresOrder(v1.tm, MemoryAfter(cfg, Look(cfg, files), answers, src, |src|));
  }

  lemma NextMetaIsStable(cfg: Config, previous: Option<Meta>, total: nat, fallbackKeys: seq<string>, now: string)
    ensures var meta := NextMeta(cfg, previous, total, fallbackKeys);
            NextMeta(Again(cfg, now), Some(meta), total, fallbackKeys) == meta
  {}

  lemma SameLocaleAndMeta(cfg: Config, src: Entries<string>, files: Files, answers: map<string, string>, now: string)
    requires Collisionless(cfg) && NestsCleanly(src)
    requires AnswersFit(cfg, Look(cfg, files), src, answers)
    ensures var next, again := Expected(cfg, src, files, answers), Again(cfg, now);
            && Expected(again, src, next, map[]).locale == next.locale
            && Expected(again, src, next, map[]).meta == next.meta
  {
    var v0, next, again := Look(cfg, files), Expected(cfg, src, files, answers), Again(cfg, now);
    var v1 := Look(cfg, next);
    forall i | 0 <= i < |src|
      ensures Settle(again, v1, map[], src[i].0, src[i].1) == Settle(cfg, v0, answers, src[i].0, src[i].1)
    {
      SecondRunOfKey(cfg, src, files, answers, now, i);
    }
    assert Rebuilt(again, v1, map[], src) == Rebuilt(cfg, v0, answers, src);
    SameFallbacks(cfg, again, v0, v1, answers, src, |src|);
    NextMetaIsStable(cfg, files.meta, |src|, SortUnique(FallbackKeys(cfg, v0, answers, src, |src|)), now);
  }

  /**
   The run on the files that `Expected` wrote sends no key to the provider, never uses the
   text-hash index, and reproduces all four files, `generatedAt` included.
   */
  ghost predicate CleanSecondRun(cfg: Config, src: Entries<string>, files: Files, answers: map<string, string>,
                                 now: string)
  {
    var next, again := Expected(cfg, src, files, answers), Again(cfg, now);
    && Expected(again, src, next, map[]) == next
    && AnswersFit(again, Look(again, next), src, map[])
    && forall i :: 0 <= i < |src| ==>
         var d := Decide(again, Look(again, next), src[i].0, src[i].1);
         !d.FromTextHash? && (cfg.allowTranslate ==> !d.Queue?)
  }

  /** Every sync is followed by a clean one, with or without a provider and `--force`. */
  lemma SecondRunIsClean(cfg: Config, src: Entries<string>, files: Files, answers: map<string, string>, now: string)
    requires Collisionless(cfg) && NestsCleanly(src)
    requires AnswersFit(cfg, Look(cfg, files), src, answers)
    ensures CleanSecondRun(cfg, src, files, answers, now)
  {
    var next, again := Expected(cfg, src, files, answers), Again(cfg, now);
    SameLocaleAndMeta(cfg, src, files, answers, now);
    SameMemoryFile(cfg, src, files, answers, now);
    forall i | 0 <= i < |src|
      ensures var d := Decide(again, Look(again, next), src[i].0, src[i].1);
              !d.FromTextHash? && (cfg.allowTranslate ==> !d.Queue?)
    {
      SecondRunOfKey(cfg, src, files, answers, now, i);
    }
  }

  // ----- The condition on the source keys is exact -----

  /** A locale file that spells every key of the source as one property. */
  function Literal(src: Entries<string>): Kids {
    if src == [] then Nil else Cons(src[0].0, Leaf(src[0].1), Literal(src[1..]))
  }

  lemma {:induction false} FlattenLiteral(src: Entries<string>, out: Entries<string>, x: string)
    requires Distinct(src)
    ensures Get(FlattenInto(Literal(src), "", out), x) == if Get(src, x).Some? then Get(src, x) else Get(out, x)
  {
    if src != [] {
      GetPut(out, src[0].0, src[0].1, x);
      FlattenLiteral(src[1..], Put(out, src[0].0, src[0].1), x);
      GetFindsEntries(src[1..], src[0].0);
      assert forall i :: 0 <= i < |src| - 1 ==> src[1..][i] == src[i + 1];
    }
  }

  /** All source keys present and untranslated, nothing else known. */
  function Untranslated(src: Entries<string>): Files {
    Files(Some(Literal(src)), None, None, [])
  }

  lemma FirstRunKeepsUntranslated(cfg: Config, src: Entries<string>, i: nat)
    requires Distinct(src) && i < |src|
    ensures Decide(cfg, Look(cfg, Untranslated(src)), src[i].0, src[i].1) == FromLocale(src[i].1, false)
  {
    FlattenLiteral(src, [], src[i].0);
    GetFindsEntries(src, src[i].0);
  }

  lemma {:induction false} NoFallbackRecorded(cfg: Config, v: View, src: Entries<string>, n: nat)
    requires n <= |src|
    requires forall i :: 0 <= i < |src| ==> !Settle(cfg, v, map[], src[i].0, src[i].1).fallback
    ensures FallbackKeys(cfg, v, map[], src, n) == []
  {
    if n > 0 {
      NoFallbackRecorded(cfg, v, src, n - 1);
    }
  }

  /** The first run writes the source texts, no fallback key and an empty memory. */
  lemma FirstRunOnUntranslated(cfg: Config, src: Entries<string>)
    requires Distinct(src)
    ensures var files := Untranslated(src);
            var v := Look(cfg, files);
            && AnswersFit(cfg, v, src, map[])
            && Rebuilt(cfg, v, map[], src) == src
            && Expected(cfg, src, files, map[]).meta.value.fallbackKeys == []
            && Expected(cfg, src, files, map[]).tm == []
  {
    var v := Look(cfg, Untranslated(src));
    forall i | 0 <= i < |src| ensures Decide(cfg, v, src[i].0, src[i].1) == FromLocale(src[i].1, false) {
      FirstRunKeepsUntranslated(cfg, src, i);
    }
    NoFallbackRecorded(cfg, v, src, |src|);
    NothingRemembered(cfg, v, src, |src|);
  }

  lemma UnknownKeyFallsBack(cfg: Config, src: Entries<string>, files: Files, i: nat)
    requires i < |src| && files.tm == []
    requires Get(Look(cfg, files).existing, src[i].0).None?
    ensures src[i].0 in Expected(cfg, src, files, map[]).meta.value.fallbackKeys
  {
    var v := Look(cfg, files);
    assert v.tm == [] && v.byText == map[];
    assert Settle(cfg, v, map[], src[i].0, src[i].1) == Outcome(src[i].1, true);
    FallbackKeysAre(cfg, v, map[], src, |src|);
  }

  /** If some source key does not survive nesting, some files make the second run dirty. */
  lemma LostKeyMakesSecondRunDirty(cfg: Config, src: Entries<string>, now: string)
    requires Distinct(src) && !NestsCleanly(src)
    ensures AnswersFit(cfg, Look(cfg, Untranslated(src)), src, map[])
    ensures !CleanSecondRun(cfg, src, Untranslated(src), map[], now)
  {
    FirstRunOnUntranslated(cfg, src);
    var i := LostKey(src);
    UnknownKeyFallsBack(Again(cfg, now), src, Expected(cfg, src, Untranslated(src), map[]), i);
  }

  /** The second run is always clean exactly when every source key survives nesting. */
  lemma SecondRunIsCleanIffKeysNest(cfg: Config, src: Entries<string>, now: string)
    requires Collisionless(cfg) && Distinct(src)
    ensures NestsCleanly(src) <==>
              forall files, answers :: AnswersFit(cfg, Look(cfg, files), src, answers) ==>
                CleanSecondRun(cfg, src, files, answers, now)
  {
    if NestsCleanly(src) {
      forall files, answers | AnswersFit(cfg, Look(cfg, files), src, answers)
        ensures CleanSecondRun(cfg, src, files, answers, now)
      {
        SecondRunIsClean(cfg, src, files, answers, now);
      }
    } else {
      LostKeyMakesSecondRunDirty(cfg, src, now);
    }
  }

  /** Every source locale whose names are non-empty and dot-free meets the condition. */
  lemma PlainSourcesNestCleanly(en: Kids)
    requires WellFormed(en) && PlainNames(en)
    ensures NestsCleanly(Flatten(en))
  {
    FlattenedMapsAreClean(en);
  }
}
