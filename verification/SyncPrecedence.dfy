/**
 What a run of the locale sync leaves behind, told from the files it found: which of the
 memory, the text hash, the old locale file, the provider and the source text a key's text
 comes from, which keys are asked for, and every line and field that is written.
 */
module SyncPrecedence {
  import opened Wrappers
  import opened Text
  import opened OrderedMap
  import opened TranslationTree
  import opened TranslationMemory
  import opened SyncSpec
  import TranslationBatches
  import Bisection
  import BatchTranslation
  import opened LocaleSync

  // ----- What the files say about a key -----

  predicate WasFallback(files: Files, key: string) {
    files.meta.Some? && key in files.meta.value.fallbackKeys
  }

  function OldText(files: Files, key: string): Option<string> {
    if files.locale.Some? then Get(Flatten(files.locale.value), key) else None
  }

  /** A fallback may only be kept when nobody can translate and nobody forces it. */
  predicate MayKeep(cfg: Config, files: Files, key: string) {
    WasFallback(files, key) ==> !cfg.allowTranslate && !cfg.force
  }

  /** The memory file's line for this key and text, under the provider, model and locale of the run. */
  ghost predicate HasLine(cfg: Config, files: Files, key: string, text: string, found: Option<TmEntry>) {
    IsLastLine(files.tm, |files.tm|,
               cfg.digest(CacheKey(cfg.provider, cfg.model, cfg.locale, key, cfg.hashText(text))), found)
  }

  /** The line that some key with the same text and locale has. */
  ghost predicate HasHashLine(cfg: Config, files: Files, text: string, found: Option<TmEntry>) {
    IsLastHashLine(files.tm, cfg.locale, cfg.hashText(text), found)
  }

  ghost predicate ByMemory(cfg: Config, files: Files, key: string, text: string, e: TmEntry) {
    MayKeep(cfg, files, key) && HasLine(cfg, files, key, text, Some(e))
  }

  /** The memory has nothing for the key, or must not be used for it. */
  ghost predicate MemoryIsOut(cfg: Config, files: Files, key: string, text: string) {
    MayKeep(cfg, files, key) ==> HasLine(cfg, files, key, text, None)
  }

  ghost predicate ByTextHash(cfg: Config, files: Files, key: string, text: string, e: TmEntry) {
    && MemoryIsOut(cfg, files, key, text)
    && (WasFallback(files, key) || OldText(files, key).None?)
    && HasHashLine(cfg, files, text, Some(e))
  }

  ghost predicate TextHashIsOut(cfg: Config, files: Files, key: string, text: string) {
    WasFallback(files, key) || OldText(files, key).None? ==> HasHashLine(cfg, files, text, None)
  }

  ghost predicate ByOldText(cfg: Config, files: Files, key: string, text: string, kept: string) {
    && MemoryIsOut(cfg, files, key, text) && TextHashIsOut(cfg, files, key, text)
    && MayKeep(cfg, files, key) && OldText(files, key) == Some(kept)
  }

  /** Nothing in the files may be used for the key. */
  ghost predicate Open(cfg: Config, files: Files, key: string, text: string) {
    && MemoryIsOut(cfg, files, key, text) && TextHashIsOut(cfg, files, key, text)
    && (MayKeep(cfg, files, key) ==> OldText(files, key).None?)
  }

  // ----- They decide what happens -----

  lemma LastLineIsUnique(lines: seq<TmEntry>, k: string, a: Option<TmEntry>, b: Option<TmEntry>)
    requires IsLastLine(lines, |lines|, k, a) && IsLastLine(lines, |lines|, k, b)
    ensures a == b
  {
    if a.Some? && b.Some? {
      var i: nat :| LastLoadable(lines, |lines|, k, i) && lines[i] == a.value;
      var j: nat :| LastLoadable(lines, |lines|, k, j) && lines[j] == b.value;
      assert i == j;
    }
  }

  lemma LastHashLineIsUnique(lines: seq<TmEntry>, locale: string, hash: string, a: Option<TmEntry>, b: Option<TmEntry>)
    requires IsLastHashLine(lines, locale, hash, a) && IsLastHashLine(lines, locale, hash, b)
    ensures a == b
  {
    if a.Some? && b.Some? {
      var l: nat :| LastHashLine(lines, locale, hash, l) && lines[l] == a.value;
      var m: nat :| LastHashLine(lines, locale, hash, m) && lines[m] == b.value;
      var f: nat :| HashLine(lines, locale, hash, f, l) && IsLatest(lines, locale, hash, f);
      var g: nat :| HashLine(lines, locale, hash, g, m) && IsLatest(lines, locale, hash, g);
      assert f == g && lines[l].cacheKey == lines[f].cacheKey == lines[m].cacheKey;
      assert l == m;
    }
  }

  /** The sync looks up exactly these lines. */
  lemma LooksUp(cfg: Config, files: Files, key: string, text: string)
    ensures var v := Look(cfg, files);
            && HasLine(cfg, files, key, text, Get(v.tm, KeyFor(cfg, key, text)))
            && HasHashLine(cfg, files, text,
                           if cfg.hashText(text) in v.byText then Some(v.byText[cfg.hashText(text)]) else None)
            && Get(v.existing, key) == OldText(files, key)
            && (key in v.fallback <==> WasFallback(files, key))
  {
    LookupIsLastLine(files.tm, |files.tm|, KeyFor(cfg, key, text));
    IndexIsLastHashLine(files.tm, cfg.locale, cfg.hashText(text));
  }

  lemma NoOtherLine(cfg: Config, files: Files, key: string, text: string, a: Option<TmEntry>, b: Option<TmEntry>)
    ensures HasLine(cfg, files, key, text, a) && HasLine(cfg, files, key, text, b) ==> a == b
    ensures HasHashLine(cfg, files, text, a) && HasHashLine(cfg, files, text, b) ==> a == b
  {
    if HasLine(cfg, files, key, text, a) && HasLine(cfg, files, key, text, b) {
      LastLineIsUnique(files.tm, cfg.digest(CacheKey(cfg.provider, cfg.model, cfg.locale, key, cfg.hashText(text))),
                       a, b);
    }
    if HasHashLine(cfg, files, text, a) && HasHashLine(cfg, files, text, b) {
      LastHashLineIsUnique(files.tm, cfg.locale, cfg.hashText(text), a, b);
    }
  }

  /** The first of the four that applies decides. */
  ghost predicate DecidedBy(cfg: Config, files: Files, key: string, text: string, d: Decision) {
    match d
    case FromMemory(t, keep) =>
      && keep == WasFallback(files, key)
      && exists e :: ByMemory(cfg, files, key, text, e) && e.translated == t
    case FromTextHash(e) => ByTextHash(cfg, files, key, text, e)
    case FromLocale(t, keep) => keep == WasFallback(files, key) && ByOldText(cfg, files, key, text, t)
    case Queue => Open(cfg, files, key, text)
  }

  lemma DecisionIsDecided(cfg: Config, files: Files, key: string, text: string)
    ensures DecidedBy(cfg, files, key, text, Decide(cfg, Look(cfg, files), key, text))
  {
    LooksUp(cfg, files, key, text);
    var cached := Get(Look(cfg, files).tm, KeyFor(cfg, key, text));
    if MayKeep(cfg, files, key) && cached.Some? {
      assert ByMemory(cfg, files, key, text, cached.value);
    }
  }

  /** No two of them apply. */
  lemma OnlyOneDecides(cfg: Config, files: Files, key: string, text: string, d: Decision)
    requires DecidedBy(cfg, files, key, text, d)
    ensures d == Decide(cfg, Look(cfg, files), key, text)
  {
    var v := Look(cfg, files);
    var cached, hash := Get(v.tm, KeyFor(cfg, key, text)), cfg.hashText(text);
    var byText := if hash in v.byText then Some(v.byText[hash]) else None;
    LooksUp(cfg, files, key, text);
    forall a | HasLine(cfg, files, key, text, a) ensures a == cached {
      NoOtherLine(cfg, files, key, text, a, cached);
    }
    forall a | HasHashLine(cfg, files, text, a) ensures a == byText {
      NoOtherLine(cfg, files, key, text, a, byText);
    }
  }

  // ----- What becomes of a key -----

  /**
   The text a key ends with, and whether it ends as a fallback: by what decides it, and if
   nothing in the files does, the provider's answer, or the source text without a provider.
   */
  ghost predicate KeyFollows(cfg: Config, files: Files, answers: map<string, string>, key: string, text: string,
                             ends: string, fallback: bool)
  {
    && (forall e :: ByMemory(cfg, files, key, text, e) ==>
          ends == e.translated && (fallback <==> WasFallback(files, key)))
    && (forall e :: ByTextHash(cfg, files, key, text, e) ==> ends == e.translated && !fallback)
    && (forall t :: ByOldText(cfg, files, key, text, t) ==> ends == t && (fallback <==> WasFallback(files, key)))
    && (Open(cfg, files, key, text) ==>
          if cfg.allowTranslate then key in answers && ends == answers[key] && !fallback
          else ends == text && fallback)
  }

  /** Exactly the open keys are answered, if there is a provider. */
  ghost predicate AnswersOpenKeys(cfg: Config, files: Files, src: Entries<string>, answers: map<string, string>) {
    forall i :: 0 <= i < |src| ==>
      (src[i].0 in answers <==> cfg.allowTranslate && Open(cfg, files, src[i].0, src[i].1))
  }

  lemma QueueIffOpen(cfg: Config, files: Files, key: string, text: string)
    ensures Decide(cfg, Look(cfg, files), key, text).Queue? <==> Open(cfg, files, key, text)
  {
    DecisionIsDecided(cfg, files, key, text);
    if Open(cfg, files, key, text) {
      OnlyOneDecides(cfg, files, key, text, Queue);
    }
  }

  lemma OpenKeysAreAnswered(cfg: Config, files: Files, src: Entries<string>, answers: map<string, string>)
    requires Distinct(src) && AnswersFit(cfg, Look(cfg, files), src, answers)
    ensures AnswersOpenKeys(cfg, files, src, answers)
  {
    forall i | 0 <= i < |src|
      ensures src[i].0 in answers <==> cfg.allowTranslate && Open(cfg, files, src[i].0, src[i].1)
    {
      QueueIffOpen(cfg, files, src[i].0, src[i].1);
    }
  }

  lemma SettledKeyFollows(cfg: Config, files: Files, answers: map<string, string>, key: string, text: string)
    requires key in answers <==> cfg.allowTranslate && Open(cfg, files, key, text)
    ensures var o := Settle(cfg, Look(cfg, files), answers, key, text);
            KeyFollows(cfg, files, answers, key, text, o.text, o.fallback)
  {
    var o, was := Settle(cfg, Look(cfg, files), answers, key, text), WasFallback(files, key);
    forall e | ByMemory(cfg, files, key, text, e) ensures o == Outcome(e.translated, was) {
      OnlyOneDecides(cfg, files, key, text, FromMemory(e.translated, was));
    }
    forall e | ByTextHash(cfg, files, key, text, e) ensures o == Outcome(e.translated, false) {
      OnlyOneDecides(cfg, files, key, text, FromTextHash(e));
    }
    forall t | ByOldText(cfg, files, key, text, t) ensures o == Outcome(t, was) {
      OnlyOneDecides(cfg, files, key, text, FromLocale(t, was));
    }
    if Open(cfg, files, key, text) {
      OnlyOneDecides(cfg, files, key, text, Queue);
      LooksUp(cfg, files, key, text);
    }
  }

  // ----- The locale file and the list of fallbacks -----

  /** Every source key has its text, and is listed exactly when it is a fallback. */
  ghost predicate TextsFollow(cfg: Config, src: Entries<string>, files: Files, answers: map<string, string>,
                              flat: Entries<string>, after: Files)
  {
    && |flat| == |src|
    && after.locale == Some(Nest(flat, |flat|))
    && forall i :: 0 <= i < |src| ==>
         && flat[i].0 == src[i].0
         && KeyFollows(cfg, files, answers, src[i].0, src[i].1, flat[i].1, WasFallback(after, src[i].0))
  }

  /** The locale file reads back every source key with its text. */
  ghost predicate ReadsBack(src: Entries<string>, flat: Entries<string>, after: Files) {
    |flat| == |src| && forall i :: 0 <= i < |src| ==> OldText(after, src[i].0) == Some(flat[i].1)
  }

  lemma ExpectedTextsFollow(cfg: Config, src: Entries<string>, files: Files, answers: map<string, string>)
    requires Distinct(src) && AnswersFit(cfg, Look(cfg, files), src, answers)
    ensures TextsFollow(cfg, src, files, answers, Rebuilt(cfg, Look(cfg, files), answers, src),
                        Expected(cfg, src, files, answers))
  {
    var v, after := Look(cfg, files), Expected(cfg, src, files, answers);
    OpenKeysAreAnswered(cfg, files, src, answers);
    forall i | 0 <= i < |src|
      ensures KeyFollows(cfg, files, answers, src[i].0, src[i].1, Rebuilt(cfg, v, answers, src)[i].1,
                         WasFallback(after, src[i].0))
    {
      SettledKeyFollows(cfg, files, answers, src[i].0, src[i].1);
      IsFallbackKey(cfg, v, answers, src, |src|, i);
    }
  }

  lemma ExpectedReadsBack(cfg: Config, src: Entries<string>, files: Files, answers: map<string, string>)
    requires NestsCleanly(src)
    ensures ReadsBack(src, Rebuilt(cfg, Look(cfg, files), answers, src), Expected(cfg, src, files, answers))
  {
    forall i | 0 <= i < |src|
      ensures OldText(Expected(cfg, src, files, answers), src[i].0)
           == Some(Rebuilt(cfg, Look(cfg, files), answers, src)[i].1)
    {
      ReadsBackLocale(cfg, src, files, answers, i);
    }
  }

  // ----- The memory file -----

  /** The line written for a key whose text another key had translated before. */
  function CopiedLine(cfg: Config, e: TmEntry, key: string, cacheKey: string): TmEntry {
    TmEntry(cacheKey, e.model, e.provider, key, "ui/src/i18n/locales/" + cfg.fileName, e.srcLang, e.text, e.textHash,
            e.tgtLang, e.translated, e.updatedAt)
  }

  /** The line written for an answer. */
  function AnswerLine(cfg: Config, key: string, text: string, cacheKey: string, value: string): TmEntry {
    TmEntry(cacheKey, cfg.model, cfg.provider, key, "ui/src/i18n/locales/" + cfg.fileName, "en", text,
            cfg.hashText(text), cfg.locale, value, cfg.now)
  }

  /** The line of a key afterwards: written where a text hash or an answer decided, else as it was. */
  ghost predicate LineFollows(cfg: Config, files: Files, answers: map<string, string>, key: string, text: string,
                              after: Files)
  {
    var cacheKey := cfg.digest(CacheKey(cfg.provider, cfg.model, cfg.locale, key, cfg.hashText(text)));
    && (forall e :: ByTextHash(cfg, files, key, text, e) ==>
          HasLine(cfg, after, key, text, Some(CopiedLine(cfg, e, key, cacheKey))))
    && (key in answers ==> HasLine(cfg, after, key, text, Some(AnswerLine(cfg, key, text, cacheKey, answers[key]))))
    && (forall found :: HasLine(cfg, files, key, text, found) && key !in answers
                        && (forall e :: !ByTextHash(cfg, files, key, text, e)) ==>
          HasLine(cfg, after, key, text, found))
  }

  /** Every other line is as it was, and the file is sorted, with one usable line per key. */
  ghost predicate OtherLinesStay(cfg: Config, src: Entries<string>, files: Files, after: Files) {
    && (forall i, j :: 0 <= i < j < |after.tm| ==> Less(after.tm[i].cacheKey, after.tm[j].cacheKey))
    && (forall i :: 0 <= i < |after.tm| ==> Loadable(after.tm[i]))
    && (forall c, found ::
          IsLastLine(files.tm, |files.tm|, c, found)
          && (forall i :: 0 <= i < |src| ==>
                c != cfg.digest(CacheKey(cfg.provider, cfg.model, cfg.locale, src[i].0, cfg.hashText(src[i].1)))) ==>
            IsLastLine(after.tm, |after.tm|, c, found))
  }

  lemma LineOfKeyAfter(cfg: Config, src: Entries<string>, files: Files, answers: map<string, string>, i: nat)
    requires Collisionless(cfg) && Distinct(src) && i < |src| && AnswersFit(cfg, Look(cfg, files), src, answers)
    ensures var e := Remember(cfg, Look(cfg, files), answers, src[i].0, src[i].1);
            HasLine(cfg, Expected(cfg, src, files, answers), src[i].0, src[i].1,
                    if e.Some? then e else Get(Look(cfg, files).tm, KeyFor(cfg, src[i].0, src[i].1)))
  {
    var after := Expected(cfg, src, files, answers);
    MemoryLookup(cfg, files, answers, src);
    LoadOfRender(MemoryAfter(cfg, Look(cfg, files), answers, src, |src|));
    LookupIsLastLine(after.tm, |after.tm|, KeyFor(cfg, src[i].0, src[i].1));
  }

  lemma CopiedLineIsWritten(cfg: Config, src: Entries<string>, files: Files, answers: map<string, string>, i: nat,
                            e: TmEntry)
    requires Collisionless(cfg) && Distinct(src) && i < |src| && AnswersFit(cfg, Look(cfg, files), src, answers)
    requires ByTextHash(cfg, files, src[i].0, src[i].1, e)
    ensures HasLine(cfg, Expected(cfg, src, files, answers), src[i].0, src[i].1,
                    Some(CopiedLine(cfg, e, src[i].0, KeyFor(cfg, src[i].0, src[i].1))))
  {
    OnlyOneDecides(cfg, files, src[i].0, src[i].1, FromTextHash(e));
    LineOfKeyAfter(cfg, src, files, answers, i);
  }

  lemma AnswerIsRemembered(cfg: Config, src: Entries<string>, files: Files, answers: map<string, string>, i: nat)
    requires Distinct(src) && i < |src| && AnswersFit(cfg, Look(cfg, files), src, answers) && src[i].0 in answers
    ensures Remember(cfg, Look(cfg, files), answers, src[i].0, src[i].1)
         == Some(AnswerLine(cfg, src[i].0, src[i].1, KeyFor(cfg, src[i].0, src[i].1), answers[src[i].0]))
  {
    var v := Look(cfg, files);
    assert Decide(cfg, v, src[i].0, src[i].1).Queue? by {
      var j :| 0 <= j < |src| && src[j].0 == src[i].0 && Decide(cfg, v, src[i].0, src[j].1).Queue?;
      assert i == j;
    }
  }

  lemma AnswerIsWritten(cfg: Config, src: Entries<string>, files: Files, answers: map<string, string>, i: nat)
    requires Collisionless(cfg) && Distinct(src) && i < |src| && AnswersFit(cfg, Look(cfg, files), src, answers)
    requires src[i].0 in answers
    ensures HasLine(cfg, Expected(cfg, src, files, answers), src[i].0, src[i].1,
                    Some(AnswerLine(cfg, src[i].0, src[i].1, KeyFor(cfg, src[i].0, src[i].1), answers[src[i].0])))
  {
    AnswerIsRemembered(cfg, src, files, answers, i);
    LineOfKeyAfter(cfg, src, files, answers, i);
  }

  lemma LineIsKept(cfg: Config, src: Entries<string>, files: Files, answers: map<string, string>, i: nat,
                   found: Option<TmEntry>)
    requires Collisionless(cfg) && Distinct(src) && i < |src| && AnswersFit(cfg, Look(cfg, files), src, answers)
    requires HasLine(cfg, files, src[i].0, src[i].1, found) && src[i].0 !in answers
    requires forall e :: !ByTextHash(cfg, files, src[i].0, src[i].1, e)
    ensures HasLine(cfg, Expected(cfg, src, files, answers), src[i].0, src[i].1, found)
  {
    var (key, text) := src[i];
    DecisionIsDecided(cfg, files, key, text);
    assert Remember(cfg, Look(cfg, files), answers, key, text).None?;
    LineOfKeyAfter(cfg, src, files, answers, i);
    LooksUp(cfg, files, key, text);
    NoOtherLine(cfg, files, key, text, found, Get(Look(cfg, files).tm, KeyFor(cfg, key, text)));
  }

  lemma ExpectedLineFollows(cfg: Config, src: Entries<string>, files: Files, answers: map<string, string>, i: nat)
    requires Collisionless(cfg) && Distinct(src) && i < |src| && AnswersFit(cfg, Look(cfg, files), src, answers)
    ensures LineFollows(cfg, files, answers, src[i].0, src[i].1, Expected(cfg, src, files, answers))
  {
    var (key, text) := src[i];
    forall e | ByTextHash(cfg, files, key, text, e)
      ensures HasLine(cfg, Expected(cfg, src, files, answers), key, text,
                      Some(CopiedLine(cfg, e, key, KeyFor(cfg, key, text))))
    {
      CopiedLineIsWritten(cfg, src, files, answers, i, e);
    }
    if key in answers {
      AnswerIsWritten(cfg, src, files, answers, i);
    }
    forall found | HasLine(cfg, files, key, text, found) && key !in answers
                   && (forall e :: !ByTextHash(cfg, files, key, text, e))
      ensures HasLine(cfg, Expected(cfg, src, files, answers), key, text, found)
    {
      LineIsKept(cfg, src, files, answers, i, found);
    }
  }

  lemma RenderIsSorted(tm: Tm)
    requires Sound(tm)
    ensures var r := Render(tm);
            && (forall i, j :: 0 <= i < j < |r| ==> Less(r[i].cacheKey, r[j].cacheKey))
            && (forall i :: 0 <= i < |r| ==> Loadable(r[i]))
  {
    var keys := SortUnique(KeyList(tm));
    forall i | 0 <= i < |keys| ensures Render(tm)[i].cacheKey == keys[i] && Loadable(Render(tm)[i]) {
      GetFindsEntries(tm, keys[i]);
    }
  }

  lemma OtherLineStays(cfg: Config, src: Entries<string>, files: Files, answers: map<string, string>, c: string,
                       found: Option<TmEntry>)
    requires Collisionless(cfg) && Distinct(src) && AnswersFit(cfg, Look(cfg, files), src, answers)
    requires IsLastLine(files.tm, |files.tm|, c, found)
    requires forall i :: 0 <= i < |src| ==> c != KeyFor(cfg, src[i].0, src[i].1)
    ensures var after := Expected(cfg, src, files, answers);
            IsLastLine(after.tm, |after.tm|, c, found)
  {
    var after := Expected(cfg, src, files, answers);
    MemoryLookup(cfg, files, answers, src);
    LoadOfRender(MemoryAfter(cfg, Look(cfg, files), answers, src, |src|));
    LookupIsLastLine(files.tm, |files.tm|, c);
    LastLineIsUnique(files.tm, c, found, Get(Load(files.tm, |files.tm|), c));
    LookupIsLastLine(after.tm, |after.tm|, c);
  }

  lemma ExpectedKeepsOtherLines(cfg: Config, src: Entries<string>, files: Files, answers: map<string, string>)
    requires Collisionless(cfg) && Distinct(src) && AnswersFit(cfg, Look(cfg, files), src, answers)
    ensures OtherLinesStay(cfg, src, files, Expected(cfg, src, files, answers))
  {
    var after := Expected(cfg, src, files, answers);
    MemoryLookup(cfg, files, answers, src);
    RenderIsSorted(MemoryAfter(cfg, Look(cfg, files), answers, src, |src|));
    forall c, found | IsLastLine(files.tm, |files.tm|, c, found)
                      && (forall i :: 0 <= i < |src| ==> c != KeyFor(cfg, src[i].0, src[i].1))
      ensures IsLastLine(after.tm, |after.tm|, c, found)
    {
      OtherLineStays(cfg, src, files, answers, c, found);
    }
  }

  // ----- The meta file and the glossary -----

  /** The meta file counts the keys, and carries a new timestamp exactly when it says something new. */
  ghost predicate MetaFollows(cfg: Config, total: nat, previous: Option<Meta>, fallbackKeys: seq<string>, meta: Meta) {
    && meta.fallbackKeys == fallbackKeys && meta.totalKeys == total && meta.translatedKeys + |fallbackKeys| == total
    && meta.locale == cfg.locale && meta.sourceHash == cfg.sourceHash && meta.workflow == CONTROL_UI_I18N_WORKFLOW
    && (cfg.allowTranslate ==> meta.provider == cfg.provider && meta.model == cfg.model)
    && (!cfg.allowTranslate && previous.Some? ==>
          meta.provider == previous.value.provider && meta.model == previous.value.model)
    && (!cfg.allowTranslate && previous.None? ==> meta.provider == meta.model == "")
    && (meta.generatedAt == cfg.now || previous == Some(meta))
    && (previous.Some? && previous.value.(generatedAt := "") == meta.(generatedAt := "") ==> previous == Some(meta))
  }

  lemma NextMetaFollows(cfg: Config, previous: Option<Meta>, total: nat, fallbackKeys: seq<string>)
    ensures MetaFollows(cfg, total, previous, fallbackKeys, NextMeta(cfg, previous, total, fallbackKeys))
  {}

  /** The fallback keys are source keys, each listed once and in order. */
  ghost predicate ListsSourceKeys(src: Entries<string>, fallbackKeys: seq<string>) {
    Ascending(fallbackKeys) && forall x :: x in fallbackKeys ==> Get(src, x).Some?
  }

  /** A glossary that has entries is kept; otherwise the default one is written. */
  ghost predicate GlossaryFollows(previous: Option<seq<GlossaryEntry>>, next: Option<seq<GlossaryEntry>>) {
    && (previous.Some? && |previous.value| > 0 ==> next == previous)
    && (previous.None? || |previous.value| == 0 ==> next == Some(DEFAULT_GLOSSARY))
  }

  lemma NextGlossaryFollows(previous: Option<seq<GlossaryEntry>>)
    ensures GlossaryFollows(previous, Some(NextGlossary(previous)))
  {}

  lemma ExpectedMetaFollows(cfg: Config, src: Entries<string>, files: Files, answers: map<string, string>)
    ensures var meta := Expected(cfg, src, files, answers).meta.value;
            MetaFollows(cfg, |src|, files.meta, meta.fallbackKeys, meta) && ListsSourceKeys(src, meta.fallbackKeys)
  {
    var keys := FallbackKeys(cfg, Look(cfg, files), answers, src, |src|);
    FallbackKeysAre(cfg, Look(cfg, files), answers, src, |src|);
    NextMetaFollows(cfg, files.meta, |src|, SortUnique(keys));
    forall x | x in SortUnique(keys) ensures Get(src, x).Some? {
      GetFindsEntries(src, x);
    }
  }

  // ----- All files of a run -----

  /** Everything a run leaves behind follows from the files it found and the answers it got. */
  ghost predicate FilesFollow(cfg: Config, src: Entries<string>, files: Files, answers: map<string, string>,
                              flat: Entries<string>, after: Files)
  {
    && AnswersOpenKeys(cfg, files, src, answers)
    && TextsFollow(cfg, src, files, answers, flat, after)
    && (NestsCleanly(src) ==> ReadsBack(src, flat, after))
    && (forall i :: 0 <= i < |src| ==> LineFollows(cfg, files, answers, src[i].0, src[i].1, after))
    && OtherLinesStay(cfg, src, files, after)
    && after.meta.Some? && ListsSourceKeys(src, after.meta.value.fallbackKeys)
    && MetaFollows(cfg, |src|, files.meta, after.meta.value.fallbackKeys, after.meta.value)
    && GlossaryFollows(files.glossary, after.glossary)
  }

  lemma ExpectedFollows(cfg: Config, src: Entries<string>, files: Files, answers: map<string, string>)
    requires Collisionless(cfg) && Distinct(src) && AnswersFit(cfg, Look(cfg, files), src, answers)
    ensures FilesFollow(cfg, src, files, answers, Rebuilt(cfg, Look(cfg, files), answers, src),
                        Expected(cfg, src, files, answers))
  {
    OpenKeysAreAnswered(cfg, files, src, answers);
    ExpectedTextsFollow(cfg, src, files, answers);
    if NestsCleanly(src) {
      ExpectedReadsBack(cfg, src, files, answers);
    }
    forall i | 0 <= i < |src|
      ensures LineFollows(cfg, files, answers, src[i].0, src[i].1, Expected(cfg, src, files, answers))
    {
      ExpectedLineFollows(cfg, src, files, answers, i);
    }
    ExpectedKeepsOtherLines(cfg, src, files, answers);
    ExpectedMetaFollows(cfg, src, files, answers);
    NextGlossaryFollows(files.glossary);
  }

  /** A run that is done, and wrote what it found to differ, leaves files that follow. */
  lemma RunFollows(cfg: Config, opts: Options, src: Entries<string>, files: Files,
                   reply: nat -> BatchTranslation.Reply, answers: map<string, string>, sent: nat,
                   outcome: SyncOutcome, after: Files)
    returns (flat: Entries<string>)
    requires Collisionless(cfg) && Distinct(src)
    requires RunsRightly(cfg, opts, src, files, reply, answers, sent, outcome, after)
    requires outcome.Done? && (outcome.changed ==> outcome.wrote)
    ensures FilesFollow(cfg, src, files, answers, flat, after)
  {
    flat := Rebuilt(cfg, Look(cfg, files), answers, src);
    ExpectedFollows(cfg, src, files, answers);
  }

  // ----- What is asked for -----

  /** The items are those of the open source keys, in the order of the source. */
  ghost predicate PicksOpen(cfg: Config, files: Files, src: Entries<string>, n: nat, picks: seq<nat>, items: seq<Item>)
    requires n <= |src|
  {
    && |picks| == |items|
    && (forall j :: 0 <= j < |picks| ==> picks[j] < n && IsOpenItem(cfg, files, src, picks[j], items[j]))
    && (forall j, k :: 0 <= j < k < |picks| ==> picks[j] < picks[k])
    && (forall i :: 0 <= i < n && Open(cfg, files, src[i].0, src[i].1) ==> i in picks)
  }

  ghost predicate IsOpenItem(cfg: Config, files: Files, src: Entries<string>, i: nat, item: Item)
    requires i < |src|
  {
    var (key, text) := src[i];
    && Open(cfg, files, key, text)
    && item.key == key && item.text == text && item.textHash == cfg.hashText(text)
    && item.cacheKey == cfg.digest(CacheKey(cfg.provider, cfg.model, cfg.locale, key, cfg.hashText(text)))
  }

  lemma PickOneMore(cfg: Config, files: Files, src: Entries<string>, n: nat, picks: seq<nat>, items: seq<Item>,
                    item: Item)
    requires n < |src| && PicksOpen(cfg, files, src, n, picks, items) && IsOpenItem(cfg, files, src, n, item)
    ensures PicksOpen(cfg, files, src, n + 1, picks + [n], items + [item])
  {
    forall i | 0 <= i < n + 1 && Open(cfg, files, src[i].0, src[i].1) ensures i in picks + [n] {
      assert i < n ==> i in picks;
    }
  }

  lemma PickNoMore(cfg: Config, files: Files, src: Entries<string>, n: nat, picks: seq<nat>, items: seq<Item>)
    requires n < |src| && PicksOpen(cfg, files, src, n, picks, items) && !Open(cfg, files, src[n].0, src[n].1)
    ensures PicksOpen(cfg, files, src, n + 1, picks, items)
  {}

  lemma ItemIsOpen(cfg: Config, files: Files, src: Entries<string>, n: nat)
    requires n < |src|
    ensures Queued(cfg, Look(cfg, files), src, n) <==> Open(cfg, files, src[n].0, src[n].1)
    ensures Open(cfg, files, src[n].0, src[n].1) ==>
              IsOpenItem(cfg, files, src, n, ItemFor(cfg, src[n].0, src[n].1))
  {
    QueueIffOpen(cfg, files, src[n].0, src[n].1);
  }

  lemma PickNext(cfg: Config, files: Files, src: Entries<string>, n: nat, picks: seq<nat>) returns (next: seq<nat>)
    requires n < |src| && PicksOpen(cfg, files, src, n, picks, QueuedItems(cfg, Look(cfg, files), src, n))
    ensures PicksOpen(cfg, files, src, n + 1, next, QueuedItems(cfg, Look(cfg, files), src, n + 1))
  {
    var items := QueuedItems(cfg, Look(cfg, files), src, n);
    ItemIsOpen(cfg, files, src, n);
    if Open(cfg, files, src[n].0, src[n].1) {
      PickOneMore(cfg, files, src, n, picks, items, ItemFor(cfg, src[n].0, src[n].1));
      next := picks + [n];
    } else {
      PickNoMore(cfg, files, src, n, picks, items);
      next := picks;
    }
  }

  lemma {:induction false} QueuedItemsAreOpen(cfg: Config, files: Files, src: Entries<string>, n: nat)
    returns (picks: seq<nat>)
    requires n <= |src|
    ensures PicksOpen(cfg, files, src, n, picks, QueuedItems(cfg, Look(cfg, files), src, n))
  {
    if n == 0 {
      picks := [];
    } else {
      var before := QueuedItemsAreOpen(cfg, files, src, n - 1);
      picks := PickNext(cfg, files, src, n - 1, before);
    }
  }

  /**
   The prompts of a run ask for open keys only, and translate them in the order of the source:
   all of them if no batch is given up. The answers are then what the successful prompts gave.
   */
  ghost predicate AsksForOpenKeys(cfg: Config, files: Files, src: Entries<string>, reply: nat -> BatchTranslation.Reply,
                                  t: Bisection.Trace, picks: seq<nat>, items: seq<Item>)
  {
    && PicksOpen(cfg, files, src, |src|, picks, items)
    && (!cfg.allowTranslate ==> t == Bisection.Trace(Ok(map[]), []))
    && (forall p, q :: p in t.prompts && q in p.items ==> q in items)
    && (cfg.allowTranslate ==> Bisection.LeftToRight(t, items, BatchTranslation.Under(reply), 0))
    && (t.result.Ok? ==> Bisection.GivenByPrompts(t.result.value, t.prompts, BatchTranslation.Under(reply), 0))
  }

  lemma BatchesAskForItems(batches: seq<seq<Item>>, reply: nat -> BatchTranslation.Reply)
    requires Bisection.NoneEmpty(batches)
    ensures var t := Bisection.SendAll(batches, |batches|, BatchTranslation.Under(reply));
            forall p, q :: p in t.prompts && q in p.items ==> q in TranslationBatches.Flatten(batches)
  {
    var t := Bisection.SendAll(batches, |batches|, BatchTranslation.Under(reply));
    Bisection.SendAllHoldItems(batches, |batches|, BatchTranslation.Under(reply));
    forall p, q | p in t.prompts && q in p.items ensures q in TranslationBatches.Flatten(batches) {
      assert Bisection.PartOfSome(p.items, batches);
      var b :| 0 <= b < |batches| && Bisection.Part(p.items, batches[b]);
      ItemOfBatch(batches, b, q);
    }
  }

  lemma PromptsFollow(cfg: Config, budget: int, files: Files, src: Entries<string>,
                      reply: nat -> BatchTranslation.Reply)
    returns (picks: seq<nat>, items: seq<Item>)
    ensures AsksForOpenKeys(cfg, files, src, reply, Asked(cfg, budget, Look(cfg, files), src, reply), picks, items)
  {
    var v, outcome := Look(cfg, files), BatchTranslation.Under(reply);
    var batches := Batches(cfg, budget, v, src);
    picks := QueuedItemsAreOpen(cfg, files, src, |src|);
    items := QueuedItems(cfg, v, src, |src|);
    assert batches[..|batches|] == batches;
    Bisection.SendAllLeftToRight(batches, |batches|, outcome);
    BatchesAskForItems(batches, reply);
    if Asked(cfg, budget, v, src, reply).result.Ok? {
      Bisection.SendAllGiven(batches, |batches|, outcome);
    }
  }

  // ----- Runs that stop -----

  /** One of the phrases by which a provider rejects its key stands in the message. */
  ghost predicate NamesAuthError(message: string) {
    exists phrase, i: nat ::
      && phrase in ["401", "authentication_error", "incorrect api key", "invalid x-api-key"]
      && BatchTranslation.OccursAt(BatchTranslation.Lower(message), phrase, i)
  }

  lemma AuthErrorsAreNamed(message: string)
    ensures IsProviderAuthError(message) <==> NamesAuthError(message)
  {
    var m := BatchTranslation.Lower(message);
    BatchTranslation.IncludesIffOccurs(m, "401");
    BatchTranslation.IncludesIffOccurs(m, "authentication_error");
    BatchTranslation.IncludesIffOccurs(m, "incorrect api key");
    BatchTranslation.IncludesIffOccurs(m, "invalid x-api-key");
  }

  /**
   A run skips exactly when its last prompt failed because the provider rejected its key and
   that may be so. It then reports the fallback keys on file, and like any run that throws
   it leaves the files alone.
   */
  lemma RunSkipsOnAuthErrorOnly(cfg: Config, opts: Options, src: Entries<string>, files: Files,
                                reply: nat -> BatchTranslation.Reply, answers: map<string, string>, sent: nat,
                                outcome: SyncOutcome, after: Files)
    requires RunsRightly(cfg, opts, src, files, reply, answers, sent, outcome, after)
    ensures var t := Asked(cfg, opts.budget, Look(cfg, files), src, reply);
            outcome.Skipped? <==> t.result.Err? && opts.authOptional && NamesAuthError(t.result.error)
    ensures outcome.Skipped? ==>
              outcome.fallbackCount == if files.meta.Some? then |files.meta.value.fallbackKeys| else 0
    ensures !outcome.Done? ==> after == files
  {
    var t := Asked(cfg, opts.budget, Look(cfg, files), src, reply);
    if t.result.Err? {
      AuthErrorsAreNamed(t.result.error);
    }
  }
}
