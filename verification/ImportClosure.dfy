/**
 The self-containment check of the installed `plugin-sdk/zod.js` artifact: a depth-first
 walk over relative imports that must never meet the package `zod`.
 */
module ImportClosure {
  import opened Wrappers

  const MAX_INSTALLED_ROOT_DIST_JS_BYTES: nat := 6 * 1024 * 1024

  datatype Parsed = Specifiers(specifiers: seq<string>) | ParseError(error: string)

  /**
   The installed package at one moment. `candidates` lists the seven spellings tried for a
   specifier, `toDist` is the path relative to the `dist` root.
   */
  datatype Package = Package(
    entry: string,
    files: set<string>,
    isFile: string -> bool,
    size: string -> nat,
    parse: string -> Parsed,
    candidates: (string, string) -> seq<string>,
    toDist: string -> string,
    isAbsolute: string -> bool)
  {
    predicate Exists(p: string) {
      p != "" && p in files
    }

    /** A spelling that stays inside `dist` and exists. */
    predicate Acceptable(p: string) {
      var r := toDist(p);
      r != "" && !(".." <= r) && !isAbsolute(r) && Exists(p)
    }
  }

  datatype Error =
    | MissingArtifact
    | InvalidFile(path: string)
    | Unparsable(path: string, error: string)
    | ImportsZod(path: string, specifier: string)

  predicate IsZod(specifier: string) {
    specifier == "zod" || "zod/" <= specifier
  }

  function FirstAcceptable(pkg: Package, paths: seq<string>): (r: Option<string>)
    ensures r.Some? ==> pkg.Acceptable(r.value)
    ensures r.None? <==> forall i :: 0 <= i < |paths| ==> !pkg.Acceptable(paths[i])
  {
    if paths == [] then None
    else if pkg.Acceptable(paths[0]) then Some(paths[0])
    else FirstAcceptable(pkg, paths[1..])
  }

  /** It is the first one: no spelling before it is acceptable. */
  lemma {:induction false} FoundIsFirst(pkg: Package, paths: seq<string>) returns (i: nat)
    requires FirstAcceptable(pkg, paths).Some?
    ensures i < |paths| && FirstAcceptable(pkg, paths) == Some(paths[i])
    ensures forall j :: 0 <= j < i ==> !pkg.Acceptable(paths[j])
  {
    if pkg.Acceptable(paths[0]) {
      i := 0;
    } else {
      i := FoundIsFirst(pkg, paths[1..]);
      i := i + 1;
    }
  }

  function Resolve(pkg: Package, importer: string, specifier: string): Option<string> {
    if !("." <= specifier) then None else FirstAcceptable(pkg, pkg.candidates(importer, specifier))
  }

  /** Inside `dist`: not `dist` itself, not above it, not elsewhere. */
  predicate Inside(pkg: Package, path: string) {
    var r := pkg.toDist(path);
    |r| > 0 && !pkg.isAbsolute(r) && !(|r| >= 2 && r[0] == '.' && r[1] == '.')
  }

  /** Only a relative specifier resolves, and to the first of its spellings that is a file inside `dist`. */
  lemma ResolvesToFirstInside(pkg: Package, importer: string, specifier: string)
    ensures match Resolve(pkg, importer, specifier)
            case Some(path) =>
              && |specifier| > 0 && specifier[0] == '.'
              && exists i: nat :: FirstInside(pkg, pkg.candidates(importer, specifier), i)
                                  && pkg.candidates(importer, specifier)[i] == path
            case None =>
              || specifier == "" || specifier[0] != '.'
              || forall i: nat :: !FirstInside(pkg, pkg.candidates(importer, specifier), i)
  {
    var paths := pkg.candidates(importer, specifier);
    assert forall p :: pkg.Acceptable(p) <==> IsFileInside(pkg, p);
    if Resolve(pkg, importer, specifier).Some? {
      var i := FoundIsFirst(pkg, paths);
      assert FirstInside(pkg, paths, i);
    }
  }

  ghost predicate FirstInside(pkg: Package, paths: seq<string>, i: nat) {
    && i < |paths| && IsFileInside(pkg, paths[i])
    && forall j :: 0 <= j < i ==> !IsFileInside(pkg, paths[j])
  }

  predicate IsFileInside(pkg: Package, path: string) {
    Inside(pkg, path) && path in pkg.files && |path| > 0
  }

  method ResolveInstalledDistRelativeImport(pkg: Package, importer: string, specifier: string)
    returns (r: Option<string>)
    ensures r == Resolve(pkg, importer, specifier)
  {
    if !("." <= specifier) {
      return None;
    }
    var candidatePaths := pkg.candidates(importer, specifier);
    for i := 0 to |candidatePaths|
      invariant FirstAcceptable(pkg, candidatePaths) == FirstAcceptable(pkg, candidatePaths[i..])
    {
      if !pkg.Acceptable(candidatePaths[i]) {
        continue;
      }
      return Some(candidatePaths[i]);
    }
    return None;
  }

  // ----- Reachability -----

  ghost predicate Imports(pkg: Package, from: string, to: string) {
    && pkg.parse(from).Specifiers?
    && exists s :: s in pkg.parse(from).specifiers && Resolve(pkg, from, s) == Some(to)
  }

  /** `chain` runs from the entry along resolvable relative imports. */
  ghost predicate ImportChain(pkg: Package, chain: seq<string>) {
    && chain != []
    && chain[0] == pkg.entry
    && forall i :: 0 <= i < |chain| - 1 ==> Imports(pkg, chain[i], chain[i + 1])
  }

  ghost predicate Reachable(pkg: Package, file: string) {
    exists chain :: ImportChain(pkg, chain) && chain[|chain| - 1] == file
  }

  /** A regular file within the size limit that parses and does not import zod. */
  ghost predicate SelfContained(pkg: Package, file: string) {
    && pkg.Exists(file)
    && pkg.isFile(file)
    && pkg.size(file) <= MAX_INSTALLED_ROOT_DIST_JS_BYTES
    && pkg.parse(file).Specifiers?
    && forall s :: s in pkg.parse(file).specifiers ==> !IsZod(s)
  }

  lemma ReachableStep(pkg: Package, from: string, to: string)
    requires Reachable(pkg, from) && Imports(pkg, from, to)
    ensures Reachable(pkg, to)
  {
    var chain :| ImportChain(pkg, chain) && chain[|chain| - 1] == from;
    assert ImportChain(pkg, chain + [to]);
    assert (chain + [to])[|chain + [to]| - 1] == to;
  }

  lemma EntryIsReachable(pkg: Package)
    ensures Reachable(pkg, pkg.entry)
  {
    assert ImportChain(pkg, [pkg.entry]) && [pkg.entry][0] == pkg.entry;
  }

  /** A set that holds the entry and is closed under imports holds every chain. */
  lemma {:induction false} ClosedSetHoldsChains(pkg: Package, closed: set<string>, chain: seq<string>)
    requires pkg.entry in closed
    requires forall f, g :: f in closed && Imports(pkg, f, g) ==> g in closed
    requires ImportChain(pkg, chain)
    ensures chain[|chain| - 1] in closed
  {
    if |chain| > 1 {
      var before := chain[..|chain| - 1];
      ClosedSetHoldsChains(pkg, closed, before);
      assert Imports(pkg, chain[|chain| - 2], chain[|chain| - 1]);
    }
  }

  lemma ClosedSetHoldsReachable(pkg: Package, closed: set<string>)
    requires pkg.entry in closed
    requires forall f, g :: f in closed && Imports(pkg, f, g) ==> g in closed
    ensures forall f :: Reachable(pkg, f) ==> f in closed
  {
    forall f | Reachable(pkg, f) ensures f in closed {
      var chain :| ImportChain(pkg, chain) && chain[|chain| - 1] == f;
      ClosedSetHoldsChains(pkg, closed, chain);
    }
  }

  // ----- The walk -----

  lemma SmallerRest(all: set<string>, visited: set<string>, f: string)
    requires f in all && f !in visited
    ensures |all - (visited + {f})| < |all - visited|
  {
    assert all - visited == (all - (visited + {f})) + {f};
  }

  /** A regular file within the size limit. */
  predicate Readable(pkg: Package, file: string) {
    pkg.Exists(file) && pkg.isFile(file) && pkg.size(file) <= MAX_INSTALLED_ROOT_DIST_JS_BYTES
  }

  /** The error says what is wrong with this file; of several imports of zod it names the first. */
  ghost predicate Blames(pkg: Package, file: string, error: Error) {
    match error
    case MissingArtifact => !pkg.Exists(file)
    case InvalidFile(path) => path == file && pkg.Exists(file) && !Readable(pkg, file)
    case Unparsable(path, message) => path == file && Readable(pkg, file) && pkg.parse(file) == ParseError(message)
    case ImportsZod(path, specifier) =>
      && path == file && Readable(pkg, file) && pkg.parse(file).Specifiers?
      && exists i: nat :: FirstZod(pkg.parse(file).specifiers, i) && pkg.parse(file).specifiers[i] == specifier
  }

  ghost predicate FirstZod(specifiers: seq<string>, i: nat) {
    i < |specifiers| && IsZod(specifiers[i]) && forall j :: 0 <= j < i ==> !IsZod(specifiers[j])
  }

  /** Looks at one file: the first problem found, or the relative imports to follow. */
  method InspectFile(pkg: Package, filePath: string) returns (r: Result<seq<string>, Error>)
    ensures r.Ok? <==> SelfContained(pkg, filePath)
    ensures r.Ok? ==> forall g :: g in r.value <==> Imports(pkg, filePath, g)
    ensures r == Err(MissingArtifact) <==> !pkg.Exists(filePath)
    ensures r.Err? ==> Blames(pkg, filePath, r.error)
  {
    if !pkg.Exists(filePath) {
      return Err(MissingArtifact);
    }
    if !pkg.isFile(filePath) || pkg.size(filePath) > MAX_INSTALLED_ROOT_DIST_JS_BYTES {
      return Err(InvalidFile(filePath));
    }
    var parsed := pkg.parse(filePath);
    if parsed.ParseError? {
      return Err(Unparsable(filePath, parsed.error));
    }
    var found: seq<string> := [];
    for i := 0 to |parsed.specifiers|
      invariant forall k :: 0 <= k < i ==> !IsZod(parsed.specifiers[k])
      invariant forall g :: g in found <==>
                  exists k :: 0 <= k < i && Resolve(pkg, filePath, parsed.specifiers[k]) == Some(g)
    {
      var specifier := parsed.specifiers[i];
      if specifier == "zod" || "zod/" <= specifier {
        assert specifier in parsed.specifiers && FirstZod(parsed.specifiers, i);
        return Err(ImportsZod(filePath, specifier));
      }
      var resolvedPath := ResolveInstalledDistRelativeImport(pkg, filePath, specifier);
      if resolvedPath.Some? {
        found := found + [resolvedPath.value];
      }
    }
    return Ok(found);
  }

  /** Everything met is reachable, everything visited is fine, and the frontier is pending. */
  ghost predicate Walk(pkg: Package, pending: seq<string>, visited: set<string>) {
    && (forall f :: f in pending ==> Reachable(pkg, f) && (f == pkg.entry || pkg.Exists(f)))
    && (forall f :: f in visited ==> SelfContained(pkg, f))
    && (pkg.entry in visited || pkg.entry in pending)
    && (forall f, g :: f in visited && Imports(pkg, f, g) ==> g in visited || g in pending)
  }

  lemma SkipKeepsWalk(pkg: Package, rest: seq<string>, f: string, visited: set<string>)
    requires Walk(pkg, rest + [f], visited) && f in visited
    ensures Walk(pkg, rest, visited)
  {
    assert forall g :: g in rest + [f] <==> g in rest || g == f;
  }

  lemma VisitKeepsWalk(pkg: Package, rest: seq<string>, f: string, visited: set<string>, found: seq<string>)
    requires Walk(pkg, rest + [f], visited)
    requires SelfContained(pkg, f)
    requires forall g :: g in found <==> Imports(pkg, f, g)
    ensures Walk(pkg, rest + found, visited + {f})
  {
    assert forall g :: g in rest + [f] <==> g in rest || g == f;
    assert forall g :: g in rest + found <==> g in rest || g in found;
    forall g | g in found ensures Reachable(pkg, g) && pkg.Exists(g) {
      ReachableStep(pkg, f, g);
    }
  }

  lemma FinishedWalk(pkg: Package, visited: set<string>)
    requires Walk(pkg, [], visited)
    ensures forall f :: Reachable(pkg, f) ==> SelfContained(pkg, f)
  {
    ClosedSetHoldsReachable(pkg, visited);
  }

  /**
   No error exactly when every file reachable from the entry (the entry included) is
   self-contained; the artifact is reported missing exactly when the entry is.
   */
  method CollectInstalledPluginSdkZodArtifactErrors(pkg: Package) returns (errors: seq<Error>)
    requires pkg.entry != ""
    ensures errors == [] <==> forall f :: Reachable(pkg, f) ==> SelfContained(pkg, f)
    ensures errors == [MissingArtifact] <==> !pkg.Exists(pkg.entry)
    ensures |errors| <= 1
    ensures errors != [] ==> exists f :: Reachable(pkg, f) && Blames(pkg, f, errors[0])
  {
    var pending := [pkg.entry];
    var visited: set<string> := {};
    ghost var all := pkg.files + {pkg.entry};
    EntryIsReachable(pkg);
    while |pending| > 0
      invariant Walk(pkg, pending, visited)
      invariant pkg.entry in visited || pending == [pkg.entry]
      decreases |all - visited|, |pending|
    {
      var filePath := pending[|pending| - 1];
      assert pending == pending[..|pending| - 1] + [filePath];
      assert Reachable(pkg, filePath) && filePath in all;
      pending := pending[..|pending| - 1];
      if filePath == "" || filePath in visited {
        SkipKeepsWalk(pkg, pending, filePath, visited);
        continue;
      }
      SmallerRest(all, visited, filePath);
      var outcome := InspectFile(pkg, filePath);
      if outcome.Err? {
        return [outcome.error];
      }
      VisitKeepsWalk(pkg, pending, filePath, visited, outcome.value);
      visited := visited + {filePath};
      pending := pending + outcome.value;
    }
    FinishedWalk(pkg, visited);
    return [];
  }
}
