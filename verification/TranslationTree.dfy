/**
 Nested translation maps: flattening to dotted keys, and rebuilding a nested map by
 inserting one dotted key after another.
 */
module TranslationTree {
  import opened Wrappers
  import opened Text
  import opened OrderedMap

  const DOT := '.'

  /** A translation map is a list of own properties in enumeration order. */
  datatype Tree = Leaf(text: string) | Node(kids: Kids)
  datatype Kids = Nil | Cons(key: string, value: Tree, rest: Kids)

  function Find(kids: Kids, key: string): Option<Tree> {
    match kids
    case Nil => None
    case Cons(k, v, rest) => if k == key then Some(v) else Find(rest, key)
  }

  /** `cursor[key] = value`. */
  function SetKid(kids: Kids, key: string, value: Tree): Kids {
    match kids
    case Nil => Cons(key, value, Nil)
    case Cons(k, v, rest) => if k == key then Cons(k, value, rest) else Cons(k, v, SetKid(rest, key, value))
  }

  /** Property names are unique at every level. */
  predicate WellFormed(kids: Kids) {
    match kids
    case Nil => true
    case Cons(k, v, rest) => Find(rest, k).None? && (v.Node? ==> WellFormed(v.kids)) && WellFormed(rest)
  }

  function Sub(prefix: string, key: string): string {
    if prefix == "" then key else prefix + [DOT] + key
  }

  /** `flattenTranslations(value, prefix, out)`. */
  function FlattenInto(kids: Kids, prefix: string, out: Entries<string>): Entries<string> {
    match kids
    case Nil => out
    case Cons(k, Leaf(text), rest) => FlattenInto(rest, prefix, Put(out, Sub(prefix, k), text))
    case Cons(k, Node(nested), rest) => FlattenInto(rest, prefix, FlattenInto(nested, Sub(prefix, k), out))
  }

  function Flatten(kids: Kids): Entries<string> {
    FlattenInto(kids, "", [])
  }

  /** The loop over the properties; nested maps recurse into the same output. */
  method FlattenTranslations(value: Kids, prefix: string, out0: Entries<string>) returns (out: Entries<string>)
    ensures out == FlattenInto(value, prefix, out0)
    decreases value
  {
    out := out0;
    var rest := value;
    while rest.Cons?
      invariant rest == value || rest < value
      invariant FlattenInto(rest, prefix, out) == FlattenInto(value, prefix, out0)
      decreases rest
    {
      var fullKey := if prefix != "" then prefix + [DOT] + rest.key else rest.key;
      match rest.value {
        case Leaf(text) => out := Put(out, fullKey, text);
        case Node(nested) => out := FlattenTranslations(nested, fullKey, out);
      }
      rest := rest.rest;
    }
  }

  /** `setNestedValue` along the parts of a dotted key: strings in the way are replaced. */
  function SetNested(kids: Kids, parts: seq<string>, value: string): Kids
    requires |parts| >= 1
    decreases |parts|
  {
    if |parts| == 1 then SetKid(kids, parts[0], Leaf(value))
    else
      var next := match Find(kids, parts[0]) case Some(Node(nested)) => nested case _ => Nil;
      SetKid(kids, parts[0], Node(SetNested(next, parts[1..], value)))
  }

  /** Inserting the first `n` entries into an empty map. */
  function Nest(entries: Entries<string>, n: nat): Kids
    requires n <= |entries|
  {
    if n == 0 then Nil
    else SetNested(Nest(entries, n - 1), Split(entries[n - 1].0, DOT), entries[n - 1].1)
  }

  // ----- Paths -----

  /** The text at the end of a path of property names. */
  function LookupPath(kids: Kids, path: seq<string>): Option<string>
    decreases |path|
  {
    if path == [] then None
    else
      match Find(kids, path[0])
      case None => None
      case Some(Leaf(text)) => if |path| == 1 then Some(text) else None
      case Some(Node(nested)) => if |path| == 1 then None else LookupPath(nested, path[1..])
  }

  lemma {:induction false} FindSetKid(kids: Kids, key: string, value: Tree, other: string)
    ensures Find(SetKid(kids, key, value), other) == if other == key then Some(value) else Find(kids, other)
  {
    if kids.Cons? && kids.key != key {
      FindSetKid(kids.rest, key, value, other);
    }
  }

  lemma {:induction false} FoundIsWellFormed(kids: Kids, key: string)
    requires WellFormed(kids)
    ensures Find(kids, key).Some? && Find(kids, key).value.Node? ==> WellFormed(Find(kids, key).value.kids)
  {
    if kids.Cons? && kids.key != key {
      FoundIsWellFormed(kids.rest, key);
    }
  }

  lemma {:induction false} SetKidIsWellFormed(kids: Kids, key: string, value: Tree)
    requires WellFormed(kids) && (value.Node? ==> WellFormed(value.kids))
    ensures WellFormed(SetKid(kids, key, value))
  {
    if kids.Cons? && kids.key != key {
      SetKidIsWellFormed(kids.rest, key, value);
      FindSetKid(kids.rest, key, value, kids.key);
    }
  }

  lemma {:induction false} SetNestedIsWellFormed(kids: Kids, parts: seq<string>, value: string)
    requires |parts| >= 1 && WellFormed(kids)
    ensures WellFormed(SetNested(kids, parts, value))
    decreases |parts|
  {
    if |parts| == 1 {
      SetKidIsWellFormed(kids, parts[0], Leaf(value));
    } else {
      FoundIsWellFormed(kids, parts[0]);
      var next := match Find(kids, parts[0]) case Some(Node(nested)) => nested case _ => Nil;
      SetNestedIsWellFormed(next, parts[1..], value);
      SetKidIsWellFormed(kids, parts[0], Node(SetNested(next, parts[1..], value)));
    }
  }

  /** One of the two paths runs through the other. */
  predicate Comparable(p: seq<string>, q: seq<string>) {
    p <= q || q <= p
  }

  /** Setting a path defines it, removes every text above or below it, and nothing else. */
  lemma {:induction false} SetNestedLookup(kids: Kids, parts: seq<string>, value: string, q: seq<string>)
    requires |parts| >= 1 && q != []
    ensures LookupPath(SetNested(kids, parts, value), q)
         == if q == parts then Some(value) else if Comparable(parts, q) then None else LookupPath(kids, q)
    decreases |parts|
  {
    var r := SetNested(kids, parts, value);
    if |parts| == 1 {
      FindSetKid(kids, parts[0], Leaf(value), q[0]);
    } else {
      var next := match Find(kids, parts[0]) case Some(Node(nested)) => nested case _ => Nil;
      var inner := SetNested(next, parts[1..], value);
      FindSetKid(kids, parts[0], Node(inner), q[0]);
      if q[0] == parts[0] {
        assert parts == [parts[0]] + parts[1..] && q == [q[0]] + q[1..];
        if |q| > 1 {
          SetNestedLookup(next, parts[1..], value, q[1..]);
        }
      }
    }
  }

  lemma {:induction false} NestIsWellFormed(entries: Entries<string>, n: nat)
    requires n <= |entries|
    ensures WellFormed(Nest(entries, n))
  {
    if n > 0 {
      NestIsWellFormed(entries, n - 1);
      SetNestedIsWellFormed(Nest(entries, n - 1), Split(entries[n - 1].0, DOT), entries[n - 1].1);
    }
  }

  /** Every text in a rebuilt map sits at the path of some entry. */
  lemma {:induction false} PathsAreKeys(entries: Entries<string>, n: nat, q: seq<string>) returns (i: nat)
    requires n <= |entries|
    requires LookupPath(Nest(entries, n), q).Some?
    ensures i < n && q == Split(entries[i].0, DOT) && LookupPath(Nest(entries, n), q) == Some(entries[i].1)
  {
    SetNestedLookup(Nest(entries, n - 1), Split(entries[n - 1].0, DOT), entries[n - 1].1, q);
    if q == Split(entries[n - 1].0, DOT) {
      i := n - 1;
    } else {
      i := PathsAreKeys(entries, n - 1, q);
    }
  }

  lemma SplitIsInjective(a: string, b: string)
    requires Split(a, DOT) == Split(b, DOT)
    ensures a == b
  {
    JoinOfSplit(a, DOT);
    JoinOfSplit(b, DOT);
  }

  /** No key's path runs through another's. */
  ghost predicate PrefixFree(entries: Entries<string>) {
    forall i, j :: 0 <= i < |entries| && 0 <= j < |entries| && i != j ==>
      !(Split(entries[i].0, DOT) <= Split(entries[j].0, DOT))
  }

  predicate LeadingDot(key: string) {
    key != "" && key[0] == DOT
  }

  ghost predicate NoLeadingDot(entries: Entries<string>) {
    forall i :: 0 <= i < |entries| ==> !LeadingDot(entries[i].0)
  }

  lemma {:induction false} PrefixFreeKeepsAll(entries: Entries<string>, n: nat, i: nat)
    requires i < n <= |entries| && PrefixFree(entries)
    ensures LookupPath(Nest(entries, n), Split(entries[i].0, DOT)) == Some(entries[i].1)
  {
    SetNestedLookup(Nest(entries, n - 1), Split(entries[n - 1].0, DOT), entries[n - 1].1, Split(entries[i].0, DOT));
    if i < n - 1 {
      PrefixFreeKeepsAll(entries, n - 1, i);
    }
  }

  /** An entry whose path is comparable to a later one's does not survive. */
  lemma {:induction false} ComparableIsLost(entries: Entries<string>, n: nat, i: nat, j: nat)
    requires i < j < n <= |entries| && Distinct(entries)
    requires Comparable(Split(entries[i].0, DOT), Split(entries[j].0, DOT))
    ensures LookupPath(Nest(entries, n), Split(entries[i].0, DOT)).None?
  {
    var q := Split(entries[i].0, DOT);
    SetNestedLookup(Nest(entries, n - 1), Split(entries[n - 1].0, DOT), entries[n - 1].1, q);
    if q == Split(entries[n - 1].0, DOT) {
      SplitIsInjective(entries[i].0, entries[n - 1].0);
    }
    if j < n - 1 {
      ComparableIsLost(entries, n - 1, i, j);
    }
  }

  // ----- Flattening in terms of paths -----

  function Full(prefix: string, path: seq<string>): string
    decreases |path|
  {
    if path == [] then prefix else Full(Sub(prefix, path[0]), path[1..])
  }

  ghost predicate ReachesBy(kids: Kids, prefix: string, path: seq<string>, x: string, text: string) {
    LookupPath(kids, path) == Some(text) && Full(prefix, path) == x
  }

  /** Some path that flattens to the key `x` holds `text`. */
  ghost predicate Reaches(kids: Kids, prefix: string, x: string, text: string) {
    exists path :: ReachesBy(kids, prefix, path, x, text)
  }

  lemma ReachesLeaf(k: string, leaf: string, rest: Kids, prefix: string, x: string, text: string)
    requires WellFormed(Cons(k, Leaf(leaf), rest))
    ensures Reaches(Cons(k, Leaf(leaf), rest), prefix, x, text)
       <==> (x == Sub(prefix, k) && text == leaf) || Reaches(rest, prefix, x, text)
  {
    var kids := Cons(k, Leaf(leaf), rest);
    if x == Sub(prefix, k) && text == leaf {
      assert Full(prefix, [k]) == Full(Sub(prefix, k), [k][1..]);
      assert ReachesBy(kids, prefix, [k], x, text);
    }
    if Reaches(rest, prefix, x, text) {
      var path :| ReachesBy(rest, prefix, path, x, text);
      assert ReachesBy(kids, prefix, path, x, text);
    }
    if Reaches(kids, prefix, x, text) {
      var path :| ReachesBy(kids, prefix, path, x, text);
      if path[0] != k {
        assert ReachesBy(rest, prefix, path, x, text);
      } else {
        assert Full(prefix, path) == Full(Sub(prefix, k), path[1..]);
      }
    }
  }

  lemma ReachesNode(k: string, nested: Kids, rest: Kids, prefix: string, x: string, text: string)
    requires WellFormed(Cons(k, Node(nested), rest))
    ensures Reaches(Cons(k, Node(nested), rest), prefix, x, text)
       <==> Reaches(nested, Sub(prefix, k), x, text) || Reaches(rest, prefix, x, text)
  {
    var kids := Cons(k, Node(nested), rest);
    if Reaches(nested, Sub(prefix, k), x, text) {
      var path :| ReachesBy(nested, Sub(prefix, k), path, x, text);
      assert ([k] + path)[1..] == path;
      assert ReachesBy(kids, prefix, [k] + path, x, text);
    }
    if Reaches(rest, prefix, x, text) {
      var path :| ReachesBy(rest, prefix, path, x, text);
      assert ReachesBy(kids, prefix, path, x, text);
    }
    if Reaches(kids, prefix, x, text) {
      var path :| ReachesBy(kids, prefix, path, x, text);
      if path[0] != k {
        assert ReachesBy(rest, prefix, path, x, text);
      } else {
        assert ReachesBy(nested, Sub(prefix, k), path[1..], x, text);
      }
    }
  }

  /** A flattened key is defined exactly if it was before or some path flattens to it. */
  lemma {:induction false} FlattenReaches(kids: Kids, prefix: string, out: Entries<string>, x: string)
    requires WellFormed(kids)
    ensures var r := Get(FlattenInto(kids, prefix, out), x);
            && (r.Some? ==> r == Get(out, x) || Reaches(kids, prefix, x, r.value))
            && (r.None? ==> Get(out, x).None? && forall text :: !Reaches(kids, prefix, x, text))
    decreases kids
  {
    match kids
    case Nil =>
    case Cons(k, Leaf(leaf), rest) =>
      GetPut(out, Sub(prefix, k), leaf, x);
      FlattenReaches(rest, prefix, Put(out, Sub(prefix, k), leaf), x);
      forall text { ReachesLeaf(k, leaf, rest, prefix, x, text); }
    case Cons(k, Node(nested), rest) =>
      FlattenReaches(nested, Sub(prefix, k), out, x);
      FlattenReaches(rest, prefix, FlattenInto(nested, Sub(prefix, k), out), x);
      forall text { ReachesNode(k, nested, rest, prefix, x, text); }
  }

  lemma {:induction false} FlattenIsDistinct(kids: Kids, prefix: string, out: Entries<string>)
    requires Distinct(out)
    ensures Distinct(FlattenInto(kids, prefix, out))
    decreases kids
  {
    match kids
    case Nil =>
    case Cons(k, Leaf(leaf), rest) =>
      PutKeepsDistinct(out, Sub(prefix, k), leaf);
      FlattenIsDistinct(rest, prefix, Put(out, Sub(prefix, k), leaf));
    case Cons(k, Node(nested), rest) =>
      FlattenIsDistinct(nested, Sub(prefix, k), out);
      FlattenIsDistinct(rest, prefix, FlattenInto(nested, Sub(prefix, k), out));
  }

  predicate DotFree(path: seq<string>) {
    forall i :: 0 <= i < |path| ==> DOT !in path[i]
  }

  lemma {:induction false} FullAfterPrefix(prefix: string, path: seq<string>)
    requires prefix != "" && path != []
    ensures Full(prefix, path) == prefix + [DOT] + Join(path, DOT)
    decreases |path|
  {
    var next := Sub(prefix, path[0]);
    if |path| > 1 {
      FullAfterPrefix(next, path[1..]);
      assert next + [DOT] + Join(path[1..], DOT) == prefix + [DOT] + (path[0] + [DOT] + Join(path[1..], DOT));
    } else {
      assert Full(next, path[1..]) == next;
    }
  }

  /** A path flattens to its dotted join unless an empty first name is swallowed. */
  lemma FullIsJoin(path: seq<string>)
    requires path != [] && (|path| == 1 || path[0] != "")
    ensures Full("", path) == Join(path, DOT)
  {
    if |path| > 1 {
      FullAfterPrefix(path[0], path[1..]);
    } else {
      assert Full(path[0], path[1..]) == path[0];
    }
  }

  lemma {:induction false} FullHasNoLeadingDot(prefix: string, path: seq<string>)
    requires DotFree(path) && !LeadingDot(prefix)
    ensures !LeadingDot(Full(prefix, path))
    decreases |path|
  {
    if path != [] {
      assert !LeadingDot(path[0]) by {
        assert DOT !in path[0];
      }
      FullHasNoLeadingDot(Sub(prefix, path[0]), path[1..]);
    }
  }

  lemma FullOfSplit(key: string)
    requires !LeadingDot(key)
    ensures Full("", Split(key, DOT)) == key
  {
    var path := Split(key, DOT);
    JoinOfSplit(key, DOT);
    assert |path| > 1 ==> key == path[0] + [DOT] + Join(path[1..], DOT);
    FullIsJoin(path);
  }

  // ----- Nest, then flatten -----

  /** Flattening the rebuilt map gives the entries back, as a map. */
  ghost predicate RoundTrips(entries: Entries<string>) {
    forall x :: Get(Flatten(Nest(entries, |entries|)), x) == Get(entries, x)
  }

  /** Over a map rebuilt without leading dots, a defined flattened key is an entry's. */
  lemma FlattenedKeyIsEntry(entries: Entries<string>, x: string) returns (i: nat)
    requires NoLeadingDot(entries)
    requires Get(Flatten(Nest(entries, |entries|)), x).Some?
    ensures i < |entries| && entries[i].0 == x
    ensures LookupPath(Nest(entries, |entries|), Split(x, DOT)) == Some(entries[i].1)
    ensures Get(Flatten(Nest(entries, |entries|)), x) == Some(entries[i].1)
  {
    var n := |entries|;
    var kids, r := Nest(entries, n), Get(Flatten(Nest(entries, n)), x);
    NestIsWellFormed(entries, n);
    FlattenReaches(kids, "", [], x);
    var path :| ReachesBy(kids, "", path, x, r.value);
    i := PathsAreKeys(entries, n, path);
    FullOfSplit(entries[i].0);
  }

  lemma CleanEntriesRoundTrip(entries: Entries<string>)
    requires Distinct(entries) && PrefixFree(entries) && NoLeadingDot(entries)
    ensures RoundTrips(entries)
  {
    var n := |entries|;
    var kids := Nest(entries, n);
    NestIsWellFormed(entries, n);
    forall x ensures Get(Flatten(kids), x) == Get(entries, x) {
      GetFindsEntries(entries, x);
      FlattenReaches(kids, "", [], x);
      if Get(Flatten(kids), x).Some? {
        var i := FlattenedKeyIsEntry(entries, x);
      } else if Get(entries, x).Some? {
        var i :| 0 <= i < n && entries[i] == (x, Get(entries, x).value);
        PrefixFreeKeepsAll(entries, n, i);
        FullOfSplit(x);
        assert ReachesBy(kids, "", Split(x, DOT), x, entries[i].1);
        assert Reaches(kids, "", x, entries[i].1);
        assert false;
      }
    }
  }

  lemma LeadingDotIsLost(entries: Entries<string>, i: nat)
    requires i < |entries| && LeadingDot(entries[i].0)
    ensures Get(Flatten(Nest(entries, |entries|)), entries[i].0).None?
  {
    var n, x := |entries|, entries[i].0;
    var kids := Nest(entries, n);
    NestIsWellFormed(entries, n);
    FlattenReaches(kids, "", [], x);
    forall text ensures !Reaches(kids, "", x, text) {
      if Reaches(kids, "", x, text) {
        var path :| ReachesBy(kids, "", path, x, text);
        var m := PathsAreKeys(entries, n, path);
        SplitPiecesAreFree(entries[m].0, DOT);
        FullHasNoLeadingDot("", path);
        assert false;
      }
    }
  }

  lemma ClobberedKeyIsLost(entries: Entries<string>, i: nat, j: nat)
    requires Distinct(entries) && NoLeadingDot(entries)
    requires i < j < |entries| && Comparable(Split(entries[i].0, DOT), Split(entries[j].0, DOT))
    ensures Get(Flatten(Nest(entries, |entries|)), entries[i].0).None?
  {
    var n, x := |entries|, entries[i].0;
    ComparableIsLost(entries, n, i, j);
    if Get(Flatten(Nest(entries, n)), x).Some? {
      var m := FlattenedKeyIsEntry(entries, x);
      assert false;
    }
  }

  /**
   For any flat map, inserted in any order: rebuilding and flattening gives the same map
   exactly when no key runs through another and no key starts with a dot.
   */
  lemma NestThenFlatten(entries: Entries<string>)
    requires Distinct(entries)
    ensures RoundTrips(entries) <==> PrefixFree(entries) && NoLeadingDot(entries)
  {
    if PrefixFree(entries) && NoLeadingDot(entries) {
      CleanEntriesRoundTrip(entries);
    } else {
      var i := LostKey(entries);
      GetFindsEntries(entries, entries[i].0);
      assert !RoundTrips(entries);
    }
  }

  /** Otherwise some key of the flat map is missing after the round trip. */
  lemma LostKey(entries: Entries<string>) returns (i: nat)
    requires Distinct(entries) && !(PrefixFree(entries) && NoLeadingDot(entries))
    ensures i < |entries| && Get(Flatten(Nest(entries, |entries|)), entries[i].0).None?
  {
    if !NoLeadingDot(entries) {
      i :| 0 <= i < |entries| && LeadingDot(entries[i].0);
      LeadingDotIsLost(entries, i);
    } else {
      var a, b :| 0 <= a < |entries| && 0 <= b < |entries| && a != b
                  && Split(entries[a].0, DOT) <= Split(entries[b].0, DOT);
      i := if a < b then a else b;
      ClobberedKeyIsLost(entries, i, if a < b then b else a);
    }
  }

  /** The two ways to lose a key, on concrete maps. */
  lemma LossyExamples()
    ensures !RoundTrips([(".a", "x")])
    ensures !RoundTrips([("a", "x"), ("a.b", "y")])
  {
    var dotted: Entries<string> := [(".a", "x")];
    assert LeadingDot(dotted[0].0);
    NestThenFlatten(dotted);
    var nested: Entries<string> := [("a", "x"), ("a.b", "y")];
    SplitOfPlain("a", DOT);
    SplitOfPlain("b", DOT);
    SplitAfterPlain("a", "b", DOT);
    assert "a" + [DOT] + "b" == "a.b";
    assert Split(nested[0].0, DOT) <= Split(nested[1].0, DOT);
    NestThenFlatten(nested);
  }

  // ----- Flatten of an ordinary nested map -----

  /** Every property name at every level is non-empty and holds no dot. */
  predicate PlainNames(kids: Kids) {
    match kids
    case Nil => true
    case Cons(k, v, rest) => k != "" && DOT !in k && (v.Node? ==> PlainNames(v.kids)) && PlainNames(rest)
  }

  lemma {:induction false} FoundNamesArePlain(kids: Kids, key: string)
    requires PlainNames(kids) && Find(kids, key).Some?
    ensures key != "" && DOT !in key
    ensures Find(kids, key).value.Node? ==> PlainNames(Find(kids, key).value.kids)
  {
    if kids.key != key {
      FoundNamesArePlain(kids.rest, key);
    }
  }

  lemma {:induction false} PathNamesArePlain(kids: Kids, path: seq<string>)
    requires PlainNames(kids) && LookupPath(kids, path).Some?
    ensures DotFree(path) && path[0] != ""
    decreases |path|
  {
    FoundNamesArePlain(kids, path[0]);
    if |path| > 1 {
      PathNamesArePlain(Find(kids, path[0]).value.kids, path[1..]);
      assert path == [path[0]] + path[1..];
    }
  }

  lemma {:induction false} NoTextThroughText(kids: Kids, p: seq<string>, q: seq<string>)
    requires LookupPath(kids, p).Some? && LookupPath(kids, q).Some? && p <= q
    ensures p == q
    decreases |p|
  {
    assert p[0] == q[0];
    if |p| > 1 && |q| > 1 {
      assert p[1..] <= q[1..];
      NoTextThroughText(Find(kids, p[0]).value.kids, p[1..], q[1..]);
      assert p == [p[0]] + p[1..] && q == [q[0]] + q[1..];
    }
  }

  lemma FlattenedKeyPath(kids: Kids, x: string) returns (path: seq<string>)
    requires WellFormed(kids) && PlainNames(kids) && Get(Flatten(kids), x).Some?
    ensures LookupPath(kids, path).Some? && Split(x, DOT) == path && !LeadingDot(x)
  {
    FlattenReaches(kids, "", [], x);
    path :| ReachesBy(kids, "", path, x, Get(Flatten(kids), x).value);
    PathNamesArePlain(kids, path);
    FullIsJoin(path);
    SplitOfJoin(path, DOT);
    FullHasNoLeadingDot("", path);
  }

  /** Flattening a nested map with non-empty, dot-free names always gives a clean flat map. */
  lemma FlattenedMapsAreClean(kids: Kids)
    requires WellFormed(kids) && PlainNames(kids)
    ensures Distinct(Flatten(kids)) && PrefixFree(Flatten(kids)) && NoLeadingDot(Flatten(kids))
  {
    var flat := Flatten(kids);
    FlattenIsDistinct(kids, "", []);
    forall i | 0 <= i < |flat| ensures Get(flat, flat[i].0).Some? {
      GetFindsEntries(flat, flat[i].0);
    }
    forall i | 0 <= i < |flat| ensures !LeadingDot(flat[i].0) {
      var p := FlattenedKeyPath(kids, flat[i].0);
    }
    forall i, j | 0 <= i < |flat| && 0 <= j < |flat| && i != j
      ensures !(Split(flat[i].0, DOT) <= Split(flat[j].0, DOT))
    {
      if Split(flat[i].0, DOT) <= Split(flat[j].0, DOT) {
        var p := FlattenedKeyPath(kids, flat[i].0);
        var q := FlattenedKeyPath(kids, flat[j].0);
        NoTextThroughText(kids, p, q);
        SplitIsInjective(flat[i].0, flat[j].0);
        assert false;
      }
    }
  }

  /** So flattening, rebuilding and flattening again is the same map. */
  lemma FlattenNestFlatten(kids: Kids)
    requires WellFormed(kids) && PlainNames(kids)
    ensures RoundTrips(Flatten(kids))
  {
    FlattenedMapsAreClean(kids);
    NestThenFlatten(Flatten(kids));
  }

  // ----- The order of properties -----

  /** The texts of the tree in the order a reader meets them, each under its dotted name. */
  function Leaves(kids: Kids, prefix: string): Entries<string> {
    match kids
    case Nil => []
    case Cons(k, Leaf(text), rest) => [(Sub(prefix, k), text)] + Leaves(rest, prefix)
    case Cons(k, Node(nested), rest) => Leaves(nested, Sub(prefix, k)) + Leaves(rest, prefix)
  }

  /** Flattening sets the texts in that order. */
  lemma {:induction false} FlattenIsLeavesInto(kids: Kids, prefix: string, out: Entries<string>)
    ensures FlattenInto(kids, prefix, out) == PutAll(out, Leaves(kids, prefix))
    decreases kids
  {
    match kids
    case Nil =>
    case Cons(k, Leaf(text), rest) =>
      FlattenIsLeavesInto(rest, prefix, Put(out, Sub(prefix, k), text));
      assert Leaves(kids, prefix)[1..] == Leaves(rest, prefix);
    case Cons(k, Node(nested), rest) =>
      FlattenIsLeavesInto(nested, Sub(prefix, k), out);
      FlattenIsLeavesInto(rest, prefix, FlattenInto(nested, Sub(prefix, k), out));
      PutAllConcat(out, Leaves(nested, Sub(prefix, k)), Leaves(rest, prefix));
  }

  /** The flat map lists the texts in their order in the tree, if no two have the same dotted name. */
  lemma FlattenListsLeaves(kids: Kids)
    requires Distinct(Leaves(kids, ""))
    ensures Flatten(kids) == Leaves(kids, "")
  {
    FlattenIsLeavesInto(kids, "", []);
    assert [] + Leaves(kids, "") == Leaves(kids, "");
    PutAllAppends([], Leaves(kids, ""));
  }

  /** Of several texts with one dotted name the last one in the tree is kept. */
  lemma FlattenKeepsLastLeaf(kids: Kids, i: nat)
    requires i < |Leaves(kids, "")| && LastWith(Leaves(kids, ""), Leaves(kids, "")[i].0, i)
    ensures Get(Flatten(kids), Leaves(kids, "")[i].0) == Some(Leaves(kids, "")[i].1)
  {
    FlattenIsLeavesInto(kids, "", []);
    GetPutAll([], Leaves(kids, ""), i);
  }

  /** The property names of one object, in order. */
  function Names(kids: Kids): seq<string> {
    match kids
    case Nil => []
    case Cons(k, _, rest) => [k] + Names(rest)
  }

  /** The object at the end of a path, if there is one. */
  function ObjectAt(kids: Kids, path: seq<string>): Option<Kids>
    decreases |path|
  {
    if path == [] then Some(kids)
    else match Find(kids, path[0])
         case Some(Node(nested)) => ObjectAt(nested, path[1..])
         case _ => None
  }

  lemma {:induction false} SetKidNames(kids: Kids, key: string, value: Tree)
    ensures Names(SetKid(kids, key, value)) == if key in Names(kids) then Names(kids) else Names(kids) + [key]
  {
    match kids
    case Nil =>
    case Cons(k, _, rest) =>
      if k != key {
        SetKidNames(rest, key, value);
        assert key in Names(kids) <==> key in Names(rest);
      }
  }

  /**
   Inserting a dotted key changes the names of the objects on its path only: each has the next
   part where it was, or as its last name.
   */
  lemma {:induction false} SetNestedNames(kids: Kids, parts: seq<string>, value: string, depth: nat)
    requires depth < |parts|
    ensures var before := ObjectAt(kids, parts[..depth]);
            var after := ObjectAt(SetNested(kids, parts, value), parts[..depth]);
            var names := if before.Some? then Names(before.value) else [];
            && after.Some?
            && Names(after.value) == if parts[depth] in names then names else names + [parts[depth]]
    decreases |parts|
  {
    var next := match Find(kids, parts[0]) case Some(Node(nested)) => nested case _ => Nil;
    if depth == 0 {
      SetKidNames(kids, parts[0], if |parts| == 1 then Leaf(value) else Node(SetNested(next, parts[1..], value)));
    } else {
      var child := Node(SetNested(next, parts[1..], value));
      FindSetKid(kids, parts[0], child, parts[0]);
      SetNestedNames(next, parts[1..], value, depth - 1);
      assert parts[..depth][1..] == parts[1..][..depth - 1] && parts[..depth][0] == parts[0];
      EmptyObjectHasNoObjects(parts[1..][..depth - 1]);
    }
  }

  lemma EmptyObjectHasNoObjects(path: seq<string>)
    ensures var o := ObjectAt(Nil, path);
            (if o.Some? then Names(o.value) else []) == []
  {}

  /** All other objects are untouched. */
  lemma {:induction false} SetNestedKeepsOthers(kids: Kids, parts: seq<string>, value: string, path: seq<string>)
    requires |parts| >= 1 && !Comparable(path, parts)
    ensures ObjectAt(SetNested(kids, parts, value), path) == ObjectAt(kids, path)
    decreases |parts|
  {
    var next := match Find(kids, parts[0]) case Some(Node(nested)) => nested case _ => Nil;
    var child := if |parts| == 1 then Leaf(value) else Node(SetNested(next, parts[1..], value));
    FindSetKid(kids, parts[0], child, path[0]);
    if path[0] == parts[0] {
      assert |parts| > 1 && !Comparable(path[1..], parts[1..]);
      SetNestedKeepsOthers(next, parts[1..], value, path[1..]);
    }
  }
}
