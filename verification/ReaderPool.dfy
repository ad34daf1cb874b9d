/**
 The cooperative worker pool of the temp-path guardrail. Workers share `nextIndex` and
 the `output` array and run one at a time between awaits; which worker runs next is
 left open, so every schedule of every number of workers is covered.
 */
module ReaderPool {
  import opened Wrappers

  const FILE_READ_CONCURRENCY := 24

  datatype SourceFile = SourceFile(relativePath: string, source: string)

  /** The disk: reading a tracked file may fail, and paths are shown relative to the root. */
  datatype Disk = Disk(read: string -> Option<string>, relative: string -> string)

  /** Where a worker is suspended: before claiming, awaiting a read, or returned. */
  datatype Worker = AtTop | Reading(index: nat) | Returned

  /** What reading one path contributes. */
  function ReadOne(disk: Disk, path: string): Option<SourceFile> {
    if path == "" then None
    else
      match disk.read(path)
      case None => None
      case Some(source) => Some(SourceFile(disk.relative(path), source))
  }

  /** The plain sequential reader the pool has to agree with. */
  function ReadInOrder(disk: Disk, paths: seq<string>): seq<SourceFile> {
    if paths == [] then []
    else
      var one := ReadOne(disk, paths[0]);
      (if one.Some? then [one.value] else []) + ReadInOrder(disk, paths[1..])
  }

  /** File `f` is what reading path `i` gives: the path is not empty and could be read. */
  ghost predicate IsFileOf(disk: Disk, path: string, f: SourceFile) {
    |path| > 0 && disk.read(path) == Some(f.source) && f.relativePath == disk.relative(path)
  }

  /** The files are those of the paths picked from `from` on, in order; no other path there could be read. */
  ghost predicate ReadsExactly(disk: Disk, paths: seq<string>, from: nat, picks: seq<nat>, files: seq<SourceFile>) {
    && |picks| == |files|
    && (forall j :: 0 <= j < |picks| ==> from <= picks[j] < |paths| && IsFileOf(disk, paths[picks[j]], files[j]))
    && (forall j, k :: 0 <= j < k < |picks| ==> picks[j] < picks[k])
    && (forall i :: from <= i < |paths| && CanRead(disk, paths[i]) ==> i in picks)
  }

  predicate CanRead(disk: Disk, path: string) {
    |path| > 0 && disk.read(path).Some?
  }

  lemma InFront(x: nat, picks: seq<nat>)
    ensures forall y :: y in [x] + picks <==> y == x || y in picks
  {}

  lemma PickFirst(disk: Disk, paths: seq<string>, from: nat, picks: seq<nat>, files: seq<SourceFile>, f: SourceFile)
    requires from < |paths| && ReadsExactly(disk, paths, from + 1, picks, files) && IsFileOf(disk, paths[from], f)
    ensures ReadsExactly(disk, paths, from, [from] + picks, [f] + files)
  {
    InFront(from, picks);
  }

  lemma PickNone(disk: Disk, paths: seq<string>, from: nat, picks: seq<nat>, files: seq<SourceFile>)
    requires from < |paths| && ReadsExactly(disk, paths, from + 1, picks, files)
    requires !CanRead(disk, paths[from])
    ensures ReadsExactly(disk, paths, from, picks, files)
  {}

  lemma ReadNext(disk: Disk, paths: seq<string>, from: nat)
    requires from < |paths|
    ensures var one, later := ReadOne(disk, paths[from]), ReadInOrder(disk, paths[from + 1..]);
            ReadInOrder(disk, paths[from..]) == if one.Some? then [one.value] + later else later
  {
    assert paths[from..][0] == paths[from] && paths[from..][1..] == paths[from + 1..];
  }

  /** The sequential reader skips empty and unreadable paths, and keeps the order of the others. */
  lemma {:induction false} SequentialReadIsExact(disk: Disk, paths: seq<string>, from: nat) returns (picks: seq<nat>)
    requires from <= |paths|
    ensures ReadsExactly(disk, paths, from, picks, ReadInOrder(disk, paths[from..]))
    decreases |paths| - from
  {
    if from == |paths| {
      return [];
    }
    picks := SequentialReadIsExact(disk, paths, from + 1);
    ReadNext(disk, paths, from);
    var one, files := ReadOne(disk, paths[from]), ReadInOrder(disk, paths[from + 1..]);
    if one.Some? {
      PickFirst(disk, paths, from, picks, files, one.value);
      picks := [from] + picks;
    } else {
      PickNone(disk, paths, from, picks, files);
    }
  }

  function Present(slots: seq<Option<SourceFile>>): seq<SourceFile> {
    if slots == [] then []
    else (if slots[0].Some? then [slots[0].value] else []) + Present(slots[1..])
  }

  lemma {:induction false} FullSlotsReadInOrder(disk: Disk, paths: seq<string>, slots: seq<Option<SourceFile>>)
    requires |slots| == |paths|
    requires forall i :: 0 <= i < |paths| ==> slots[i] == ReadOne(disk, paths[i])
    ensures Present(slots) == ReadInOrder(disk, paths)
  {
    if paths != [] {
      FullSlotsReadInOrder(disk, paths[1..], slots[1..]);
    }
  }

  // ----- Progress -----

  function Weight(workers: seq<Worker>): nat {
    if workers == [] then 0
    else (match workers[0] case AtTop => 1 case Reading(_) => 2 case Returned => 0) + Weight(workers[1..])
  }

  lemma {:induction false} WeightAfterStep(workers: seq<Worker>, w: nat, next: Worker)
    requires w < |workers|
    ensures Weight(workers[w := next]) == Weight(workers) - Weight([workers[w]]) + Weight([next])
  {
    if w == 0 {
      assert workers[w := next][1..] == workers[1..];
    } else {
      assert workers[w := next][1..] == workers[1..][w - 1 := next];
      WeightAfterStep(workers[1..], w - 1, next);
    }
  }

  // ----- The shared state between two steps -----

  ghost predicate BeingRead(workers: seq<Worker>, i: int) {
    exists w :: 0 <= w < |workers| && workers[w].Reading? && workers[w].index == i
  }

  ghost predicate Consistent(disk: Disk, paths: seq<string>, nextIndex: nat, slots: seq<Option<SourceFile>>,
                             workers: seq<Worker>, claims: seq<nat>)
  {
    && |slots| == |paths|
    && claims == seq(if nextIndex < |paths| then nextIndex else |paths|, i requires i >= 0 => i)
    && (forall w :: 0 <= w < |workers| && workers[w].Returned? ==> nextIndex >= |paths|)
    && (forall w :: 0 <= w < |workers| && workers[w].Reading? ==>
          workers[w].index < nextIndex && workers[w].index < |paths| && paths[workers[w].index] != "")
    && (forall w, u :: 0 <= w < u < |workers| && workers[w].Reading? && workers[u].Reading? ==>
          workers[w].index != workers[u].index)
    && (forall i :: 0 <= i < |paths| ==>
          slots[i] == if i < nextIndex && !BeingRead(workers, i) then ReadOne(disk, paths[i]) else None)
  }

  lemma ClaimKeepsConsistent(disk: Disk, paths: seq<string>, nextIndex: nat, slots: seq<Option<SourceFile>>,
                             workers: seq<Worker>, claims: seq<nat>, w: nat, next: Worker)
    requires Consistent(disk, paths, nextIndex, slots, workers, claims)
    requires w < |workers| && workers[w].AtTop?
    requires next == if nextIndex >= |paths| then Returned
                     else if paths[nextIndex] == "" then AtTop
                     else Reading(nextIndex)
    ensures Consistent(disk, paths, nextIndex + 1, slots, workers[w := next],
                       if nextIndex < |paths| then claims + [nextIndex] else claims)
  {
    var after := workers[w := next];
    forall i | 0 <= i < |paths|
      ensures BeingRead(after, i) <==> BeingRead(workers, i) || (next == Reading(nextIndex) && i == nextIndex)
    {
      if BeingRead(workers, i) {
        var u :| 0 <= u < |workers| && workers[u].Reading? && workers[u].index == i;
        assert after[u] == workers[u];
      }
      if next == Reading(nextIndex) && i == nextIndex {
        assert after[w].Reading? && after[w].index == i;
      }
    }
    assert !BeingRead(workers, nextIndex);
  }

  lemma ReadKeepsConsistent(disk: Disk, paths: seq<string>, nextIndex: nat, slots: seq<Option<SourceFile>>,
                            workers: seq<Worker>, claims: seq<nat>, w: nat)
    requires Consistent(disk, paths, nextIndex, slots, workers, claims)
    requires w < |workers| && workers[w].Reading?
    ensures var i := workers[w].index;
            i < |paths| == |slots| &&
            Consistent(disk, paths, nextIndex, slots[i := ReadOne(disk, paths[i])], workers[w := AtTop], claims)
  {
    var after, mine := workers[w := AtTop], workers[w].index;
    forall i | 0 <= i < |paths|
      ensures BeingRead(after, i) <==> BeingRead(workers, i) && i != mine
    {
      if BeingRead(workers, i) && i != mine {
        var u :| 0 <= u < |workers| && workers[u].Reading? && workers[u].index == i;
        assert after[u] == workers[u];
      }
      if BeingRead(after, i) {
        var u :| 0 <= u < |after| && after[u].Reading? && after[u].index == i;
        assert workers[u] == after[u] && u != w;
      }
    }
  }

  lemma AllReturnedMeansDone(disk: Disk, paths: seq<string>, nextIndex: nat, slots: seq<Option<SourceFile>>,
                             workers: seq<Worker>, claims: seq<nat>)
    requires Consistent(disk, paths, nextIndex, slots, workers, claims)
    requires |workers| >= 1 && forall w :: 0 <= w < |workers| ==> workers[w].Returned?
    ensures Present(slots) == ReadInOrder(disk, paths)
    ensures claims == seq(|paths|, i requires i >= 0 => i)
  {
    assert workers[0].Returned?;
    forall i | 0 <= i < |paths| ensures !BeingRead(workers, i) {}
    FullSlotsReadInOrder(disk, paths, slots);
  }

  /**
   Runs `count` workers under an arbitrary schedule. All of them return, every index is
   claimed exactly once and in order, and the result is the sequential read.
   */
  method RunWorkers(disk: Disk, paths: seq<string>, count: nat) returns (files: seq<SourceFile>, ghost claims: seq<nat>)
    requires count >= 1
    ensures files == ReadInOrder(disk, paths)
    ensures claims == seq(|paths|, i requires i >= 0 => i)
  {
    var output := new Option<SourceFile>[|paths|](_ => None);
    var nextIndex: nat := 0;
    var workers: seq<Worker> := seq(count, _ => AtTop);
    claims := [];
    while exists w :: 0 <= w < |workers| && !workers[w].Returned?
      invariant |workers| == count
      invariant Consistent(disk, paths, nextIndex, output[..], workers, claims)
      decreases 3 * (if nextIndex < |paths| then |paths| - nextIndex else 0) + Weight(workers)
    {
      var w :| 0 <= w < |workers| && !workers[w].Returned?;
      match workers[w] {
        case AtTop =>
          // One synchronous turn: claim an index, then skip, stop or start a read.
          var index := nextIndex;
          nextIndex := nextIndex + 1;
          var next := if index >= |paths| then Returned else if paths[index] == "" then AtTop else Reading(index);
          ClaimKeepsConsistent(disk, paths, index, output[..], workers, claims, w, next);
          WeightAfterStep(workers, w, next);
          workers := workers[w := next];
          if index < |paths| {
            claims := claims + [index];
          }
        case Reading(index) =>
          // The awaited read settles; a failed one leaves its slot empty.
          ReadKeepsConsistent(disk, paths, nextIndex, output[..], workers, claims, w);
          WeightAfterStep(workers, w, AtTop);
          var source := disk.read(paths[index]);
          ghost var slots := output[..];
          if source.Some? {
            output[index] := Some(SourceFile(disk.relative(paths[index]), source.value));
          }
          assert output[..] == slots[index := ReadOne(disk, paths[index])];
          workers := workers[w := AtTop];
      }
    }
    AllReturnedMeansDone(disk, paths, nextIndex, output[..], workers, claims);
    files := Present(output[..]);
  }

  method ReadRuntimeSourceFiles(disk: Disk, paths: seq<string>) returns (files: seq<SourceFile>)
    ensures files == ReadInOrder(disk, paths)
  {
    var wanted := if |paths| > 1 then |paths| else 1;
    ghost var claims;
    files, claims := RunWorkers(disk, paths, if wanted < FILE_READ_CONCURRENCY then wanted else FILE_READ_CONCURRENCY);
  }
}
