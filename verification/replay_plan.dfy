/** Which of a lineage's archived binlogs a restore replays, and in which runs. */
module ReplayPlan {
  import opened Common
  import opened BinlogNames

  /** A hole with files on its far side; nothing precedes it when the start file itself is absent. */
  datatype BinlogGap = BinlogGap(after: Option<Binlog>, nextPresent: Binlog)

  datatype BinlogReplayPlan = BinlogReplayPlan(run: seq<Binlog>, gap: Option<BinlogGap>)

  predicate Hole(prev: Binlog, next: Binlog) {
    match (prev.number, next.number)
    case (Some(p), Some(n)) => n != p + 1
    case _ => false
  }

  /** A hole right before the file at `k`. */
  predicate HoleAt(files: seq<Binlog>, k: nat)
    requires 0 < k < |files|
  {
    Hole(files[k - 1], files[k])
  }

  /** Where the gap-free run beginning at `i` ends. */
  function RunEnd(files: seq<Binlog>, i: nat): (j: nat)
    requires i < |files|
    ensures i < j <= |files|
    ensures forall k | i < k < j :: !HoleAt(files, k)
    ensures j < |files| ==> HoleAt(files, j)
    decreases |files| - i
  {
    if i + 1 == |files| || HoleAt(files, i + 1) then i + 1 else RunEnd(files, i + 1)
  }

  lemma RunEndIsTheFirstHole(files: seq<Binlog>, i: nat, j: nat)
    requires i < j <= |files|
    requires forall k | i < k < j :: !HoleAt(files, k)
    requires j < |files| ==> HoleAt(files, j)
    ensures RunEnd(files, i) == j
  {}

  function IndexOf(files: seq<Binlog>, name: Binlog): (r: Option<nat>)
    ensures r.Some? <==> name in files
    ensures r.Some? ==> r.value < |files| && files[r.value] == name && name !in files[..r.value]
  {
    if files == [] then None
    else if files[0] == name then Some(0)
    else
      match IndexOf(files[1..], name)
      case None => None
      case Some(k) =>
        assert files[..k + 1] == [files[0]] + files[1..][..k];
        Some(k + 1)
  }

  /** The first file past the start file's sequence, when the start file is not there. */
  function FirstPast(files: seq<Binlog>, startFile: Binlog): Option<Binlog> {
    match startFile.number
    case None => None
    case Some(q) => Find(files, (f: Binlog) => f.number.Some? && f.number.value > q)
  }

  function PlanOver(sorted: seq<Binlog>, startFile: Binlog): BinlogReplayPlan {
    match IndexOf(sorted, startFile)
    case None =>
      BinlogReplayPlan([],
        match FirstPast(sorted, startFile)
        case None => None
        case Some(next) => Some(BinlogGap(None, next)))
    case Some(i) =>
      var j := RunEnd(sorted, i);
      BinlogReplayPlan(sorted[i..j], if j == |sorted| then None else Some(BinlogGap(Some(sorted[j - 1]), sorted[j])))
  }

  function Plan(files: seq<Binlog>, startFile: Binlog): BinlogReplayPlan {
    PlanOver(Sorted(files), startFile)
  }

  /** The planning loop: extend the run file by file until a hole. */
  method BinlogsToReplay(files: seq<Binlog>, startFile: Binlog) returns (plan: BinlogReplayPlan)
    ensures plan == Plan(files, startFile)
  {
    var sorted := Sorted(files);
    var start := IndexOf(sorted, startFile);
    if start.None? {
      var next := FirstPast(sorted, startFile);
      return BinlogReplayPlan([], if next.None? then None else Some(BinlogGap(None, next.value)));
    }
    var i := start.value;
    var run: seq<Binlog> := [];
    var prevSeq: Option<nat> := None;
    var k := i;
    while k < |sorted|
      invariant i <= k <= |sorted|
      invariant run == sorted[i..k]
      invariant prevSeq == if k == i then None else sorted[k - 1].number
      invariant forall h | i < h < k :: !HoleAt(sorted, h)
    {
      var cur := sorted[k].number;
      if prevSeq.Some? && cur.Some? && cur.value != prevSeq.value + 1 {
        RunEndIsTheFirstHole(sorted, i, k);
        return BinlogReplayPlan(run, Some(BinlogGap(Some(run[|run| - 1]), sorted[k])));
      }
      run := run + [sorted[k]];
      prevSeq := cur;
      k := k + 1;
    }
    RunEndIsTheFirstHole(sorted, i, k);
    plan := BinlogReplayPlan(run, None);
  }

  /** The files from index `i` on, cut at every hole. */
  function RunsFrom(sorted: seq<Binlog>, i: nat): seq<seq<Binlog>>
    requires i <= |sorted|
    decreases |sorted| - i
  {
    if i == |sorted| then []
    else
      var j := RunEnd(sorted, i);
      [sorted[i..j]] + RunsFrom(sorted, j)
  }

  function RunsOver(sorted: seq<Binlog>, nextPresent: Binlog): seq<seq<Binlog>> {
    match IndexOf(sorted, nextPresent)
    case None => []
    case Some(i) => RunsFrom(sorted, i)
  }

  function RunsPastGap(files: seq<Binlog>, nextPresent: Binlog): seq<seq<Binlog>> {
    RunsOver(Sorted(files), nextPresent)
  }

  method BinlogRunsPastGap(files: seq<Binlog>, nextPresent: Binlog) returns (runs: seq<seq<Binlog>>)
    ensures runs == RunsPastGap(files, nextPresent)
  {
    var sorted := Sorted(files);
    var found := IndexOf(sorted, nextPresent);
    if found.None? {
      return [];
    }
    runs := CutAtHoles(sorted, found.value);
  }

  /** The loop that starts a new run at every further hole. */
  method CutAtHoles(sorted: seq<Binlog>, start: nat) returns (runs: seq<seq<Binlog>>)
    requires start < |sorted|
    ensures runs == RunsFrom(sorted, start)
  {
    runs := [[sorted[start]]];
    var prevSeq := sorted[start].number;
    var k := start + 1;
    ghost var c := start;
    assert sorted[start..k] == [sorted[start]];
    while k < |sorted|
      invariant start < k <= |sorted|
      invariant prevSeq == sorted[k - 1].number
      invariant CutSoFar(sorted, start, c, k, runs)
    {
      var seqNo := sorted[k].number;
      if prevSeq.Some? && seqNo.Some? && seqNo.value != prevSeq.value + 1 {
        CutHere(sorted, start, c, k, runs);
        runs := runs + [[sorted[k]]];
        c := k;
      } else {
        LastRunGrows(sorted, start, c, k, runs);
        runs := runs[|runs| - 1 := runs[|runs| - 1] + [sorted[k]]];
      }
      prevSeq := seqNo;
      k := k + 1;
    }
    CutsAreDone(sorted, start, c, k, runs);
  }

  lemma CutsAreDone(sorted: seq<Binlog>, start: nat, c: nat, k: nat, runs: seq<seq<Binlog>>)
    requires CutSoFar(sorted, start, c, k, runs) && k == |sorted|
    ensures runs == RunsFrom(sorted, start)
  {
    RunEndIsTheFirstHole(sorted, c, k);
    assert RunsFrom(sorted, c) == [sorted[c..k]];
  }

  /** The last run covers `c..k` without a hole; the ones before it are all up to `c`. */
  ghost predicate CutSoFar(sorted: seq<Binlog>, start: nat, c: nat, k: nat, runs: seq<seq<Binlog>>) {
    && start <= c < k <= |sorted|
    && runs != [] && runs[|runs| - 1] == sorted[c..k]
    && RunsFrom(sorted, start) == runs[..|runs| - 1] + RunsFrom(sorted, c)
    && forall h | c < h < k :: !HoleAt(sorted, h)
  }

  lemma CutHere(sorted: seq<Binlog>, start: nat, c: nat, k: nat, runs: seq<seq<Binlog>>)
    requires CutSoFar(sorted, start, c, k, runs) && k < |sorted| && HoleAt(sorted, k)
    ensures CutSoFar(sorted, start, k, k + 1, runs + [[sorted[k]]])
  {
    RunEndIsTheFirstHole(sorted, c, k);
    var runs' := runs + [[sorted[k]]];
    assert runs'[..|runs'| - 1] == runs == runs[..|runs| - 1] + [sorted[c..k]];
    assert sorted[k..k + 1] == [sorted[k]];
    assert RunsFrom(sorted, c) == [sorted[c..k]] + RunsFrom(sorted, k);
  }

  lemma LastRunGrows(sorted: seq<Binlog>, start: nat, c: nat, k: nat, runs: seq<seq<Binlog>>)
    requires CutSoFar(sorted, start, c, k, runs) && k < |sorted| && !HoleAt(sorted, k)
    ensures CutSoFar(sorted, start, c, k + 1, runs[|runs| - 1 := runs[|runs| - 1] + [sorted[k]]])
  {
    assert sorted[c..k + 1] == sorted[c..k] + [sorted[k]];
    var runs' := runs[|runs| - 1 := runs[|runs| - 1] + [sorted[k]]];
    assert runs'[..|runs'| - 1] == runs[..|runs| - 1];
  }

  // ----- the plan is an exact partition -----

  function Flatten(runs: seq<seq<Binlog>>): seq<Binlog> {
    if runs == [] then [] else runs[0] + Flatten(runs[1..])
  }

  /** Consecutive sequence numbers, counting up from the first. */
  predicate Consecutive(run: seq<Binlog>) {
    && run != []
    && forall k | 0 <= k < |run| ::
         run[0].number.Some? && run[k].number == Some(run[0].number.value + k)
  }

  /** Every run is consecutive, and a real hole separates it from the run before. */
  predicate SplitAtHoles(before: Binlog, runs: seq<seq<Binlog>>)
    decreases |runs|
  {
    runs == [] || (Consecutive(runs[0]) && Hole(before, runs[0][0]) && SplitAtHoles(runs[0][|runs[0]| - 1], runs[1..]))
  }

  lemma {:induction false} GapFreeIsConsecutive(sorted: seq<Binlog>, i: nat, j: nat)
    requires Ascending(sorted) && i < j <= |sorted|
    requires forall k | i < k < j :: !HoleAt(sorted, k)
    ensures Consecutive(sorted[i..j])
  {
    if j > i + 1 {
      GapFreeIsConsecutive(sorted, i, j - 1);
      assert sorted[i..j] == sorted[i..j - 1] + [sorted[j - 1]];
      assert !HoleAt(sorted, j - 1) && sorted[j - 2] == sorted[i..j - 1][j - 2 - i];
    }
  }

  lemma FirstRun(sorted: seq<Binlog>, i: nat)
    requires i < |sorted|
    ensures var j := RunEnd(sorted, i);
      RunsFrom(sorted, i) != [] && RunsFrom(sorted, i)[0] == sorted[i..j]
        && RunsFrom(sorted, i)[1..] == RunsFrom(sorted, j)
  {}

  lemma {:induction false} RunsFlatten(sorted: seq<Binlog>, i: nat)
    requires i <= |sorted|
    ensures Flatten(RunsFrom(sorted, i)) == sorted[i..]
    decreases |sorted| - i
  {
    if i < |sorted| {
      FirstRun(sorted, i);
      RunsFlatten(sorted, RunEnd(sorted, i));
    }
  }

  lemma SplitAtTheFirst(before: Binlog, runs: seq<seq<Binlog>>)
    requires runs != [] && Consecutive(runs[0]) && Hole(before, runs[0][0])
    requires SplitAtHoles(runs[0][|runs[0]| - 1], runs[1..])
    ensures SplitAtHoles(before, runs)
  {}

  /** The run from `i` is consecutive, from the file at `i` to the one before its end. */
  lemma RunFrom(sorted: seq<Binlog>, i: nat, j: nat)
    requires Ascending(sorted) && i < |sorted| && j == RunEnd(sorted, i)
    ensures Consecutive(sorted[i..j])
    ensures sorted[i..j][0] == sorted[i] && sorted[i..j][j - i - 1] == sorted[j - 1]
  {
    GapFreeIsConsecutive(sorted, i, j);
  }

  lemma {:induction false} RunsSplitAtHoles(sorted: seq<Binlog>, i: nat)
    requires Ascending(sorted) && 0 < i < |sorted| && HoleAt(sorted, i)
    ensures SplitAtHoles(sorted[i - 1], RunsFrom(sorted, i))
    decreases |sorted| - i
  {
    var j := RunEnd(sorted, i);
    FirstRun(sorted, i);
    RunFrom(sorted, i, j);
    if j < |sorted| {
      RunsSplitAtHoles(sorted, j);
    }
    SplitAtTheFirst(sorted[i - 1], RunsFrom(sorted, i));
  }

  lemma {:induction false} EveryRunIsConsecutive(sorted: seq<Binlog>, i: nat)
    requires Ascending(sorted) && i <= |sorted|
    ensures forall run | run in RunsFrom(sorted, i) :: Consecutive(run)
    decreases |sorted| - i
  {
    if i < |sorted| {
      var j := RunEnd(sorted, i);
      GapFreeIsConsecutive(sorted, i, j);
      EveryRunIsConsecutive(sorted, j);
    }
  }

  lemma RunsPastGapAreConsecutive(files: seq<Binlog>, nextPresent: Binlog)
    requires WellNamed(files)
    ensures forall run | run in RunsPastGap(files, nextPresent) :: Consecutive(run)
  {
    SortedAscends(files);
    match IndexOf(Sorted(files), nextPresent)
    case None =>
    case Some(i) => EveryRunIsConsecutive(Sorted(files), i);
  }

  /** What the plan and the runs past its gap replay, in order. */
  function Replayed(files: seq<Binlog>, startFile: Binlog): seq<Binlog> {
    ReplayedOver(Sorted(files), startFile)
  }

  function ReplayedOver(sorted: seq<Binlog>, startFile: Binlog): seq<Binlog> {
    var plan := PlanOver(sorted, startFile);
    plan.run + (if plan.gap.None? then [] else Flatten(RunsOver(sorted, plan.gap.value.nextPresent)))
  }

  lemma IndexOfInAscending(sorted: seq<Binlog>, i: nat)
    requires Ascending(sorted) && i < |sorted|
    ensures IndexOf(sorted, sorted[i]) == Some(i)
  {
    var k := IndexOf(sorted, sorted[i]).value;
    assert forall h | 0 <= h < k :: sorted[h] in sorted[..k];
  }

  predicate IsFirstPast(sorted: seq<Binlog>, i: nat, next: Binlog, startFile: Binlog)
    requires Ascending(sorted) && startFile.number.Some? && i < |sorted|
  {
    && sorted[i] == next
    && next.number.value > startFile.number.value
    && forall k | 0 <= k < i :: sorted[k].number.value <= startFile.number.value
  }

  lemma {:induction false} FirstPastInAscending(sorted: seq<Binlog>, startFile: Binlog)
    requires Ascending(sorted) && startFile.number.Some?
    ensures match FirstPast(sorted, startFile)
      case None => forall f | f in sorted :: f.number.value <= startFile.number.value
      case Some(next) => exists i :: 0 <= i < |sorted| && IsFirstPast(sorted, i, next, startFile)
  {
    if sorted != [] {
      assert forall k | 0 <= k < |sorted[1..]| :: sorted[1..][k] == sorted[k + 1];
      FirstPastInAscending(sorted[1..], startFile);
      if !(sorted[0].number.value > startFile.number.value) {
        match FirstPast(sorted[1..], startFile)
        case None =>
        case Some(next) =>
          var i :| 0 <= i < |sorted[1..]| && IsFirstPast(sorted[1..], i, next, startFile);
          forall k | 0 <= k < i + 1
            ensures sorted[k].number.value <= startFile.number.value
          {
            if k > 0 { assert sorted[1..][k - 1] == sorted[k]; }
          }
          assert IsFirstPast(sorted, i + 1, next, startFile);
      } else {
        assert IsFirstPast(sorted, 0, sorted[0], startFile);
      }
    }
  }

  lemma SuffixElements(sorted: seq<Binlog>, i: nat)
    requires Ascending(sorted) && i < |sorted|
    ensures Ascending(sorted[i..])
    ensures forall f :: f in sorted[i..] <==> f in sorted && f.number.value >= sorted[i].number.value
  {
    forall f | f in sorted && f.number.value >= sorted[i].number.value
      ensures f in sorted[i..]
    {
      var k :| 0 <= k < |sorted| && sorted[k] == f;
      assert k >= i && sorted[i..][k - i] == f;
    }
    forall f | f in sorted[i..]
      ensures f in sorted && f.number.value >= sorted[i].number.value
    {
      var k :| 0 <= k < |sorted[i..]| && sorted[i..][k] == f;
      assert sorted[i + k] == f;
    }
  }

  /** Planning over files already in order, from the one at index `i`. */
  lemma PlanInOrder(sorted: seq<Binlog>, i: nat, j: nat)
    requires Ascending(sorted) && i < |sorted| && j == RunEnd(sorted, i)
    ensures PlanOver(sorted, sorted[i]).run == sorted[i..j]
    ensures j == |sorted| ==> PlanOver(sorted, sorted[i]).gap == None
    ensures j < |sorted| ==> PlanOver(sorted, sorted[i]).gap == Some(BinlogGap(Some(sorted[j - 1]), sorted[j]))
  {
    IndexOfInAscending(sorted, i);
  }

  lemma {:induction false} RunInOrder(sorted: seq<Binlog>, i: nat, j: nat)
    requires Ascending(sorted) && i < |sorted| && j == RunEnd(sorted, i)
    ensures Consecutive(sorted[i..j])
    ensures sorted[j - 1].number.value == sorted[i].number.value + (j - i) - 1
    ensures j < |sorted| ==> sorted[j].number.value > sorted[j - 1].number.value + 1
  {
    GapFreeIsConsecutive(sorted, i, j);
    assert sorted[i..j][j - 1 - i] == sorted[j - 1];
  }

  lemma RestInOrder(sorted: seq<Binlog>, i: nat, j: nat)
    requires Ascending(sorted) && i < j < |sorted| && HoleAt(sorted, j)
    ensures IndexOf(sorted, sorted[j]) == Some(j)
    ensures SplitAtHoles(sorted[j - 1], RunsFrom(sorted, j))
    ensures Flatten(RunsFrom(sorted, j)) == sorted[j..]
  {
    IndexOfInAscending(sorted, j);
    RunsSplitAtHoles(sorted, j);
    RunsFlatten(sorted, j);
  }

  lemma CutInTwo<T>(s: seq<T>, i: nat, j: nat)
    requires i <= j <= |s|
    ensures s[i..] == s[i..j] + s[j..]
  {}

  /** What replays is the files from the start on, in order. */
  lemma ReplayedIsASuffix(sorted: seq<Binlog>, i: nat)
    requires Ascending(sorted) && i < |sorted|
    ensures ReplayedOver(sorted, sorted[i]) == sorted[i..]
  {
    var j := RunEnd(sorted, i);
    PlanInOrder(sorted, i, j);
    if j < |sorted| {
      RestInOrder(sorted, i, j);
      CutInTwo(sorted, i, j);
    }
  }

  /** With the start file present: the run is the maximal consecutive sequence from it, and a
      gap is reported exactly when a later file exists past the run. */
  lemma RunIsMaximal(files: seq<Binlog>, startFile: Binlog)
    requires WellNamed(files) && startFile in files
    ensures var plan := Plan(files, startFile);
      && Consecutive(plan.run) && plan.run[0] == startFile
      && (forall f | f in files :: f.number.value != startFile.number.value + |plan.run|)
      && (plan.gap.Some? <==> exists f :: f in files && f.number.value > startFile.number.value + |plan.run|)
  {
    var sorted := Sorted(files);
    SortedAscends(files);
    SameElements(sorted, files);
    var i := IndexOf(sorted, startFile).value;
    var j := RunEnd(sorted, i);
    PlanInOrder(sorted, i, j);
    RunInOrder(sorted, i, j);
    forall f | f in files
      ensures f.number.value != startFile.number.value + (j - i)
      ensures f.number.value > startFile.number.value + (j - i) ==> j < |sorted|
    {
      var k :| 0 <= k < |sorted| && sorted[k] == f;
    }
    assert j < |sorted| ==> sorted[j] in files;
  }

  lemma GapSplitsTheRest(sorted: seq<Binlog>, i: nat)
    requires Ascending(sorted) && i < |sorted|
    ensures var plan := PlanOver(sorted, sorted[i]);
      plan.gap.Some? ==>
        && plan.run != [] && plan.gap.value.after == Some(plan.run[|plan.run| - 1])
        && SplitAtHoles(plan.run[|plan.run| - 1], RunsOver(sorted, plan.gap.value.nextPresent))
  {
    var j := RunEnd(sorted, i);
    PlanInOrder(sorted, i, j);
    if j < |sorted| {
      RestInOrder(sorted, i, j);
      assert sorted[i..j][j - 1 - i] == sorted[j - 1];
    }
  }

  lemma GapIsSplit(files: seq<Binlog>, startFile: Binlog, i: nat)
    requires WellNamed(files) && IndexOf(Sorted(files), startFile) == Some(i)
    ensures var plan := Plan(files, startFile);
      plan.gap.Some? ==>
        && plan.run != [] && plan.gap.value.after == Some(plan.run[|plan.run| - 1])
        && SplitAtHoles(plan.run[|plan.run| - 1], RunsPastGap(files, plan.gap.value.nextPresent))
  {
    SortedAscends(files);
    GapSplitsTheRest(Sorted(files), i);
  }

  lemma ReplayedFromTheStart(files: seq<Binlog>, startFile: Binlog, i: nat)
    requires WellNamed(files) && IndexOf(Sorted(files), startFile) == Some(i)
    ensures Ascending(Sorted(files)) && Sorted(files)[i] == startFile
    ensures Replayed(files, startFile) == Sorted(files)[i..]
  {
    SortedAscends(files);
    ReplayedIsASuffix(Sorted(files), i);
  }

  lemma RunIsListed(files: seq<Binlog>, startFile: Binlog)
    requires WellNamed(files) && startFile in files
    ensures forall k | 0 <= k < |Plan(files, startFile).run| :: Plan(files, startFile).run[k] in files
  {
    ReplayIsAnExactPartition(files, startFile);
    var run := Plan(files, startFile).run;
    assert forall k | 0 <= k < |run| :: run[k] in Replayed(files, startFile);
  }

  /** As many files as mysqld writes one after another, under one basename, from the one numbered `first`. */
  function NamedFrom(base: string, first: nat, width: nat, count: nat): (files: seq<Binlog>)
    ensures |files| == count
    ensures forall k | 0 <= k < count :: files[k] == FromName(NumberedName(base, first + k, width))
  {
    seq(count, k requires 0 <= k < count => FromName(NumberedName(base, first + k, width)))
  }

  predicate NumberedFrom(files: seq<Binlog>, first: nat) {
    files != [] && forall k | 0 <= k < |files| :: files[k].number == Some(first + k)
  }

  lemma NumberedWithin(files: seq<Binlog>, first: nat)
    requires NumberedFrom(files, first)
    ensures WellNamed(files) && files[0] in files
    ensures forall f | f in files :: f.number.Some? && f.number.value < first + |files|
  {}

  lemma IsListed(files: seq<Binlog>, first: nat, k: nat)
    requires NumberedFrom(files, first) && k < |files|
    ensures files[k] in files && files[k].number == Some(first + k)
  {}

  lemma ConsecutiveRunIsWhole(files: seq<Binlog>, first: nat, run: seq<Binlog>)
    requires NumberedFrom(files, first) && Consecutive(run) && run[0] == files[0]
    requires forall k | 0 <= k < |run| :: run[k] in files
    requires forall f | f in files :: f.number != Some(first + |run|)
    ensures |run| == |files| && NumberedFrom(run, first)
  {
    NumberedWithin(files, first);
    var last := run[|run| - 1];
    assert last in files && last.number == Some(first + |run| - 1);
    if |run| < |files| { IsListed(files, first, |run|); }
  }

  /** Consecutive names leave no gap: from the first of them they all replay, as one run. */
  lemma ConsecutiveNamesPlanWhole(base: string, first: nat, width: nat, count: nat)
    requires 0 < width && 0 < count && first + count <= Power10(width) && first + count <= 0x1_0000_0000_0000_0000
    ensures var files := NamedFrom(base, first, width, count);
      && Plan(files, files[0]).gap == None
      && |Plan(files, files[0]).run| == count && NumberedFrom(Plan(files, files[0]).run, first)
  {
    var files := NamedFrom(base, first, width, count);
    forall k | 0 <= k < count
      ensures files[k].number == Some(first + k)
    {
      PaddedNamesParse(base, first + k, width);
    }
    ConsecutivePlanIsWhole(files, first);
  }

  lemma ConsecutivePlanIsWhole(files: seq<Binlog>, first: nat)
    requires NumberedFrom(files, first)
    ensures Plan(files, files[0]).gap == None
    ensures |Plan(files, files[0]).run| == |files| && NumberedFrom(Plan(files, files[0]).run, first)
  {
    NumberedWithin(files, first);
    RunIsListed(files, files[0]);
    RunIsMaximal(files, files[0]);
    ConsecutiveRunIsWhole(files, first, Plan(files, files[0]).run);
  }

  /** The run followed by the runs past the gap is every file at or after the start, once and in
      order, and the runs past the gap are split at real holes. */
  lemma ReplayIsAnExactPartition(files: seq<Binlog>, startFile: Binlog)
    requires WellNamed(files) && startFile in files
    ensures Ascending(Replayed(files, startFile))
    ensures forall f :: f in Replayed(files, startFile) <==> f in files && f.number.value >= startFile.number.value
    ensures var plan := Plan(files, startFile);
      plan.gap.Some? ==>
        && plan.run != [] && plan.gap.value.after == Some(plan.run[|plan.run| - 1])
        && SplitAtHoles(plan.run[|plan.run| - 1], RunsPastGap(files, plan.gap.value.nextPresent))
  {
    SortedAscends(files);
    SameElements(Sorted(files), files);
    var i := IndexOf(Sorted(files), startFile).value;
    ReplayedFromTheStart(files, startFile, i);
    SuffixElements(Sorted(files), i);
    GapIsSplit(files, startFile, i);
  }

  /** With the start file absent nothing replays as the plan's run; the files past it still do,
      as later runs, and the gap is reported exactly when there are any. */
  lemma ReplayWithoutTheStartFile(files: seq<Binlog>, startFile: Binlog)
    requires WellNamed(files) && startFile !in files && startFile.number.Some?
    ensures var plan := Plan(files, startFile);
      && plan.run == []
      && (plan.gap.Some? <==> exists f :: f in files && f.number.value > startFile.number.value)
    ensures Ascending(Replayed(files, startFile))
    ensures forall f :: f in Replayed(files, startFile) <==> f in files && f.number.value > startFile.number.value
  {
    var sorted := Sorted(files);
    SortedAscends(files);
    SameElements(sorted, files);
    ReplayOverWithoutTheStart(sorted, startFile);
  }

  lemma ReplayOverWithoutTheStart(sorted: seq<Binlog>, startFile: Binlog)
    requires Ascending(sorted) && startFile !in sorted && startFile.number.Some?
    ensures PlanOver(sorted, startFile).run == []
    ensures PlanOver(sorted, startFile).gap.Some? <==>
      exists f :: f in sorted && f.number.value > startFile.number.value
    ensures Ascending(ReplayedOver(sorted, startFile))
    ensures forall f :: f in ReplayedOver(sorted, startFile) <==> f in sorted && f.number.value > startFile.number.value
  {
    FirstPastInAscending(sorted, startFile);
    if FirstPast(sorted, startFile).Some? {
      var i :| 0 <= i < |sorted| && IsFirstPast(sorted, i, FirstPast(sorted, startFile).value, startFile);
      PastTheStart(sorted, i, startFile);
      ReplayedFromFirstPast(sorted, i, startFile);
    }
  }

  lemma ReplayedFromFirstPast(sorted: seq<Binlog>, i: nat, startFile: Binlog)
    requires Ascending(sorted) && startFile !in sorted && i < |sorted|
    requires FirstPast(sorted, startFile) == Some(sorted[i])
    ensures ReplayedOver(sorted, startFile) == sorted[i..]
  {
    IndexOfInAscending(sorted, i);
    RunsFlatten(sorted, i);
  }

  lemma PastTheStart(sorted: seq<Binlog>, i: nat, startFile: Binlog)
    requires Ascending(sorted) && startFile.number.Some? && i < |sorted|
    requires IsFirstPast(sorted, i, sorted[i], startFile)
    ensures Ascending(sorted[i..])
    ensures forall f :: f in sorted[i..] <==> f in sorted && f.number.value > startFile.number.value
  {
    SuffixElements(sorted, i);
    forall f | f in sorted && f.number.value > startFile.number.value
      ensures f in sorted[i..]
    {
      var k :| 0 <= k < |sorted| && sorted[k] == f;
    }
  }

  lemma ReplayedWithStart(files: seq<Binlog>, start: Binlog, b: Binlog)
    requires WellNamed(files) && start.number.Some? && b.number.Some? && start in files
    ensures b in Replayed(files, start) <==> b in files && b.number.value >= start.number.value
  {
    ReplayIsAnExactPartition(files, start);
  }

  lemma ReplayedWithoutStart(files: seq<Binlog>, start: Binlog, b: Binlog)
    requires WellNamed(files) && start.number.Some? && b.number.Some? && start !in files
    ensures b in Replayed(files, start) <==> b in files && b.number.value > start.number.value
  {
    ReplayWithoutTheStartFile(files, start);
  }

  /** What replays is every file at or past the start. */
  lemma ReplayedFiles(files: seq<Binlog>, start: Binlog, b: Binlog)
    requires WellNamed(files) && start.number.Some? && b.number.Some?
    requires b.number == start.number ==> b == start
    ensures b in Replayed(files, start) <==> b in files && b.number.value >= start.number.value
  {
    if start in files {
      ReplayedWithStart(files, start, b);
    } else {
      ReplayedWithoutStart(files, start, b);
    }
  }

  // ----- what the plan depends on -----

  lemma {:induction false} RunEndShifts(sorted: seq<Binlog>, d: nat, i: nat)
    requires d <= i < |sorted|
    ensures RunEnd(sorted, i) == d + RunEnd(sorted[d..], i - d)
    decreases |sorted| - i
  {
    if i + 1 < |sorted| && !HoleAt(sorted, i + 1) {
      RunEndShifts(sorted, d, i + 1);
    }
  }

  /** Planning from the file at `i` looks at nothing before it. */
  lemma PlanLooksOnlyForward(sorted: seq<Binlog>, i: nat)
    requires Ascending(sorted) && i < |sorted|
    ensures PlanOver(sorted, sorted[i]) == PlanOver(sorted[i..], sorted[i])
  {
    var rest := sorted[i..];
    SuffixElements(sorted, i);
    RunEndShifts(sorted, i, i);
    var j := RunEnd(sorted, i);
    PlanInOrder(sorted, i, j);
    PlanInOrder(rest, 0, j - i);
    assert rest[..j - i] == sorted[i..j] && rest[j - i - 1] == sorted[j - 1];
  }

  /** The plan from a start file depends only on the files at or after it: removing any files
      with smaller sequence numbers changes neither the run, nor the gap, nor what replays. */
  lemma PlanIgnoresEarlierFiles(files: seq<Binlog>, fewer: seq<Binlog>, startFile: Binlog)
    requires WellNamed(files) && WellNamed(fewer) && startFile.number.Some?
    requires forall f | f in fewer :: f in files
    requires forall f | f in files && f.number.value >= startFile.number.value :: f in fewer
    ensures Plan(fewer, startFile) == Plan(files, startFile)
    ensures Replayed(fewer, startFile) == Replayed(files, startFile)
  {
    var s, t := Sorted(files), Sorted(fewer);
    SortedAscends(files);
    SortedAscends(fewer);
    SameElements(s, files);
    SameElements(t, fewer);
    if startFile in files {
      var i, k := IndexOf(s, startFile).value, IndexOf(t, startFile).value;
      SuffixElements(s, i);
      SuffixElements(t, k);
      AscendingIsUnique(s[i..], t[k..]);
      PlanLooksOnlyForward(s, i);
      PlanLooksOnlyForward(t, k);
      ReplayedIsASuffix(s, i);
      ReplayedIsASuffix(t, k);
    } else {
      FirstPastInAscending(s, startFile);
      FirstPastInAscending(t, startFile);
      ReplayWithoutTheStartFile(files, startFile);
      ReplayWithoutTheStartFile(fewer, startFile);
      AscendingIsUnique(Replayed(files, startFile), Replayed(fewer, startFile));
      SameFirstPast(s, t, startFile);
    }
  }

  lemma SameFirstPast(s: seq<Binlog>, t: seq<Binlog>, startFile: Binlog)
    requires Ascending(s) && Ascending(t) && startFile.number.Some?
    requires forall f: Binlog :: f.number.Some? && f.number.value > startFile.number.value ==> (f in s <==> f in t)
    ensures FirstPast(s, startFile) == FirstPast(t, startFile)
  {
    FirstPastInAscending(s, startFile);
    FirstPastInAscending(t, startFile);
    if FirstPast(s, startFile).Some? && FirstPast(t, startFile).Some? {
      var i :| 0 <= i < |s| && IsFirstPast(s, i, FirstPast(s, startFile).value, startFile);
      var k :| 0 <= k < |t| && IsFirstPast(t, k, FirstPast(t, startFile).value, startFile);
      assert s[i] in t && t[k] in s;
    }
  }
}
