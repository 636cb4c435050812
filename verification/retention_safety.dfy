/** What a retention sweep leaves of the restores of independent lineages. */
module RetentionSafety {
  import opened Common
  import opened BinlogNames
  import opened ReplayPlan
  import opened Archive
  import opened Retention

  // ----- what any part of a sweep leaves -----

  predicate IsGone(f: FullBackup, keys: set<Object>) {
    Dump(f.dumpKey) in keys || Meta(f.dumpKey) in keys
  }

  function MetaKeys(fulls: seq<FullBackup>): set<Object> {
    set f | f in fulls :: Meta(f.dumpKey)
  }

  /** A dump left behind when only the meta beside it was deleted: the next listing shows an orphan. */
  predicate LeftBehind(o: (string, int), fulls: seq<FullBackup>, keys: set<Object>) {
    Dump(o.0) !in keys && exists f :: f in fulls && f.dumpKey == o.0 && Meta(f.dumpKey) in keys
  }

  /** `after` lists what is left of a lineage once these objects are deleted, in any order: a full
      is whole only with both its objects, and a meta deleted is a meta no longer seen. */
  ghost predicate LeftOf(l: Lineage, keys: set<Object>, files: set<(string, Binlog)>, after: Lineage) {
    && after.serverUuid == l.serverUuid
    && (forall f :: f in after.fulls <==> f in l.fulls && !IsGone(f, keys))
    && (forall b :: b in after.binlogs <==> b in l.binlogs && (l.serverUuid, b) !in files)
    && (forall o | o in after.orphanDumps ::
          (o in l.orphanDumps && Dump(o.0) !in keys) || LeftBehind(o, l.fulls, keys))
    && after.fullObjectsSeen == l.fullObjectsSeen - |MetaKeys(l.fulls) * keys|
    && NoTwice(after.fulls) && NoTwice(after.binlogs)
  }

  /** Nothing is gone but what the lineage's fate drops. */
  ghost predicate TakesOnlyTheDropped(l: Lineage, after: Lineage, fate: Fate) {
    && (forall f | f in after.fulls :: f in l.fulls)
    && (forall b | b in after.binlogs :: b in l.binlogs)
    && (forall f | f in l.fulls :: f in after.fulls || DropsFull(fate, f))
    && (forall b | b in l.binlogs :: b in after.binlogs || DropsBinlog(fate, b))
  }

  /** Everything the lineage's fate drops is gone. */
  ghost predicate TakesAllTheDropped(l: Lineage, after: Lineage, fate: Fate) {
    && (forall f | f in after.fulls :: !DropsFull(fate, f))
    && (forall b | b in after.binlogs :: !DropsBinlog(fate, b))
  }

  lemma FullOutlivesSweep(ls: seq<Lineage>, fates: Lineage -> Fate, now: int, plan: RetentionPlan,
      l: Lineage, keys: set<Object>, f: FullBackup)
    requires plan == PlanLineages(ls, fates, now)
    requires WellKeyed(ls) && l in ls && f in l.fulls && keys <= PlannedKeys(plan)
    ensures IsGone(f, keys) ==> DropsFull(fates(l), f)
    ensures keys == PlannedKeys(plan) && DropsFull(fates(l), f) ==> IsGone(f, keys)
  {
    FullIsPlanned(ls, fates, now, l, f, Dump(f.dumpKey));
    FullIsPlanned(ls, fates, now, l, f, Meta(f.dumpKey));
  }

  lemma BinlogOutlivesSweep(ls: seq<Lineage>, fates: Lineage -> Fate, now: int, plan: RetentionPlan,
      l: Lineage, files: set<(string, Binlog)>, b: Binlog)
    requires plan == PlanLineages(ls, fates, now)
    requires WellKeyed(ls) && l in ls && b in l.binlogs && files <= PlannedFiles(plan)
    ensures (l.serverUuid, b) in files ==> DropsBinlog(fates(l), b)
    ensures files == PlannedFiles(plan) && DropsBinlog(fates(l), b) ==> (l.serverUuid, b) in files
  {
    BinlogIsPlanned(ls, fates, now, l, b);
  }

  /** Deleting any part of what the plan names takes from each lineage only what its own fate
      drops; deleting all of it takes all of that. */
  lemma SweepFollowsTheFate(ls: seq<Lineage>, fates: Lineage -> Fate, now: int, plan: RetentionPlan,
      l: Lineage, keys: set<Object>, files: set<(string, Binlog)>, after: Lineage)
    requires plan == PlanLineages(ls, fates, now)
    requires WellKeyed(ls) && l in ls && keys <= PlannedKeys(plan) && files <= PlannedFiles(plan)
    requires LeftOf(l, keys, files, after)
    ensures TakesOnlyTheDropped(l, after, fates(l))
    ensures keys == PlannedKeys(plan) && files == PlannedFiles(plan) ==> TakesAllTheDropped(l, after, fates(l))
  {
    forall f | f in l.fulls
      ensures IsGone(f, keys) ==> DropsFull(fates(l), f)
      ensures keys == PlannedKeys(plan) && DropsFull(fates(l), f) ==> IsGone(f, keys)
    {
      FullOutlivesSweep(ls, fates, now, plan, l, keys, f);
    }
    forall b | b in l.binlogs
      ensures (l.serverUuid, b) in files ==> DropsBinlog(fates(l), b)
      ensures files == PlannedFiles(plan) && DropsBinlog(fates(l), b) ==> (l.serverUuid, b) in files
    {
      BinlogOutlivesSweep(ls, fates, now, plan, l, files, b);
    }
  }

  // ----- what a restore still finds in one lineage -----

  /** What naming, clocks and coordinates promise within a lineage: instants differ, a later full
      starts no earlier in the binlogs, names parse, one number is one file. */
  ghost predicate Orderly(fulls: seq<FullBackup>, binlogs: seq<Binlog>) {
    && DistinctTimes(fulls)
    && WellNamed(binlogs)
    && (forall f | f in fulls :: f.coordinate.number.Some?)
    && (forall f, g {:trigger f in fulls, g in fulls} | f in fulls && g in fulls && f.takenAt < g.takenAt ::
          f.coordinate.number.value <= g.coordinate.number.value)
    && (forall f, b {:trigger f in fulls, b in binlogs} |
          f in fulls && b in binlogs && b.number == f.coordinate.number ::
          b == f.coordinate)
  }

  /** What the horizon keeps of a lineage that is neither untouched nor retired. */
  predicate TrimmedTo(fate: Fate, fulls: seq<FullBackup>, cutoff: int) {
    fate.Trimmed? && fulls != []
      && (fate.kept == FullsToKeep(fulls, cutoff, 1) || fate.kept == FullsToKeep(fulls, cutoff, MIN_ACTIVE_FULLS_KEPT))
  }

  lemma TrimmedSelection(fulls: seq<FullBackup>, after: seq<FullBackup>, fate: Fate, cutoff: int,
      target: int)
    requires TrimmedTo(fate, fulls, cutoff) && target >= cutoff && DistinctTimes(fulls)
    requires forall f | f in after :: f in fulls
    requires forall f | f in fulls :: f in after || DropsFull(fate, f)
    ensures NewestQualifying(after, target) == NewestQualifying(fulls, target)
  {
    var minKept := if fate.kept == FullsToKeep(fulls, cutoff, 1) then 1 else MIN_ACTIVE_FULLS_KEPT;
    KeptAreNewest(fulls, cutoff, minKept);
    assert forall f | f in fate.kept :: f in fulls && !DropsFull(fate, f);
    SelectionSurvives(fulls, after, cutoff, minKept, target);
  }

  lemma FloorQualifies(fulls: seq<FullBackup>, kept: seq<FullBackup>, target: int, f: FullBackup)
    requires kept != [] && kept[|kept| - 1] in fulls && kept[|kept| - 1].takenAt <= target
    requires NewestQualifying(fulls, target) == Some(f)
    ensures f.takenAt >= kept[|kept| - 1].takenAt
  {
    assert FloorToMillis(kept[|kept| - 1].takenAt) <= target;
  }

  lemma LastIsNoNewer(kept: seq<FullBackup>, f: FullBackup)
    requires Descending(kept) && f in kept
    ensures f.takenAt >= kept[|kept| - 1].takenAt
  {}

  lemma TrimmedKept(fulls: seq<FullBackup>, fate: Fate, cutoff: int)
    requires TrimmedTo(fate, fulls, cutoff)
    ensures fate.kept != [] && Descending(fate.kept)
    ensures forall f | f in fate.kept :: f in fulls
  {
    KeptAreNewest(fulls, cutoff, 1);
    KeptAreNewest(fulls, cutoff, MIN_ACTIVE_FULLS_KEPT);
  }

  lemma LeftOutOfTrim(fulls: seq<FullBackup>, fate: Fate, cutoff: int, f: FullBackup)
    requires TrimmedTo(fate, fulls, cutoff) && f in fulls && f !in fate.kept
    ensures fate.kept != [] && f.takenAt <= fate.kept[|fate.kept| - 1].takenAt <= cutoff
  {
    if fate.kept == FullsToKeep(fulls, cutoff, 1) {
      LeftOutIsCovered(fulls, cutoff, 1, f);
    } else {
      LeftOutIsCovered(fulls, cutoff, MIN_ACTIVE_FULLS_KEPT, f);
    }
  }

  /** Every full that can be selected inside the window is at least as new as the floor. */
  lemma SelectedIsNotBelowTheFloor(fulls: seq<FullBackup>, fate: Fate, cutoff: int, target: int,
      f: FullBackup)
    requires TrimmedTo(fate, fulls, cutoff) && target >= cutoff
    requires NewestQualifying(fulls, target) == Some(f)
    ensures fate.kept != [] && f.takenAt >= fate.kept[|fate.kept| - 1].takenAt
  {
    TrimmedKept(fulls, fate, cutoff);
    if f in fate.kept {
      LastIsNoNewer(fate.kept, f);
    } else {
      LeftOutOfTrim(fulls, fate, cutoff, f);
      FloorQualifies(fulls, fate.kept, target, f);
    }
  }

  /** Nothing the fate drops lies at or past this full's coordinate. */
  ghost predicate ReplayIsSafe(fate: Fate, l: Lineage, f: FullBackup)
    requires f.coordinate.number.Some?
  {
    forall b | b in l.binlogs && DropsBinlog(fate, b) && b.number.Some? :: b.number.value < f.coordinate.number.value
  }

  lemma SafeReplaySurvives(l: Lineage, after: Lineage, fate: Fate, f: FullBackup)
    requires TakesOnlyTheDropped(l, after, fate)
    requires WellNamed(l.binlogs) && WellNamed(after.binlogs) && f.coordinate.number.Some?
    requires ReplayIsSafe(fate, l, f)
    ensures Plan(after.binlogs, f.coordinate) == Plan(l.binlogs, f.coordinate)
    ensures Replayed(after.binlogs, f.coordinate) == Replayed(l.binlogs, f.coordinate)
  {
    assert forall b | b in l.binlogs :: b.number.Some?;
    PlanIgnoresEarlierFiles(l.binlogs, after.binlogs, f.coordinate);
  }

  lemma UnsafeReplayIsLost(l: Lineage, after: Lineage, fate: Fate, f: FullBackup)
    requires TakesAllTheDropped(l, after, fate)
    requires WellNamed(l.binlogs) && WellNamed(after.binlogs) && f.coordinate.number.Some?
    requires forall b | b in l.binlogs && b.number == f.coordinate.number :: b == f.coordinate
    requires !ReplayIsSafe(fate, l, f)
    ensures Replayed(after.binlogs, f.coordinate) != Replayed(l.binlogs, f.coordinate)
  {
    var b :| b in l.binlogs && DropsBinlog(fate, b) && b.number.Some? && b.number.value >= f.coordinate.number.value;
    assert b !in after.binlogs;
    ReplayedFiles(l.binlogs, f.coordinate, b);
    ReplayedFiles(after.binlogs, f.coordinate, b);
  }

  lemma NotBelowTheFloorIsSafe(l: Lineage, fate: Fate, fulls: seq<FullBackup>, f: FullBackup)
    requires Orderly(fulls, l.binlogs) && f in fulls
    requires fate.Trimmed? && fate.kept != [] && fate.kept[|fate.kept| - 1] in fulls
    requires f.takenAt >= fate.kept[|fate.kept| - 1].takenAt
    ensures ReplayIsSafe(fate, l, f)
  {
    var floor := fate.kept[|fate.kept| - 1];
    assert floor.coordinate.number.value <= f.coordinate.number.value;
  }

  predicate BelowCoordinate(b: Binlog, f: FullBackup) {
    b.number.Some? && f.coordinate.number.Some? && b.number.value < f.coordinate.number.value
  }

  /** A trimmed lineage loses exactly the binlogs below the coordinate of every full it keeps. */
  lemma TrimmedBinlogsExactly(l: Lineage, fate: Fate, cutoff: int, b: Binlog)
    requires TrimmedTo(fate, l.fulls, cutoff) && Orderly(l.fulls, l.binlogs)
    ensures DropsBinlog(fate, b) <==> forall f | f in fate.kept :: BelowCoordinate(b, f)
  {
    TrimmedKept(l.fulls, fate, cutoff);
    BelowFloorExactly(l.fulls, l.binlogs, fate.kept, b);
  }

  lemma BelowFloorExactly(fulls: seq<FullBackup>, binlogs: seq<Binlog>, kept: seq<FullBackup>,
      b: Binlog)
    requires Orderly(fulls, binlogs) && kept != [] && Descending(kept) && forall f | f in kept :: f in fulls
    ensures BelowFloor(kept, b) <==> forall f | f in kept :: BelowCoordinate(b, f)
  {
    var floor := kept[|kept| - 1];
    assert floor in kept;
    forall f | f in kept
      ensures floor.coordinate.number.Some? && f.coordinate.number.Some?
      ensures floor.coordinate.number.value <= f.coordinate.number.value
    {
      LastIsNoNewer(kept, f);
      FloorStartsNoLater(fulls, binlogs, floor, f);
    }
    assert BelowFloor(kept, b) <==> BelowCoordinate(b, floor);
  }

  lemma FloorStartsNoLater(fulls: seq<FullBackup>, binlogs: seq<Binlog>, floor: FullBackup,
      f: FullBackup)
    requires Orderly(fulls, binlogs) && floor in fulls && f in fulls && f.takenAt >= floor.takenAt
    ensures floor.coordinate.number.Some? && f.coordinate.number.Some?
    ensures floor.coordinate.number.value <= f.coordinate.number.value
  {}

  /** The fate of any lineage that is not retired is to stay whole or to be trimmed. */
  lemma NotRetired(l: Lineage, active: string, cutoff: int)
    requires !FateOf(l, active, cutoff).RetiredWhole?
    ensures FateOf(l, active, cutoff).Untouched? || TrimmedTo(FateOf(l, active, cutoff), l.fulls, cutoff)
  {}

  /** A restore to `target` selects the same full, and the plan from its coordinate -- run and
      gap -- and everything that replays are the same. */
  predicate SameRestore(l: Lineage, after: Lineage, target: int) {
    && NewestQualifying(after.fulls, target) == NewestQualifying(l.fulls, target)
    && match NewestQualifying(l.fulls, target)
       case None => true
       case Some(f) =>
         && Plan(after.binlogs, f.coordinate) == Plan(l.binlogs, f.coordinate)
         && Replayed(after.binlogs, f.coordinate) == Replayed(l.binlogs, f.coordinate)
  }

  lemma LineageRestoresSurvive(l: Lineage, after: Lineage, fate: Fate, active: string, cutoff: int,
      target: int)
    requires fate == FateOf(l, active, cutoff)
    requires TakesOnlyTheDropped(l, after, fate)
    requires !fate.RetiredWhole? && target >= cutoff
    requires Orderly(l.fulls, l.binlogs) && WellNamed(after.binlogs)
    ensures SameRestore(l, after, target)
  {
    NotRetired(l, active, cutoff);
    if fate.Trimmed? {
      TrimmedSelection(l.fulls, after.fulls, fate, cutoff, target);
    }
    if NewestQualifying(l.fulls, target).Some? {
      var f := NewestQualifying(l.fulls, target).value;
      assert fate.Trimmed?;
      SelectedIsNotBelowTheFloor(l.fulls, fate, cutoff, target, f);
      TrimmedKept(l.fulls, fate, cutoff);
      NotBelowTheFloorIsSafe(l, fate, l.fulls, f);
      SafeReplaySurvives(l, after, fate, f);
    }
  }

  lemma LeftAreWellNamed(binlogs: seq<Binlog>, left: seq<Binlog>)
    requires WellNamed(binlogs) && NoTwice(left)
    requires forall b | b in left :: b in binlogs
    ensures WellNamed(left)
  {
    forall j, k | 0 <= j < k < |left|
      ensures left[j].number.Some? && left[k].number.Some? && left[j].number != left[k].number
    {
      assert left[j] in binlogs && left[k] in binlogs;
    }
    assert forall k | 0 <= k < |left| :: left[k] in binlogs;
  }

  /** `after` is what is left of the lineage `l` once any part of the planned sweep was deleted. */
  ghost predicate PartlySwept(input: RetentionInput, l: Lineage, keys: set<Object>, files: set<(string, Binlog)>,
      after: Lineage) {
    && SweepsIndependently(input) && WellKeyed(input.lineages) && l in input.lineages
    && keys <= PlannedKeys(PlanOf(input)) && files <= PlannedFiles(PlanOf(input))
    && LeftOf(l, keys, files, after)
  }

  lemma FateInInput(input: RetentionInput, l: Lineage, fates: Lineage -> Fate)
    requires input.activeUuid.Some? && fates == FatesIn(input)
    ensures fates(l) == FateIn(input, l)
  {}

  lemma SweptLineage(input: RetentionInput, l: Lineage, keys: set<Object>,
      files: set<(string, Binlog)>, after: Lineage)
    requires PartlySwept(input, l, keys, files, after)
    ensures TakesOnlyTheDropped(l, after, FateIn(input, l))
    ensures l.serverUuid in PlanOf(input).retiredLineages <==> FateIn(input, l).RetiredWhole?
    ensures keys == PlannedKeys(PlanOf(input)) && files == PlannedFiles(PlanOf(input)) ==>
      TakesAllTheDropped(l, after, FateIn(input, l))
  {
    PlanWhenIndependent(input);
    var fates := FatesIn(input);
    FateInInput(input, l, fates);
    SweepFollowsTheFate(input.lineages, fates, input.now, PlanOf(input), l, keys, files, after);
    RetirementIsPlanned(input.lineages, fates, input.now, l);
  }

  /** For every lineage not retired whole and every target at or after the cutoff, whatever part of
      the planned sweep was deleted, the lineage's restore is what it was. */
  lemma InWindowRestoresSurvive(input: RetentionInput, l: Lineage, keys: set<Object>,
      files: set<(string, Binlog)>, after: Lineage, target: int)
    requires PartlySwept(input, l, keys, files, after) && Orderly(l.fulls, l.binlogs)
    requires l.serverUuid !in PlanOf(input).retiredLineages && target >= input.now - input.horizon
    ensures SameRestore(l, after, target)
  {
    assert TakesOnlyTheDropped(l, after, FateIn(input, l)) && !FateIn(input, l).RetiredWhole? by {
      SweptLineage(input, l, keys, files, after);
    }
    assert WellNamed(after.binlogs) by { LeftAreWellNamed(l.binlogs, after.binlogs); }
    SurvivingRestore(input, l, after, target);
  }

  lemma SurvivingRestore(input: RetentionInput, l: Lineage, after: Lineage, target: int)
    requires input.activeUuid.Some? && target >= input.now - input.horizon
    requires TakesOnlyTheDropped(l, after, FateIn(input, l)) && !FateIn(input, l).RetiredWhole?
    requires Orderly(l.fulls, l.binlogs) && WellNamed(after.binlogs)
    ensures SameRestore(l, after, target)
  {
    LineageRestoresSurvive(l, after, FateIn(input, l), input.activeUuid.value, input.now - input.horizon, target);
  }

  // ----- the active lineage stays restorable -----

  lemma {:induction false} SizesFollow(a: seq<FullBackup>, b: seq<FullBackup>)
    requires NoTwice(a) && forall f | f in a :: f in b
    ensures |a| <= |b|
  {
    if a != [] {
      var last := a[|a| - 1];
      assert last in a && last in b;
      var k :| 0 <= k < |b| && b[k] == last;
      var front, rest := a[..|a| - 1], b[..k] + b[k + 1..];
      forall f | f in front
        ensures f in rest
      {
        var j :| 0 <= j < |front| && front[j] == f;
        assert a[j] == f && f != last && f in a;
        var i :| 0 <= i < |b| && b[i] == f;
        assert if i < k then rest[i] == f else rest[i - 1] == f;
      }
      SizesFollow(front, rest);
    }
  }

  lemma KeptIsListedOnce(fulls: seq<FullBackup>, cutoff: int, minKept: nat)
    requires NoTwice(fulls) && DistinctTimes(fulls)
    ensures NoTwice(FullsToKeep(fulls, cutoff, minKept))
  {
    ByAgeIsStrict(fulls);
  }

  /** No sweep, whole or partial, leaves the active lineage fewer fulls than two, or than it had. */
  lemma ActiveKeepsItsCount(input: RetentionInput, l: Lineage, keys: set<Object>,
      files: set<(string, Binlog)>, after: Lineage)
    requires PartlySwept(input, l, keys, files, after) && input.activeUuid == Some(l.serverUuid)
    requires NoTwice(l.fulls) && DistinctTimes(l.fulls)
    ensures |after.fulls| >= Min(2, |l.fulls|)
  {
    assert TakesOnlyTheDropped(l, after, FateIn(input, l)) by { SweptLineage(input, l, keys, files, after); }
    ActiveCountSurvives(input, l, after);
  }

  lemma ActiveCountSurvives(input: RetentionInput, l: Lineage, after: Lineage)
    requires input.activeUuid == Some(l.serverUuid) && TakesOnlyTheDropped(l, after, FateIn(input, l))
    requires NoTwice(l.fulls) && DistinctTimes(l.fulls)
    ensures |after.fulls| >= Min(2, |l.fulls|)
  {
    ActiveKeepsTrimmed(l, FateIn(input, l), input.now - input.horizon, after);
  }

  lemma ActiveKeepsTrimmed(l: Lineage, fate: Fate, cutoff: int, after: Lineage)
    requires fate == FateOf(l, l.serverUuid, cutoff)
    requires TakesOnlyTheDropped(l, after, fate)
    requires NoTwice(l.fulls) && DistinctTimes(l.fulls)
    ensures |after.fulls| >= Min(2, |l.fulls|)
  {
    if l.fulls != [] {
      KeptAreNewest(l.fulls, cutoff, MIN_ACTIVE_FULLS_KEPT);
      KeptIsListedOnce(l.fulls, cutoff, MIN_ACTIVE_FULLS_KEPT);
      SizesFollow(fate.kept, after.fulls);
    }
  }

  // ----- sweeping everything, then planning again -----

  /** `again` lists the archive once these objects are deleted: each lineage with anything left. */
  ghost predicate ListedAfter(ls: seq<Lineage>, keys: set<Object>, files: set<(string, Binlog)>, again: seq<Lineage>) {
    && (forall after | after in again :: exists l :: l in ls && LeftOf(l, keys, files, after))
    && (forall l, f | l in ls && f in l.fulls && !IsGone(f, keys) ::
          exists after :: after in again && LeftOf(l, keys, files, after))
  }

  /** A lineage the plan has nothing more to say about. */
  ghost predicate Quiet(l: Lineage, fate: Fate, now: int) {
    && !fate.RetiredWhole?
    && (forall f | f in l.fulls :: !DropsFull(fate, f))
    && (forall b | b in l.binlogs :: !DropsBinlog(fate, b))
    && (forall o | o in l.orphanDumps :: now - o.1 <= 6 * 3600 * 1_000_000_000)
  }

  lemma QuietAddsNothing(l: Lineage, fates: Lineage -> Fate, now: int)
    requires Quiet(l, fates(l), now)
    ensures AddLineage(NOTHING, l, fates, now) == NOTHING
  {
    var fate := fates(l);
    FilterKeepsNone(l.fulls, FullRule(fate));
    FilterKeepsNone(l.binlogs, BinlogRule(fate));
    var overdue := OverdueOrphans(l.orphanDumps, now);
    if overdue != [] {
      OverdueNames(l.orphanDumps, now, overdue[0]);
      assert false;
    }
  }

  lemma QuietInput(input: RetentionInput)
    requires input.activeUuid.Some?
    requires forall l | l in input.lineages :: Quiet(l, FateIn(input, l), input.now)
    ensures PlanLineages(input.lineages, FatesIn(input), input.now) == NOTHING
  {
    var fates := FatesIn(input);
    assert forall l | l in input.lineages :: Quiet(l, fates(l), input.now);
    QuietLineages(input.lineages, fates, input.now);
  }

  lemma {:induction false} QuietLineages(ls: seq<Lineage>, fates: Lineage -> Fate, now: int)
    requires forall l | l in ls :: Quiet(l, fates(l), now)
    ensures PlanLineages(ls, fates, now) == NOTHING
  {
    if ls != [] {
      var front, last := ls[..|ls| - 1], ls[|ls| - 1];
      assert ls == front + [last];
      QuietLineages(front, fates, now);
      QuietAddsNothing(last, fates, now);
    }
  }

  /** Dump keys tell fulls apart and every full is listed once, at an instant of its own. */
  ghost predicate Separate(fulls: seq<FullBackup>) {
    && NoTwice(fulls) && DistinctTimes(fulls)
    && forall f, g {:trigger f in fulls, g in fulls} | f in fulls && g in fulls && f.dumpKey == g.dumpKey :: f == g
  }

  lemma TrimmedStaysTrimmed(fulls: seq<FullBackup>, left: seq<FullBackup>, cutoff: int, minKept: nat)
    requires Separate(fulls) && fulls != [] && NoTwice(left)
    requires forall f :: f in left <==> f in fulls && f.dumpKey in DumpKeys(FullsToKeep(fulls, cutoff, minKept))
    ensures FullsToKeep(left, cutoff, minKept) == FullsToKeep(fulls, cutoff, minKept)
    ensures left != [] && LatestTakenAt(left) == LatestTakenAt(fulls)
  {
    var kept := FullsToKeep(fulls, cutoff, minKept);
    KeptAreNewest(fulls, cutoff, minKept);
    assert forall f :: f in left <==> f in kept;
    KeptAgain(fulls, left, cutoff, minKept);
    NewestIsKept(fulls, cutoff, minKept);
    assert kept[0] in left;
  }

  lemma NewestIsKept(fulls: seq<FullBackup>, cutoff: int, minKept: nat)
    requires fulls != []
    ensures var kept := FullsToKeep(fulls, cutoff, minKept);
      kept != [] && kept[0] in fulls && kept[0].takenAt == LatestTakenAt(fulls)
  {
    ByAgeSorts(fulls);
    KeptAreNewest(fulls, cutoff, minKept);
    var sorted, kept := ByAge(fulls), FullsToKeep(fulls, cutoff, minKept);
    assert kept[0] == sorted[0];
    assert forall f | f in sorted :: f.takenAt <= sorted[0].takenAt;
    assert sorted[0] in sorted;
  }

  lemma NothingIn<T(!new)>(xs: seq<T>)
    ensures xs != [] ==> exists x :: x in xs
  {
    if xs != [] {
      assert xs[0] in xs;
    }
  }

  /** What the whole sweep does to one lineage. */
  ghost predicate WhollySwept(l: Lineage, after: Lineage, fate: Fate, now: int) {
    && TakesOnlyTheDropped(l, after, fate) && TakesAllTheDropped(l, after, fate)
    && after.serverUuid == l.serverUuid && NoTwice(after.fulls)
    && (l.fulls == [] ==> after.fullObjectsSeen == l.fullObjectsSeen)
    && forall o | o in after.orphanDumps :: now - o.1 <= 6 * 3600 * 1_000_000_000
  }

  /** Judged again after its whole sweep, a lineage meets the same fate, or none when everything went. */
  lemma FateAfterItsSweep(l: Lineage, after: Lineage, fate: Fate, again: Fate, active: string, cutoff: int, now: int)
    requires fate == FateOf(l, active, cutoff) && again == FateOf(after, active, cutoff)
    requires WhollySwept(l, after, fate, now) && Separate(l.fulls)
    ensures again == if fate.Trimmed? then fate else Untouched
  {
    if fate.Trimmed? {
      TrimmedStaysTrimmed(l.fulls, after.fulls, cutoff, if l.serverUuid == active then MIN_ACTIVE_FULLS_KEPT else 1);
    } else {
      NothingIn(after.fulls);
      NothingIn(after.binlogs);
      NothingIn(l.binlogs);
    }
  }

  lemma QuietAfterItsSweep(l: Lineage, after: Lineage, fate: Fate, again: Fate, active: string, cutoff: int, now: int)
    requires fate == FateOf(l, active, cutoff) && again == FateOf(after, active, cutoff)
    requires WhollySwept(l, after, fate, now) && Separate(l.fulls)
    ensures Quiet(after, again, now)
  {
    FateAfterItsSweep(l, after, fate, again, active, cutoff, now);
    QuietByItsFate(l, after, fate, again, now);
  }

  lemma NothingLeftBehind(input: RetentionInput, l: Lineage, o: (string, int))
    requires SweepsIndependently(input) && WellKeyed(input.lineages) && l in input.lineages
    ensures !LeftBehind(o, l.fulls, PlannedKeys(PlanOf(input)))
  {
    PlanWhenIndependent(input);
    forall f | f in l.fulls
      ensures Meta(f.dumpKey) in PlannedKeys(PlanOf(input)) ==> Dump(f.dumpKey) in PlannedKeys(PlanOf(input))
    {
      FullIsPlanned(input.lineages, FatesIn(input), input.now, l, f, Dump(f.dumpKey));
      FullIsPlanned(input.lineages, FatesIn(input), input.now, l, f, Meta(f.dumpKey));
    }
  }

  lemma SweptOrphans(input: RetentionInput, l: Lineage, keys: set<Object>,
      files: set<(string, Binlog)>, after: Lineage)
    requires PartlySwept(input, l, keys, files, after) && keys == PlannedKeys(PlanOf(input))
    ensures forall o | o in after.orphanDumps :: input.now - o.1 <= 6 * 3600 * 1_000_000_000
  {
    forall o | o in after.orphanDumps
      ensures input.now - o.1 <= 6 * 3600 * 1_000_000_000
    {
      NothingLeftBehind(input, l, o);
      SweptOrphanIsRecent(input, l, o);
    }
  }

  lemma SweptOrphanIsRecent(input: RetentionInput, l: Lineage, o: (string, int))
    requires SweepsIndependently(input) && l in input.lineages && o in l.orphanDumps
    requires Dump(o.0) !in PlannedKeys(PlanOf(input))
    ensures input.now - o.1 <= 6 * 3600 * 1_000_000_000
  {
    PlanWhenIndependent(input);
    PlannedOrphans(input.lineages, FatesIn(input), input.now, o.0);
  }

  lemma WholeSweep(input: RetentionInput, l: Lineage, keys: set<Object>,
      files: set<(string, Binlog)>, after: Lineage)
    requires PartlySwept(input, l, keys, files, after)
    requires keys == PlannedKeys(PlanOf(input)) && files == PlannedFiles(PlanOf(input))
    ensures WhollySwept(l, after, FateIn(input, l), input.now)
  {
    SweptLineage(input, l, keys, files, after);
    SweptOrphans(input, l, keys, files, after);
    assert l.fulls == [] ==> MetaKeys(l.fulls) * keys == {};
  }

  lemma QuietByItsFate(l: Lineage, after: Lineage, fate: Fate, again: Fate, now: int)
    requires WhollySwept(l, after, fate, now) && again == if fate.Trimmed? then fate else Untouched
    ensures Quiet(after, again, now)
  {}

  /** `again` is the input listed anew after the whole plan was carried out. */
  ghost predicate Replans(input: RetentionInput, again: RetentionInput) {
    && SweepsIndependently(input) && WellKeyed(input.lineages)
    && ListedAfter(input.lineages, PlannedKeys(PlanOf(input)), PlannedFiles(PlanOf(input)),
      again.lineages)
    && again == input.(lineages := again.lineages)
  }

  lemma FateOfPass(input: RetentionInput, l: Lineage, active: string, cutoff: int)
    requires input.activeUuid == Some(active) && cutoff == input.now - input.horizon
    ensures FateIn(input, l) == FateOf(l, active, cutoff)
  {}

  lemma QuietAfterwards(input: RetentionInput, again: RetentionInput, after: Lineage, active: string, cutoff: int)
    requires Replans(input, again) && after in again.lineages
    requires input.activeUuid == Some(active) && cutoff == input.now - input.horizon
    requires forall l | l in input.lineages :: Separate(l.fulls)
    ensures Quiet(after, FateIn(input, after), input.now)
  {
    var keys, files := PlannedKeys(PlanOf(input)), PlannedFiles(PlanOf(input));
    var l :| l in input.lineages && LeftOf(l, keys, files, after);
    WholeSweep(input, l, keys, files, after);
    FateOfPass(input, l, active, cutoff);
    FateOfPass(input, after, active, cutoff);
    QuietAfterItsSweep(l, after, FateIn(input, l), FateIn(input, after), active, cutoff, input.now);
  }

  lemma PlanOfQuiet(again: RetentionInput)
    requires again.activeUuid.Some? && again.horizon > 0 && !again.sharedHistoryMarker && !SharesHistory(again.lineages)
    requires PlanLineages(again.lineages, FatesIn(again), again.now) == NOTHING
    ensures PlanOf(again) == NOTHING
  {}

  lemma StaysIndependent(input: RetentionInput, again: RetentionInput)
    requires Replans(input, again)
    ensures !SharesHistory(again.lineages)
  {
    FullsOfLineages(input.lineages);
    FullsOfLineages(again.lineages);
    forall after, f | after in again.lineages && f in after.fulls
      ensures f in AllFulls(input.lineages)
    {
      var l :| l in input.lineages
        && LeftOf(l, PlannedKeys(PlanOf(input)), PlannedFiles(PlanOf(input)), after);
    }
  }

  /** Planning again after the whole plan was carried out plans nothing. */
  lemma PlanningAgainDeletesNothing(input: RetentionInput, again: RetentionInput)
    requires Replans(input, again)
    requires forall l | l in input.lineages :: Separate(l.fulls)
    ensures PlanOf(again) == NOTHING
  {
    AllQuiet(input, again);
    StaysIndependent(input, again);
    PlanOfQuiet(again);
  }

  lemma SameFates(input: RetentionInput, again: RetentionInput, after: Lineage)
    requires input.activeUuid.Some? && again == input.(lineages := again.lineages)
    ensures FateIn(again, after) == FateIn(input, after) && again.now == input.now
  {}

  lemma AllQuiet(input: RetentionInput, again: RetentionInput)
    requires Replans(input, again)
    requires forall l | l in input.lineages :: Separate(l.fulls)
    ensures PlanLineages(again.lineages, FatesIn(again), again.now) == NOTHING
  {
    forall after | after in again.lineages
      ensures Quiet(after, FateIn(again, after), again.now)
    {
      QuietAfterwards(input, again, after, input.activeUuid.value, input.now - input.horizon);
      SameFates(input, again, after);
    }
    QuietInput(again);
  }

  // ----- the gates -----

  /** With no active lineage established, or no horizon, a pass names nothing at all. */
  lemma BlindPassNamesNothing(input: RetentionInput)
    requires input.activeUuid.None? || input.horizon <= 0
    ensures var plan := PlanOf(input);
      plan.expiredFullKeys == [] && plan.expiredBinlogs == [] && plan.orphanDumpKeys == [] && plan.retiredLineages == []
  {}

  lemma NothingNamesNothing()
    ensures PlannedKeys(NOTHING) == {} && PlannedFiles(NOTHING) == {}
  {}

  /** Whatever a pass over independent lineages names, and whatever of it is then deleted: the active lineage lists a
      full that keeps both its objects. */
  lemma ActiveStaysRestorable(input: RetentionInput) returns (l: Lineage, f: FullBackup)
    requires !input.sharedHistoryMarker && !SharesHistory(input.lineages) && WellKeyed(input.lineages)
    requires PlannedKeys(PlanOf(input)) != {} || PlannedFiles(PlanOf(input)) != {}
    ensures input.activeUuid.Some? && input.horizon > 0
    ensures l in input.lineages && input.activeUuid == Some(l.serverUuid) && f in l.fulls
    ensures Dump(f.dumpKey) !in PlannedKeys(PlanOf(input)) && Meta(f.dumpKey) !in PlannedKeys(PlanOf(input))
  {
    NamingMeansSweeping(input);
    l := ActiveWithAFull(input, input.activeUuid.value);
    f := ActiveKeepsItsNewest(l, input.now - input.horizon);
    ActiveFullStays(input, l, input.now - input.horizon, f);
  }

  lemma ActiveWithAFull(input: RetentionInput, active: string) returns (l: Lineage)
    requires ActiveHasFull(input, active)
    ensures l in input.lineages && l.serverUuid == active && l.fulls != []
  {
    l :| l in input.lineages && l.serverUuid == active && l.fulls != [];
  }

  lemma ActiveFullStays(input: RetentionInput, l: Lineage, cutoff: int, f: FullBackup)
    requires SweepsIndependently(input) && WellKeyed(input.lineages) && l in input.lineages && f in l.fulls
    requires input.activeUuid == Some(l.serverUuid) && cutoff == input.now - input.horizon
    requires !DropsFull(FateOf(l, l.serverUuid, cutoff), f)
    ensures Dump(f.dumpKey) !in PlannedKeys(PlanOf(input)) && Meta(f.dumpKey) !in PlannedKeys(PlanOf(input))
  {
    FateOfPass(input, l, l.serverUuid, cutoff);
    GoneIsDropped(input, l, f);
  }

  lemma NamingMeansSweeping(input: RetentionInput)
    requires !input.sharedHistoryMarker && !SharesHistory(input.lineages)
    requires PlannedKeys(PlanOf(input)) != {} || PlannedFiles(PlanOf(input)) != {}
    ensures SweepsIndependently(input)
  {
    NothingNamesNothing();
  }

  lemma ActiveKeepsItsNewest(l: Lineage, cutoff: int) returns (f: FullBackup)
    requires l.fulls != []
    ensures f in l.fulls && !DropsFull(FateOf(l, l.serverUuid, cutoff), f)
  {
    KeptAreNewest(l.fulls, cutoff, MIN_ACTIVE_FULLS_KEPT);
    f := FullsToKeep(l.fulls, cutoff, MIN_ACTIVE_FULLS_KEPT)[0];
  }

  // ----- the archive-wide selection -----

  lemma SweptFulls(input: RetentionInput, again: RetentionInput, l: Lineage, f: FullBackup)
    requires Replans(input, again) && l in input.lineages && f in l.fulls
    ensures forall g | g in AllFulls(again.lineages) :: g in AllFulls(input.lineages)
    ensures f in AllFulls(again.lineages) <==> !IsGone(f, PlannedKeys(PlanOf(input)))
  {
    var keys, files := PlannedKeys(PlanOf(input)), PlannedFiles(PlanOf(input));
    FullsOfLineages(input.lineages);
    FullsOfLineages(again.lineages);
    forall g, after | after in again.lineages && g in after.fulls
      ensures g in AllFulls(input.lineages) && !IsGone(g, keys)
    {
      var m :| m in input.lineages && LeftOf(m, keys, files, after);
    }
  }

  lemma SelectedIffLeft(fulls: seq<FullBackup>, left: seq<FullBackup>, target: int, f: FullBackup)
    requires DistinctTimes(fulls) && NewestQualifying(fulls, target) == Some(f)
    requires forall g | g in left :: g in fulls
    ensures NewestQualifying(left, target) == Some(f) <==> f in left
  {
    if f in left {
      NewestIs(left, target, f);
    }
  }

  lemma RetiredByItsFulls(ls: seq<Lineage>, l: Lineage, active: string, cutoff: int)
    requires WellKeyed(ls) && l in ls && l.fulls != []
    ensures FateOf(l, active, cutoff).RetiredWhole? <==>
      l.serverUuid != active && forall g | g in AllFulls(ls) && g.serverUuid == l.serverUuid :: g.takenAt < cutoff
  {
    FullsOfLineages(ls);
    forall g | g in AllFulls(ls) && g.serverUuid == l.serverUuid
      ensures g in l.fulls
    {
      var m :| m in ls && g in m.fulls;
    }
  }

  /** Within its lineage the selected full outlives the whole sweep exactly when the lineage does. */
  lemma SelectedOutlives(fulls: seq<FullBackup>, fate: Fate, cutoff: int, target: int, f: FullBackup)
    requires fate.RetiredWhole? || TrimmedTo(fate, fulls, cutoff)
    requires DistinctTimes(fulls) && target >= cutoff && NewestQualifying(fulls, target) == Some(f)
    ensures DropsFull(fate, f) <==> fate.RetiredWhole?
  {
    if fate.Trimmed? {
      var left := Filter(fulls, (g: FullBackup) => !DropsFull(fate, g));
      TrimmedSelection(fulls, left, fate, cutoff, target);
      assert f in left;
    }
  }

  lemma SelectedInItsLineage(ls: seq<Lineage>, l: Lineage, target: int, f: FullBackup)
    requires l in ls && f in l.fulls && DistinctTimes(AllFulls(ls)) && NewestQualifying(AllFulls(ls), target) == Some(f)
    ensures NewestQualifying(l.fulls, target) == Some(f) && DistinctTimes(l.fulls)
  {
    FullsOfLineages(ls);
    assert forall g | g in l.fulls :: g in AllFulls(ls);
    NewestIs(l.fulls, target, f);
  }

  lemma GoneIsDropped(input: RetentionInput, l: Lineage, f: FullBackup)
    requires SweepsIndependently(input) && WellKeyed(input.lineages)
      && l in input.lineages && f in l.fulls
    ensures IsGone(f, PlannedKeys(PlanOf(input))) <==> DropsFull(FateIn(input, l), f)
  {
    var fates := FatesIn(input);
    FateInInput(input, l, fates);
    PlanWhenIndependent(input);
    FullOutlivesSweep(input.lineages, fates, input.now, PlanOf(input), l, PlannedKeys(PlanOf(input)), f);
  }

  lemma FileIsDropped(input: RetentionInput, l: Lineage, b: Binlog)
    requires SweepsIndependently(input) && WellKeyed(input.lineages)
      && l in input.lineages && b in l.binlogs
    ensures (l.serverUuid, b) in PlannedFiles(PlanOf(input)) <==> DropsBinlog(FateIn(input, l), b)
  {
    var fates := FatesIn(input);
    FateInInput(input, l, fates);
    PlanWhenIndependent(input);
    BinlogIsPlanned(input.lineages, fates, input.now, l, b);
  }

  lemma SelectedIsPlanned(input: RetentionInput, target: int, l: Lineage, f: FullBackup)
    requires SweepsIndependently(input) && WellKeyed(input.lineages)
      && l in input.lineages && f in l.fulls
    requires DistinctTimes(AllFulls(input.lineages)) && target >= input.now - input.horizon
    requires NewestQualifying(AllFulls(input.lineages), target) == Some(f)
    ensures IsGone(f, PlannedKeys(PlanOf(input))) <==> FateIn(input, l).RetiredWhole?
  {
    SelectedInItsLineage(input.lineages, l, target, f);
    SelectedOutlives(l.fulls, FateIn(input, l), input.now - input.horizon, target, f);
    GoneIsDropped(input, l, f);
  }

  /** A full sweep leaves the full selected for an in-window target exactly when it lies in the
      active lineage or in one with some full inside the horizon: retiring a dead lineage can
      take the only base of a target just past the cutoff. */
  lemma ArchiveSelectionSurvivesExactly(input: RetentionInput, again: RetentionInput, target: int,
      f: FullBackup)
    requires Replans(input, again)
    requires DistinctTimes(AllFulls(input.lineages)) && target >= input.now - input.horizon
    requires NewestQualifying(AllFulls(input.lineages), target) == Some(f)
    ensures NewestQualifying(AllFulls(again.lineages), target) == Some(f) <==>
      || input.activeUuid == Some(f.serverUuid)
      || exists g ::
           g in AllFulls(input.lineages) && g.serverUuid == f.serverUuid && g.takenAt >= input.now - input.horizon
  {
    FullsOfLineages(input.lineages);
    var l :| l in input.lineages && f in l.fulls;
    SelectedIsPlanned(input, target, l, f);
    SweptFulls(input, again, l, f);
    SelectedIffLeft(AllFulls(input.lineages), AllFulls(again.lineages), target, f);
    RetiredByItsFulls(input.lineages, l, input.activeUuid.value, input.now - input.horizon);
  }

  // ----- an input at which it changes -----

  function Taken(uuid: string, key: string, millis: nat): FullBackup {
    FullBackup(uuid, key, millis * MILLI, Binlog("b", Some(millis)), 4, None)
  }

  lemma FullsOfTwo(a: Lineage, b: Lineage)
    ensures AllFulls([a, b]) == a.fulls + b.fulls
  {
    assert [a, b][..1] == [a] && [a][..0] == [];
    assert AllFulls([a]) == [] + a.fulls;
  }

  lemma TwoAreKept(newer: FullBackup, older: FullBackup, cutoff: int)
    requires newer.takenAt > older.takenAt
    ensures FullsToKeep([newer, older], cutoff, 2) == [newer, older]
  {
    assert [newer, older][..1] == [newer] && [newer][..0] == [];
    assert InsertByAge([], newer) == [newer] && ByAge([newer]) == [newer];
    assert ByAge([newer, older]) == InsertByAge([newer], older) == [newer, older];
  }

  lemma FatesOfTwo(live: Lineage, dead: Lineage, recent: FullBackup, early: FullBackup,
      orphaned: FullBackup)
    requires live.serverUuid == "a" && dead.serverUuid == "d" && live.fulls == [recent, early]
      && dead.fulls == [orphaned]
    requires early.takenAt == MILLI && orphaned.takenAt == 2 * MILLI && recent.takenAt == 4 * MILLI
    ensures FateOf(dead, "a", 3 * MILLI) == RetiredWhole
    ensures FateOf(live, "a", 3 * MILLI) == Trimmed([recent, early])
  {
    assert "a"[0] != "d"[0];
    TwoAreKept(recent, early, 3 * MILLI);
  }

  /** The active lineage has fulls at 1 and 4 ms, a dead one at 2 ms; a pass with its cutoff at 3 ms retires
      the dead lineage, and a target at 3 ms, restored from the 2 ms full before, falls back to the
      1 ms full after. */
  lemma RetiringSwapsTheSelection()
    ensures var early, orphaned, recent := Taken("a", "a1", 1), Taken("d", "d2", 2), Taken("a", "a4", 4);
      var live, dead := Lineage("a", [recent, early], 2, [], [], map[]), Lineage("d", [orphaned], 1, [], [], map[]);
      && FateOf(live, "a", 3 * MILLI) == Trimmed([recent, early]) && FateOf(dead, "a", 3 * MILLI) == RetiredWhole
      && NewestQualifying(AllFulls([live, dead]), 3 * MILLI) == Some(orphaned)
      && (forall f | f in live.fulls :: !DropsFull(FateOf(live, "a", 3 * MILLI), f))
      && NewestQualifying(live.fulls, 3 * MILLI) == Some(early)
  {
    var early, orphaned, recent := Taken("a", "a1", 1), Taken("d", "d2", 2), Taken("a", "a4", 4);
    var live, dead := Lineage("a", [recent, early], 2, [], [], map[]), Lineage("d", [orphaned], 1, [], [], map[]);
    FatesOfTwo(live, dead, recent, early, orphaned);
    FullsOfTwo(live, dead);
    SelectionsOfThree(recent, early, orphaned);
    BothStay(recent, early);
  }

  lemma BothStay(recent: FullBackup, early: FullBackup)
    ensures forall f | f in [recent, early] :: !DropsFull(Trimmed([recent, early]), f)
  {
    assert recent in [recent, early] && early in [recent, early];
  }

  lemma SelectionsOfThree(recent: FullBackup, early: FullBackup, orphaned: FullBackup)
    requires early.takenAt == MILLI && orphaned.takenAt == 2 * MILLI && recent.takenAt == 4 * MILLI
    ensures NewestQualifying([recent, early] + [orphaned], 3 * MILLI) == Some(orphaned)
    ensures NewestQualifying([recent, early], 3 * MILLI) == Some(early)
  {
    assert !Qualifies(recent, 3 * MILLI);
    var all := [recent, early] + [orphaned];
    assert all[2] == orphaned && forall f | f in all :: f == recent || f == early || f == orphaned;
    NewestIs(all, 3 * MILLI, orphaned);
    assert [recent, early][1] == early;
    NewestIs([recent, early], 3 * MILLI, early);
  }
}
