/** What a sweep of an independent lineage does to its restores when some of its fulls could not be
    read by the pass that planned it. */
module UnreadFulls {
  import opened Common
  import opened BinlogNames
  import opened ReplayPlan
  import opened Archive
  import opened Retention
  import opened RetentionSafety

  /** The listing counts the metas of the fulls it could not read. */
  predicate Unread(l: Lineage, hidden: seq<FullBackup>) {
    l.fullObjectsSeen >= |l.fulls| + |hidden|
  }

  /** A restore from this lineage selects the same full among all that lie in the bucket, and replays
      the same files. */
  predicate SameRestoreAmong(l: Lineage, hidden: seq<FullBackup>, after: Lineage, target: int) {
    && NewestQualifying(after.fulls + hidden, target) == NewestQualifying(l.fulls + hidden, target)
    && match NewestQualifying(l.fulls + hidden, target)
       case None => true
       case Some(f) => Replayed(after.binlogs, f.coordinate) == Replayed(l.binlogs, f.coordinate)
  }

  // ----- what the listing shows before the pass -----

  /** Some full that was read is inside the horizon. */
  predicate ReadsInside(l: Lineage, cutoff: int) {
    exists f :: f in l.fulls && f.takenAt >= cutoff
  }

  /** The oldest full the horizon keeps among those read. */
  function OldestKept(l: Lineage, active: string, cutoff: int): FullBackup
    requires l.fulls != []
  {
    KeptAreNewest(l.fulls, cutoff, if l.serverUuid == active then MIN_ACTIVE_FULLS_KEPT else 1);
    var kept := FullsToKeep(l.fulls, cutoff, if l.serverUuid == active then MIN_ACTIVE_FULLS_KEPT else 1);
    kept[|kept| - 1]
  }

  predicate NoneFrom(binlogs: seq<Binlog>, from: nat) {
    forall b | b in binlogs && b.number.Some? :: b.number.value < from
  }

  predicate NoneBetween(binlogs: seq<Binlog>, from: nat, below: nat) {
    forall b | b in binlogs && b.number.Some? :: b.number.value < from || b.number.value >= below
  }

  /** Whether the sweep leaves a full what it needs. A lineage none of whose fulls was read is spared;
      a dead one with none read inside the horizon goes whole; any other loses the binlogs below the
      oldest full it keeps. */
  predicate KeepsItsBinlogs(l: Lineage, active: string, cutoff: int, f: FullBackup)
    requires f.coordinate.number.Some?
  {
    if l.fulls == [] then true
    else if l.serverUuid != active && !ReadsInside(l, cutoff) then
      f !in l.fulls && NoneFrom(l.binlogs, f.coordinate.number.value)
    else
      var floor := OldestKept(l, active, cutoff);
      || f in l.fulls
      || floor.coordinate.number.None?
      || NoneBetween(l.binlogs, f.coordinate.number.value, floor.coordinate.number.value)
  }

  /** Where the coordinate's own file is archived that is a comparison of two coordinates: an unread
      full keeps its binlogs exactly when its lineage is not retired and it does not start before
      the oldest full kept. */
  lemma ByCoordinateAlone(l: Lineage, active: string, cutoff: int, f: FullBackup)
    requires f !in l.fulls && f.coordinate in l.binlogs && f.coordinate.number.Some?
    requires forall g | g in l.fulls :: g.coordinate.number.Some?
    ensures KeepsItsBinlogs(l, active, cutoff, f) <==>
      || l.fulls == []
      || ((l.serverUuid == active || ReadsInside(l, cutoff))
          && OldestKept(l, active, cutoff).coordinate.number.Some?
          && OldestKept(l, active, cutoff).coordinate.number.value <= f.coordinate.number.value)
  {
    if l.fulls != [] {
      KeptAreNewest(l.fulls, cutoff, if l.serverUuid == active then MIN_ACTIVE_FULLS_KEPT else 1);
      var kept := FullsToKeep(l.fulls, cutoff, if l.serverUuid == active then MIN_ACTIVE_FULLS_KEPT else 1);
      assert OldestKept(l, active, cutoff) in kept;
    }
  }

  // ----- that condition is exact -----

  lemma FateByListing(l: Lineage, active: string, cutoff: int)
    requires l.fulls != []
    ensures FateOf(l, active, cutoff).RetiredWhole? <==> l.serverUuid != active && !ReadsInside(l, cutoff)
    ensures !FateOf(l, active, cutoff).RetiredWhole? ==>
      && TrimmedTo(FateOf(l, active, cutoff), l.fulls, cutoff)
      && FateOf(l, active, cutoff).kept != []
      && FateOf(l, active, cutoff).kept[|FateOf(l, active, cutoff).kept| - 1] == OldestKept(l, active, cutoff)
  {
    KeptAreNewest(l.fulls, cutoff, if l.serverUuid == active then MIN_ACTIVE_FULLS_KEPT else 1);
  }

  lemma SparedWhenNoneRead(l: Lineage, hidden: seq<FullBackup>, active: string, cutoff: int)
    requires l.fulls == [] && hidden != [] && Unread(l, hidden)
    ensures FateOf(l, active, cutoff) == Untouched
  {}

  /** For a full that was not read, the condition is that nothing it replays is dropped. */
  lemma SafeByListing(l: Lineage, hidden: seq<FullBackup>, active: string, cutoff: int,
      f: FullBackup)
    requires Unread(l, hidden) && f in hidden && f !in l.fulls && f.coordinate.number.Some?
    ensures ReplayIsSafe(FateOf(l, active, cutoff), l, f) <==> KeepsItsBinlogs(l, active, cutoff, f)
  {
    if l.fulls == [] {
      SparedWhenNoneRead(l, hidden, active, cutoff);
    } else {
      FateByListing(l, active, cutoff);
      SafeByFate(l, FateOf(l, active, cutoff), f);
    }
  }

  lemma SafeByFate(l: Lineage, fate: Fate, f: FullBackup)
    requires f.coordinate.number.Some?
    ensures fate.RetiredWhole? ==> (ReplayIsSafe(fate, l, f) <==> NoneFrom(l.binlogs, f.coordinate.number.value))
    ensures fate.Trimmed? && fate.kept != [] ==>
      var floor := fate.kept[|fate.kept| - 1].coordinate.number;
      ReplayIsSafe(fate, l, f) <==> floor.None? || NoneBetween(l.binlogs, f.coordinate.number.value, floor.value)
  {}

  lemma NewestOfPart(part: seq<FullBackup>, all: seq<FullBackup>, target: int, f: FullBackup)
    requires NewestQualifying(all, target) == Some(f) && f in part && DistinctTimes(all)
    requires forall g | g in part :: g in all
    ensures NewestQualifying(part, target) == Some(f) && DistinctTimes(part)
  {
    NewestIs(part, target, f);
  }

  /** Any part of the sweep: when the selected full keeps its binlogs, the restore is what it was. */
  lemma KeptRestoreSurvives(l: Lineage, hidden: seq<FullBackup>, after: Lineage, active: string,
      cutoff: int, target: int, f: FullBackup)
    requires Unread(l, hidden) && (forall g | g in hidden :: g !in l.fulls)
    requires Orderly(l.fulls + hidden, l.binlogs) && WellNamed(after.binlogs)
    requires TakesOnlyTheDropped(l, after, FateOf(l, active, cutoff)) && target >= cutoff
    requires NewestQualifying(l.fulls + hidden, target) == Some(f) && KeepsItsBinlogs(l, active, cutoff, f)
    ensures SameRestoreAmong(l, hidden, after, target)
  {
    var fate := FateOf(l, active, cutoff);
    if f in hidden {
      SafeByListing(l, hidden, active, cutoff, f);
    } else {
      ReadIsSafe(l, hidden, active, cutoff, target, f);
    }
    SafeReplaySurvives(l, after, fate, f);
    StillThere(l, hidden, after, active, cutoff, target, f);
    NewestOfPart(after.fulls + hidden, l.fulls + hidden, target, f);
  }

  /** A selected full that was read keeps its binlogs in every lineage that is not retired. */
  lemma ReadIsSafe(l: Lineage, hidden: seq<FullBackup>, active: string, cutoff: int, target: int,
      f: FullBackup)
    requires Orderly(l.fulls + hidden, l.binlogs) && target >= cutoff && f in l.fulls
    requires NewestQualifying(l.fulls + hidden, target) == Some(f) && KeepsItsBinlogs(l, active, cutoff, f)
    ensures ReplayIsSafe(FateOf(l, active, cutoff), l, f)
  {
    var fate := FateOf(l, active, cutoff);
    FateByListing(l, active, cutoff);
    NewestOfPart(l.fulls, l.fulls + hidden, target, f);
    SelectedIsNotBelowTheFloor(l.fulls, fate, cutoff, target, f);
    TrimmedKept(l.fulls, fate, cutoff);
    assert fate.kept[|fate.kept| - 1] in l.fulls + hidden;
    NotBelowTheFloorIsSafe(l, fate, l.fulls + hidden, f);
  }

  lemma StillThere(l: Lineage, hidden: seq<FullBackup>, after: Lineage, active: string, cutoff: int,
      target: int, f: FullBackup)
    requires DistinctTimes(l.fulls + hidden) && target >= cutoff && f.coordinate.number.Some?
    requires TakesOnlyTheDropped(l, after, FateOf(l, active, cutoff))
    requires NewestQualifying(l.fulls + hidden, target) == Some(f) && KeepsItsBinlogs(l, active, cutoff, f)
    ensures f in after.fulls + hidden
  {
    if f in l.fulls {
      FateByListing(l, active, cutoff);
      NewestOfPart(l.fulls, l.fulls + hidden, target, f);
      TrimmedSelection(l.fulls, after.fulls, FateOf(l, active, cutoff), cutoff, target);
    }
  }

  /** The whole sweep: when it does not, the restore changes. */
  lemma UnkeptRestoreChanges(l: Lineage, hidden: seq<FullBackup>, after: Lineage, active: string,
      cutoff: int, target: int, f: FullBackup)
    requires Unread(l, hidden) && (forall g | g in hidden :: g !in l.fulls)
    requires Orderly(l.fulls + hidden, l.binlogs) && WellNamed(after.binlogs)
    requires TakesOnlyTheDropped(l, after, FateOf(l, active, cutoff))
    requires TakesAllTheDropped(l, after, FateOf(l, active, cutoff))
    requires NewestQualifying(l.fulls + hidden, target) == Some(f) && !KeepsItsBinlogs(l, active, cutoff, f)
    ensures !SameRestoreAmong(l, hidden, after, target)
  {
    FateByListing(l, active, cutoff);
    if f in hidden {
      SafeByListing(l, hidden, active, cutoff, f);
      UnsafeReplayIsLost(l, after, FateOf(l, active, cutoff), f);
    } else {
      assert f !in after.fulls + hidden;
    }
  }

  /** For every target in the window, with unread fulls or without: the whole sweep leaves the lineage's
      restore what it was if and only if the full selected keeps its binlogs. */
  lemma RestoreSurvivesExactly(l: Lineage, hidden: seq<FullBackup>, after: Lineage, active: string,
      cutoff: int, target: int, f: FullBackup)
    requires Unread(l, hidden) && (forall g | g in hidden :: g !in l.fulls)
    requires Orderly(l.fulls + hidden, l.binlogs) && WellNamed(after.binlogs)
    requires TakesOnlyTheDropped(l, after, FateOf(l, active, cutoff))
    requires TakesAllTheDropped(l, after, FateOf(l, active, cutoff))
    requires NewestQualifying(l.fulls + hidden, target) == Some(f) && target >= cutoff
    ensures SameRestoreAmong(l, hidden, after, target) <==> KeepsItsBinlogs(l, active, cutoff, f)
  {
    if KeepsItsBinlogs(l, active, cutoff, f) {
      KeptRestoreSurvives(l, hidden, after, active, cutoff, target, f);
    } else {
      UnkeptRestoreChanges(l, hidden, after, active, cutoff, target, f);
    }
  }

  // ----- the whole window at once -----

  /** Some target at or past the cutoff selects `f`: nothing newer carries a name the first such
      target already reaches. */
  predicate Selectable(fulls: seq<FullBackup>, cutoff: int, f: FullBackup) {
    && f in fulls
    && forall g | g in fulls && g.takenAt > f.takenAt ::
         FloorToMillis(g.takenAt) > cutoff && FloorToMillis(g.takenAt) > FloorToMillis(f.takenAt)
  }

  lemma SelectableExactly(fulls: seq<FullBackup>, cutoff: int, f: FullBackup)
    requires DistinctTimes(fulls)
    ensures Selectable(fulls, cutoff, f) <==>
      exists target :: target >= cutoff && NewestQualifying(fulls, target) == Some(f)
  {
    if Selectable(fulls, cutoff, f) {
      var target := if cutoff >= FloorToMillis(f.takenAt) then cutoff else FloorToMillis(f.takenAt);
      NewestIs(fulls, target, f);
      assert target >= cutoff && NewestQualifying(fulls, target) == Some(f);
    }
    if target: int :| target >= cutoff && NewestQualifying(fulls, target) == Some(f) {
      SelectedIsSelectable(fulls, cutoff, target, f);
    }
  }

  lemma SelectedIsSelectable(fulls: seq<FullBackup>, cutoff: int, target: int, f: FullBackup)
    requires target >= cutoff && NewestQualifying(fulls, target) == Some(f)
    ensures Selectable(fulls, cutoff, f)
  {
    assert forall g | g in fulls && g.takenAt > f.takenAt :: !Qualifies(g, target);
  }

  predicate NothingSelected(fulls: seq<FullBackup>, target: int) {
    NewestQualifying(fulls, target).None?
  }

  lemma NothingToSelectEither(l: Lineage, hidden: seq<FullBackup>, after: Lineage, target: int)
    requires (forall f | f in after.fulls :: f in l.fulls) && NothingSelected(l.fulls + hidden, target)
    ensures SameRestoreAmong(l, hidden, after, target)
  {
    assert forall f | f in after.fulls + hidden :: f in l.fulls + hidden;
  }

  /** Every in-window restore from the lineage survives the whole sweep if and only if every full that
      some in-window target selects, read or not, keeps its binlogs. */
  lemma WindowSurvivesExactly(l: Lineage, hidden: seq<FullBackup>, after: Lineage, active: string,
      cutoff: int)
    requires Unread(l, hidden) && (forall g | g in hidden :: g !in l.fulls)
    requires Orderly(l.fulls + hidden, l.binlogs) && WellNamed(after.binlogs)
    requires TakesOnlyTheDropped(l, after, FateOf(l, active, cutoff))
    requires TakesAllTheDropped(l, after, FateOf(l, active, cutoff))
    ensures (forall target | target >= cutoff :: SameRestoreAmong(l, hidden, after, target)) <==>
      forall f | f in l.fulls + hidden && Selectable(l.fulls + hidden, cutoff, f) ::
        KeepsItsBinlogs(l, active, cutoff, f)
  {
    var all := l.fulls + hidden;
    if forall f | f in all && Selectable(all, cutoff, f) :: KeepsItsBinlogs(l, active, cutoff, f) {
      forall target | target >= cutoff
        ensures SameRestoreAmong(l, hidden, after, target)
      {
        if NothingSelected(all, target) {
          NothingToSelectEither(l, hidden, after, target);
        } else {
          var f := NewestQualifying(all, target).value;
          SelectedIsSelectable(all, cutoff, target, f);
          KeptRestoreSurvives(l, hidden, after, active, cutoff, target, f);
        }
      }
    } else {
      var f :| f in all && Selectable(all, cutoff, f) && !KeepsItsBinlogs(l, active, cutoff, f);
      SelectableExactly(all, cutoff, f);
      var target: int :| target >= cutoff && NewestQualifying(all, target) == Some(f);
      UnkeptRestoreChanges(l, hidden, after, active, cutoff, target, f);
    }
  }

  // ----- over the planner's own deletions -----

  /** A full the pass could not read: its objects are no other full's, and its dump no orphan. */
  ghost predicate Apart(ls: seq<Lineage>, h: FullBackup) {
    && (forall m, g | m in ls && g in m.fulls :: g.dumpKey != h.dumpKey)
    && (forall m, o | m in ls && o in m.orphanDumps :: o.0 != h.dumpKey)
  }

  /** No pass names an object of a full it could not read. */
  lemma UnreadIsNeverPlanned(input: RetentionInput, h: FullBackup)
    requires SweepsIndependently(input) && Apart(input.lineages, h)
    ensures !IsGone(h, PlannedKeys(PlanOf(input)))
  {
    PlanWhenIndependent(input);
    PlannedFulls(input.lineages, FatesIn(input), input.now, Dump(h.dumpKey));
    PlannedFulls(input.lineages, FatesIn(input), input.now, Meta(h.dumpKey));
    PlannedOrphans(input.lineages, FatesIn(input), input.now, h.dumpKey);
  }

  /** Any part of a plan was deleted; `hidden` are the lineage's fulls the pass could not read. */
  ghost predicate SweptUnread(input: RetentionInput, l: Lineage, hidden: seq<FullBackup>, keys: set<Object>,
      files: set<(string, Binlog)>, after: Lineage) {
    && PartlySwept(input, l, keys, files, after)
    && Unread(l, hidden) && Orderly(l.fulls + hidden, l.binlogs)
    && (forall h | h in hidden :: h !in l.fulls && Apart(input.lineages, h))
  }

  lemma UnreadOutliveSweep(input: RetentionInput, l: Lineage, hidden: seq<FullBackup>, keys: set<Object>,
      files: set<(string, Binlog)>, after: Lineage)
    requires SweptUnread(input, l, hidden, keys, files, after)
    ensures WellNamed(after.binlogs) && forall h | h in hidden :: !IsGone(h, keys)
  {
    LeftAreWellNamed(l.binlogs, after.binlogs);
    forall h | h in hidden
      ensures !IsGone(h, keys)
    {
      UnreadIsNeverPlanned(input, h);
    }
  }

  /** Whatever part of the plan was deleted, an in-window restore whose full keeps its binlogs is what it was,
      and no unread full lost an object. */
  lemma PartOfPlanKeepsRestore(input: RetentionInput, l: Lineage, hidden: seq<FullBackup>, keys: set<Object>,
      files: set<(string, Binlog)>, after: Lineage, active: string, cutoff: int, target: int, f: FullBackup)
    requires SweptUnread(input, l, hidden, keys, files, after)
    requires input.activeUuid == Some(active) && cutoff == input.now - input.horizon
    requires NewestQualifying(l.fulls + hidden, target) == Some(f) && target >= cutoff
    requires KeepsItsBinlogs(l, active, cutoff, f)
    ensures SameRestoreAmong(l, hidden, after, target)
    ensures forall h | h in hidden :: !IsGone(h, keys)
  {
    FateOfPass(input, l, active, cutoff);
    SweptLineage(input, l, keys, files, after);
    UnreadOutliveSweep(input, l, hidden, keys, files, after);
    KeptRestoreSurvives(l, hidden, after, active, cutoff, target, f);
  }

  /** Once the whole plan was carried out every in-window restore from the lineage is what it was if and only
      if, in the listing the pass planned from, every full some in-window target selects keeps its
      binlogs. */
  lemma PlanKeepsWindowExactly(input: RetentionInput, l: Lineage, hidden: seq<FullBackup>, keys: set<Object>,
      files: set<(string, Binlog)>, after: Lineage, active: string, cutoff: int)
    requires SweptUnread(input, l, hidden, keys, files, after)
    requires input.activeUuid == Some(active) && cutoff == input.now - input.horizon
    requires keys == PlannedKeys(PlanOf(input)) && files == PlannedFiles(PlanOf(input))
    ensures (forall target | target >= cutoff :: SameRestoreAmong(l, hidden, after, target)) <==>
      forall f | f in l.fulls + hidden && Selectable(l.fulls + hidden, cutoff, f) ::
        KeepsItsBinlogs(l, active, cutoff, f)
  {
    FateOfPass(input, l, active, cutoff);
    SweptLineage(input, l, keys, files, after);
    UnreadOutliveSweep(input, l, hidden, keys, files, after);
    WindowSurvivesExactly(l, hidden, after, active, cutoff);
  }

  /** And one restore is what it was if and only if the full it selects keeps its binlogs. */
  lemma PlanKeepsRestoreExactly(input: RetentionInput, l: Lineage, hidden: seq<FullBackup>, keys: set<Object>,
      files: set<(string, Binlog)>, after: Lineage, active: string, cutoff: int, target: int, f: FullBackup)
    requires SweptUnread(input, l, hidden, keys, files, after)
    requires input.activeUuid == Some(active) && cutoff == input.now - input.horizon
    requires keys == PlannedKeys(PlanOf(input)) && files == PlannedFiles(PlanOf(input))
    requires NewestQualifying(l.fulls + hidden, target) == Some(f) && target >= cutoff
    ensures SameRestoreAmong(l, hidden, after, target) <==> KeepsItsBinlogs(l, active, cutoff, f)
  {
    FateOfPass(input, l, active, cutoff);
    SweptLineage(input, l, keys, files, after);
    UnreadOutliveSweep(input, l, hidden, keys, files, after);
    RestoreSurvivesExactly(l, hidden, after, active, cutoff, target, f);
  }

  // ----- two inputs at which it fails -----

  lemma OneFullIsKept(f: FullBackup, cutoff: int, minKept: nat)
    ensures FullsToKeep([f], cutoff, minKept) == [f]
  {
    assert [f][..0] == [];
    assert InsertByAge([], f) == [f] && ByAge([f]) == [f];
  }

  lemma OneOfOne(f: FullBackup, g: FullBackup, target: int)
    requires f.takenAt < g.takenAt
    ensures DistinctTimes([f] + [g]) && DistinctTimes([g] + [f])
    ensures Qualifies(g, target) ==>
      NewestQualifying([f] + [g], target) == Some(g) && NewestQualifying([g] + [f], target) == Some(g)
    ensures Qualifies(f, target) && !Qualifies(g, target) ==>
      NewestQualifying([f] + [g], target) == Some(f) && NewestQualifying([g] + [f], target) == Some(f)
  {
    if Qualifies(g, target) {
      NewestIs([f] + [g], target, g);
      NewestIs([g] + [f], target, g);
    } else if Qualifies(f, target) {
      NewestIs([f] + [g], target, f);
      NewestIs([g] + [f], target, f);
    }
  }

  function Numbered(n: nat): Binlog {
    Binlog("b", Some(n))
  }

  /** A full of the lineage "a", taken `t` milliseconds in, at the start of a binlog. */
  function TakenAt(t: nat, n: nat): FullBackup {
    FullBackup("a", if t == 1 then "early" else "late", t * MILLI, Numbered(n), 4, None)
  }

  lemma TwoAreOrderly(early: FullBackup, late: FullBackup, all: seq<FullBackup>,
      binlogs: seq<Binlog>)
    requires early.takenAt < late.takenAt && (all == [early] + [late] || all == [late] + [early])
    requires early.coordinate.number.Some? && late.coordinate.number.Some?
    requires early.coordinate.number.value <= late.coordinate.number.value
    requires WellNamed(binlogs) && early.coordinate in binlogs && late.coordinate in binlogs
    ensures Orderly(all, binlogs)
  {
    OneOfOne(early, late, 0);
    assert forall f | f in all :: f == early || f == late;
    forall f, b | f in all && b in binlogs && b.number == f.coordinate.number
      ensures b == f.coordinate
    {
      var j :| 0 <= j < |binlogs| && binlogs[j] == b;
      var k :| 0 <= k < |binlogs| && binlogs[k] == f.coordinate;
    }
  }

  /** Everything the plan names is deleted, and nothing else. */
  ghost predicate FullySwept(l: Lineage, after: Lineage, active: string, cutoff: int) {
    TakesOnlyTheDropped(l, after, FateOf(l, active, cutoff)) && TakesAllTheDropped(l, after, FateOf(l, active, cutoff))
  }

  lemma ThreeBinlogs(binlogs: seq<Binlog>)
    requires binlogs == [Numbered(1), Numbered(2), Numbered(3)]
    ensures WellNamed(binlogs) && Numbered(1) in binlogs && Numbered(3) in binlogs
  {
    assert binlogs[0] == Numbered(1) && binlogs[2] == Numbered(3);
  }

  lemma TrimmedToOne(l: Lineage, after: Lineage, read: FullBackup)
    requires l.fulls == [read] && l.serverUuid == "a" && read.coordinate == Numbered(3)
    requires l.binlogs == [Numbered(1), Numbered(2), Numbered(3)] && after == l.(binlogs := [Numbered(3)])
    ensures FateOf(l, "a", 2 * MILLI) == Trimmed([read]) && OldestKept(l, "a", 2 * MILLI) == read
    ensures FullySwept(l, after, "a", 2 * MILLI)
  {
    OneFullIsKept(read, 2 * MILLI, MIN_ACTIVE_FULLS_KEPT);
  }

  /** An older full that could not be read: the one that was is newer than the cutoff, so nothing
      reaches back to it, and the binlogs between the two are dropped under the unread one. */
  lemma OlderUnreadFullLosesItsBinlogs()
    ensures var unread, read := TakenAt(1, 1), TakenAt(3, 3);
      var l := Lineage("a", [read], 2, [], [Numbered(1), Numbered(2), Numbered(3)], map[]);
      var after := l.(binlogs := [Numbered(3)]);
      && FateOf(l, "a", 2 * MILLI) == Trimmed([read])
      && FullySwept(l, after, "a", 2 * MILLI)
      && NewestQualifying([read] + [unread], 2 * MILLI) == Some(unread)
      && !SameRestoreAmong(l, [unread], after, 2 * MILLI)
  {
    var unread, read := TakenAt(1, 1), TakenAt(3, 3);
    var l := Lineage("a", [read], 2, [], [Numbered(1), Numbered(2), Numbered(3)], map[]);
    var after := l.(binlogs := [Numbered(3)]);
    ThreeBinlogs(l.binlogs);
    TrimmedToOne(l, after, read);
    OldUnreadIsUnkept(l, unread, read);
    UnreadIsLost(l, unread, read, after, "a", 2 * MILLI, 2 * MILLI);
  }

  lemma UnreadIsLost(l: Lineage, unread: FullBackup, read: FullBackup, after: Lineage,
      active: string, cutoff: int, target: int)
    requires l.fulls == [read] && Unread(l, [unread]) && FullySwept(l, after, active, cutoff)
    requires WellNamed(l.binlogs) && WellNamed(after.binlogs) && target >= cutoff
    requires unread.coordinate in l.binlogs && read.coordinate in l.binlogs
    requires unread.coordinate.number.Some? && read.coordinate.number.Some?
    requires unread.takenAt < read.takenAt || read.takenAt < unread.takenAt
    requires unread.takenAt < read.takenAt <==> unread.coordinate.number.value < read.coordinate.number.value
    requires Qualifies(unread, target) && (unread.takenAt < read.takenAt ==> !Qualifies(read, target))
    requires !KeepsItsBinlogs(l, active, cutoff, unread)
    ensures NewestQualifying([read] + [unread], target) == Some(unread)
    ensures !SameRestoreAmong(l, [unread], after, target)
  {
    if unread.takenAt < read.takenAt {
      OneOfOne(unread, read, target);
      TwoAreOrderly(unread, read, [read] + [unread], l.binlogs);
    } else {
      OneOfOne(read, unread, target);
      TwoAreOrderly(read, unread, [read] + [unread], l.binlogs);
    }
    RestoreSurvivesExactly(l, [unread], after, active, cutoff, target, unread);
  }

  lemma OldUnreadIsUnkept(l: Lineage, unread: FullBackup, read: FullBackup)
    requires l.fulls == [read] && l.serverUuid == "a" && unread != read && Numbered(1) in l.binlogs
    requires unread.coordinate == Numbered(1) && read.coordinate == Numbered(3) && OldestKept(l, "a", 2 * MILLI) == read
    ensures !KeepsItsBinlogs(l, "a", 2 * MILLI, unread)
  {}

  /** A newer full that could not be read: the one that was is past the horizon, so the dead lineage
      retires whole, under a full that is inside it. */
  lemma NewerUnreadFullLosesItsLineage()
    ensures var read, unread := TakenAt(1, 1), TakenAt(3, 2);
      var l := Lineage("a", [read], 2, [], [Numbered(1), Numbered(2)], map[]);
      var after := Lineage("a", [], 1, [], [], map[]);
      && FateOf(l, "z", 2 * MILLI) == RetiredWhole
      && FullySwept(l, after, "z", 2 * MILLI)
      && NewestQualifying([read] + [unread], 3 * MILLI) == Some(unread)
      && !SameRestoreAmong(l, [unread], after, 3 * MILLI)
  {
    var read, unread := TakenAt(1, 1), TakenAt(3, 2);
    var binlogs := [Numbered(1), Numbered(2)];
    var l := Lineage("a", [read], 2, [], binlogs, map[]);
    var after := Lineage("a", [], 1, [], [], map[]);
    assert binlogs[0] == Numbered(1) && binlogs[1] == Numbered(2);
    RetiredWithOne(l, after, read, unread);
    UnreadIsLost(l, unread, read, after, "z", 2 * MILLI, 3 * MILLI);
  }

  lemma RetiredWithOne(l: Lineage, after: Lineage, read: FullBackup, unread: FullBackup)
    requires l.fulls == [read] && l.serverUuid == "a" && read.takenAt == MILLI && unread != read
    requires Numbered(2) in l.binlogs && unread.coordinate == Numbered(2)
    requires after.fulls == [] && after.binlogs == []
    ensures FateOf(l, "z", 2 * MILLI) == RetiredWhole && FullySwept(l, after, "z", 2 * MILLI)
    ensures !KeepsItsBinlogs(l, "z", 2 * MILLI, unread)
  {
    assert "a"[0] != "z"[0];
  }
}
