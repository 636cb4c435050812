/** Replaying one independent lineage: where a hole in it may be forgiven, and where not. */
module LineageRestore {
  import opened Common
  import opened BinlogNames
  import opened ReplayPlan
  import opened Archive
  import opened SharedRestore

  datatype LineageOutcome = Served(achieved: int) | NotStaged | BlockedByGap(gap: BinlogGap) | EndsShort

  /** The run that replayed ends short of the target, so whatever the hole swallowed may belong before it. */
  predicate GapBlocksTarget(lastEvent: int, target: int) {
    lastEvent < target
  }

  function RunOf(full: FullBackup, names: seq<Binlog>): LineageRun {
    LineageRun(full.serverUuid, Plan(names, full.coordinate).run, Some(full.position), 0)
  }

  /** Where the replay ends: with nothing to replay, the dump's own instant. */
  function LastEvent(store: Store, full: FullBackup, run: LineageRun): int
    requires Readable(store, run, |run.files|)
  {
    if run.files == [] then full.takenAt else store((run.serverUuid, run.files[|run.files| - 1])).value.lastEventAt
  }

  function AchievedPoint(store: Store, full: FullBackup, run: LineageRun, target: int): int
    requires Readable(store, run, |run.files|)
  {
    if run.files == [] then full.takenAt else Earlier(LastEvent(store, full, run), target)
  }

  /** An event of the transaction in a file of the run, before the second of the target -- and in the coordinate
      file, at or past the position the dump shows. */
  predicate ReplayedEvent(store: Store, full: FullBackup, target: int, f: Binlog, e: Event, id: Gtid) {
    && store((full.serverUuid, f)).Some? && e in store((full.serverUuid, f)).value.events && e.id == id
    && e.at / 1_000_000_000 < target / 1_000_000_000
    && (f == full.coordinate ==> e.position >= full.position)
  }

  ghost predicate ReplaysEvent(store: Store, full: FullBackup, names: seq<Binlog>, target: int, id: Gtid) {
    exists f, e :: f in RunOf(full, names).files && ReplayedEvent(store, full, target, f, e, id)
  }

  /** The restored set, by the fields of the events alone. */
  ghost predicate ServedSet(store: Store, full: FullBackup, names: seq<Binlog>, loaded: GtidSet, target: int,
      executed: GtidSet) {
    forall id :: id in executed <==> id in loaded || ReplaysEvent(store, full, names, target, id)
  }

  lemma CoordinateComesFirst(full: FullBackup, names: seq<Binlog>, i: nat)
    requires WellNamed(names) && full.coordinate.number.Some? && i < |RunOf(full, names).files|
    ensures RunOf(full, names).files[i] == full.coordinate <==> i == 0
  {
    if RunOf(full, names).files[i] == full.coordinate { StartComesFirst(names, full.coordinate, i); }
    if full.coordinate in names {
      RunIsMaximal(names, full.coordinate);
    } else {
      ReplayWithoutTheStartFile(names, full.coordinate);
    }
  }

  lemma DeliveredByEvents(store: Store, full: FullBackup, run: LineageRun, i: nat, target: int, id: Gtid)
    requires run.serverUuid == full.serverUuid && run.startPosition == Some(full.position) && i < |run.files|
    requires run.files[i] == full.coordinate <==> i == 0
    ensures DeliveredAt(store, run, i, target, id) <==>
      exists e :: ReplayedEvent(store, full, target, run.files[i], e, id)
  {
    var k, start := (run.serverUuid, run.files[i]), StartOf(run, i);
    if DeliveredAt(store, run, i, target, id) {
      var e :| e in store(k).value.events && (start.None? || e.position >= start.value)
        && Seconds(e.at) < Seconds(target) && e.id == id;
      assert ReplayedEvent(store, full, target, run.files[i], e, id);
    }
  }

  lemma RunReplaysExactly(store: Store, full: FullBackup, names: seq<Binlog>, target: int, id: Gtid)
    requires WellNamed(names) && full.coordinate.number.Some?
    requires var run := RunOf(full, names); Readable(store, run, |run.files|)
    ensures var run := RunOf(full, names);
      id in DeliveredBy(store, run, |run.files|, target) <==> ReplaysEvent(store, full, names, target, id)
  {
    var run := RunOf(full, names);
    RunDelivers(store, run, |run.files|, target, id);
    forall i | 0 <= i < |run.files|
      ensures DeliveredAt(store, run, i, target, id) <==>
        exists e :: ReplayedEvent(store, full, target, run.files[i], e, id)
    {
      CoordinateComesFirst(full, names, i);
      DeliveredByEvents(store, full, run, i, target, id);
    }
  }

  lemma ServedSetExactly(store: Store, full: FullBackup, names: seq<Binlog>, loaded: GtidSet, target: int)
    requires WellNamed(names) && full.coordinate.number.Some?
    requires var run := RunOf(full, names); Readable(store, run, |run.files|)
    ensures var run := RunOf(full, names);
      ServedSet(store, full, names, loaded, target, loaded + DeliveredBy(store, run, |run.files|, target))
  {
    var run := RunOf(full, names);
    forall id
      ensures id in DeliveredBy(store, run, |run.files|, target) <==> ReplaysEvent(store, full, names, target, id)
    {
      RunReplaysExactly(store, full, names, target, id);
    }
  }

  /** The independent-history replay, from the listing to the verdict. */
  method ReplayBinlogs(store: Store, full: FullBackup, names: seq<Binlog>, loaded: GtidSet, target: int,
      rotateSeconds: nat)
    returns (r: LineageOutcome, executed: GtidSet)
    ensures var run, gap := RunOf(full, names), Plan(names, full.coordinate).gap;
      if !Readable(store, run, |run.files|) then r == NotStaged
      else if gap.Some? && LastEvent(store, full, run) < target then r == BlockedByGap(gap.value)
      else if !WithinBound(target, AchievedPoint(store, full, run, target), rotateSeconds) then r == EndsShort
      else
        && r == Served(AchievedPoint(store, full, run, target))
        && executed == loaded + DeliveredBy(store, run, |run.files|, target)
    ensures 2 * rotateSeconds + 60 <= 0x7FFF_FFFF_FFFF_FFFF && r.Served? ==>
      target - r.achieved < (2 * rotateSeconds + 61) * 1_000_000_000
    ensures 2 * rotateSeconds + 60 <= 0x7FFF_FFFF_FFFF_FFFF ==>
      var run, gap := RunOf(full, names), Plan(names, full.coordinate).gap;
      Readable(store, run, |run.files|) && (gap.None? || LastEvent(store, full, run) >= target) ==>
        (r == EndsShort <==>
          target - AchievedPoint(store, full, run, target) >= (2 * rotateSeconds + 61) * 1_000_000_000)
    ensures r.Served? && WellNamed(names) && full.coordinate.number.Some? ==>
      ServedSet(store, full, names, loaded, target, executed)
  {
    executed := loaded;
    var plan := BinlogsToReplay(names, full.coordinate);
    var run := LineageRun(full.serverUuid, plan.run, Some(full.position), 0);
    var lastEvent, achieved := full.takenAt, full.takenAt;
    if run.files != [] {
      for k := 0 to |run.files|
        invariant Readable(store, run, k)
      {
        if store((run.serverUuid, run.files[k])).None? {
          return NotStaged, executed;
        }
      }
      executed, lastEvent := ReplayDownloaded(store, loaded, run, target);
      achieved := Earlier(lastEvent, target);
    }
    if plan.gap.Some? && GapBlocksTarget(lastEvent, target) {
      return BlockedByGap(plan.gap.value), executed;
    }
    WithinBoundExactly(target, achieved, rotateSeconds);
    if !WithinBound(target, achieved, rotateSeconds) {
      return EndsShort, executed;
    }
    r := Served(achieved);
    if WellNamed(names) && full.coordinate.number.Some? {
      ServedSetExactly(store, full, names, loaded, target);
    }
  }

  /** What the lineage's server really wrote, and when: later files hold nothing older than the last
      event of an earlier one, and what the dump does not show is no older than the dump. */
  ghost predicate InClockOrder(written: Written, store: Store, full: FullBackup) {
    && (forall k | store(k).Some? :: k in written && written[k] == store(k).value)
    && (forall j, k, e | j in written && k in written && Precedes(j, k) && e in written[k].events ::
      e.at >= written[j].lastEventAt)
    && (forall k, e | k in written && e in written[k].events && PastTheDump(full, k, e) :: e.at >= full.takenAt)
  }

  /** An event the dump does not show: at or past the coordinate. */
  predicate PastTheDump(full: FullBackup, k: FileKey, e: Event) {
    && k.0 == full.serverUuid && k.1.number.Some? && full.coordinate.number.Some?
    && k.1.number.value >= full.coordinate.number.value
    && (k.1.number.value == full.coordinate.number.value ==> e.position >= full.position)
  }

  /** A restore that is served misses nothing before the target's second that any file held which
      the lineage wrote before some file still archived -- lost files included. Only the end of
      the lineage may be short, and that is what the rotation bound limits. */
  lemma ServedMissesNothing(
      written: Written, store: Store, full: FullBackup, names: seq<Binlog>, target: int, k: FileKey, e: Event,
      later: Binlog)
    requires WellNamed(names) && full.coordinate.number.Some?
    requires forall b | b in names || (full.serverUuid, b) in written ::
      b.number == full.coordinate.number ==> b == full.coordinate
    requires forall b, c {:trigger b in names, (full.serverUuid, c) in written} |
      b in names && (full.serverUuid, c) in written && b.number == c.number :: b == c
    requires InClockOrder(written, store, full)
    requires var run := RunOf(full, names);
      && Readable(store, run, |run.files|)
      && !(Plan(names, full.coordinate).gap.Some? && GapBlocksTarget(LastEvent(store, full, run), target))
    requires k in written && e in written[k].events && PastTheDump(full, k, e) && Seconds(e.at) < Seconds(target)
    requires later in names && later.number.value >= k.1.number.value
    ensures e.id in DeliveredBy(store, RunOf(full, names), |RunOf(full, names).files|, target)
  {
    var run := RunOf(full, names);
    assert later.number.value > full.coordinate.number.value || later == full.coordinate;
    if full.coordinate in names {
      RunIsMaximal(names, full.coordinate);
      var n := k.1.number.value - full.coordinate.number.value;
      if n < |run.files| {
        HeldInTheRun(written, store, full, names, target, k, e, n);
      } else {
        assert later.number.value != full.coordinate.number.value + |run.files|;
        PastTheRunIsPastTheTarget(written, store, full, names, target, k, e);
      }
    } else {
      ReplayWithoutTheStartFile(names, full.coordinate);
    }
  }

  /** No file of the run has a higher sequence. */
  predicate IsHighest(f: Binlog, run: seq<Binlog>) {
    f in run && f.number.Some? && forall g | g in run :: g.number.Some? && g.number.value <= f.number.value
  }

  lemma HighestIsLast(names: seq<Binlog>, start: Binlog, run: seq<Binlog>, f: Binlog)
    requires WellNamed(names) && run == Plan(names, start).run && IsHighest(f, run)
    ensures f == run[|run| - 1]
  {
    if start in names {
      RunIsMaximal(names, start);
    } else {
      ReplayWithoutTheStartFile(names, start);
    }
  }

  /** How far a replay gets: to the end of the file of the highest sequence in its run, and no further than the
      target; with no run, to the dump. */
  lemma ReachedFromTheRun(store: Store, full: FullBackup, names: seq<Binlog>, target: int, f: Binlog)
    requires WellNamed(names)
    requires var run := RunOf(full, names); Readable(store, run, |run.files|)
    ensures var run := RunOf(full, names);
      run.files == [] ==> LastEvent(store, full, run) == AchievedPoint(store, full, run, target) == full.takenAt
    ensures var run := RunOf(full, names);
      IsHighest(f, run.files) ==>
        store((full.serverUuid, f)).Some? &&
        var end := store((full.serverUuid, f)).value.lastEventAt;
        LastEvent(store, full, run) == end
        && AchievedPoint(store, full, run, target) == if end <= target then end else target
  {
    var run := RunOf(full, names);
    if IsHighest(f, run.files) {
      HighestIsLast(names, full.coordinate, run.files, f);
      assert store((run.serverUuid, run.files[|run.files| - 1])).Some?;
    }
  }

  lemma RunFileAt(names: seq<Binlog>, start: Binlog, run: seq<Binlog>, n: nat)
    requires WellNamed(names) && start in names && run == Plan(names, start).run && n < |run|
    ensures run[n] in names
    ensures start.number.Some? && run[n].number == Some(start.number.value + n)
  {
    RunIsMaximal(names, start);
    assert run[n] in names by { RunIsListed(names, start); }
  }

  lemma HeldInTheRun(written: Written, store: Store, full: FullBackup, names: seq<Binlog>,
      target: int, k: FileKey, e: Event, n: nat)
    requires WellNamed(names) && full.coordinate in names
    requires forall b | b in names && b.number == k.1.number :: b == k.1
    requires InClockOrder(written, store, full)
    requires var run := RunOf(full, names); Readable(store, run, |run.files|) && n < |run.files|
    requires k in written && e in written[k].events && PastTheDump(full, k, e) && Seconds(e.at) < Seconds(target)
    requires n == k.1.number.value - full.coordinate.number.value
    ensures e.id in DeliveredBy(store, RunOf(full, names), |RunOf(full, names).files|, target)
  {
    var run := RunOf(full, names);
    RunFileAt(names, full.coordinate, run.files, n);
    EventDelivered(written, store, full, run, target, k, e, n);
  }

  lemma EventDelivered(written: Written, store: Store, full: FullBackup, run: LineageRun,
      target: int, k: FileKey, e: Event, n: nat)
    requires InClockOrder(written, store, full)
    requires run.serverUuid == full.serverUuid && run.startPosition == Some(full.position)
    requires Readable(store, run, |run.files|) && n < |run.files| && k == (run.serverUuid, run.files[n])
    requires k in written && e in written[k].events && PastTheDump(full, k, e) && Seconds(e.at) < Seconds(target)
    requires n == k.1.number.value - full.coordinate.number.value
    ensures e.id in DeliveredBy(store, run, |run.files|, target)
  {
    assert store((run.serverUuid, run.files[n])).Some?;
    assert DeliveredAt(store, run, n, target, e.id);
    RunDelivers(store, run, |run.files|, target, e.id);
  }

  lemma PastTheRunIsPastTheTarget(written: Written, store: Store, full: FullBackup,
      names: seq<Binlog>, target: int, k: FileKey, e: Event)
    requires WellNamed(names) && full.coordinate in names && full.coordinate.number.Some?
    requires InClockOrder(written, store, full)
    requires var run := RunOf(full, names);
      Readable(store, run, |run.files|) && run.files != [] && !GapBlocksTarget(LastEvent(store, full, run), target)
    requires k in written && e in written[k].events && k.0 == full.serverUuid && k.1.number.Some?
    requires k.1.number.value >= full.coordinate.number.value + |RunOf(full, names).files|
    ensures e.at >= target
  {
    var run := RunOf(full, names);
    RunIsMaximal(names, full.coordinate);
    var last := run.files[|run.files| - 1];
    assert store((run.serverUuid, last)).Some?;
    assert Precedes((full.serverUuid, last), k);
  }
}
