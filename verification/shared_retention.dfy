/** One retention sweep when all lineages are streams of one history: fulls rank across the whole
    archive, and the oldest full kept divides it. */
module SharedRetention {
  import opened Common
  import opened BinlogNames
  import opened Archive

  /** Every full the bucket holds a meta for could be read. */
  predicate AllReadable(lineages: seq<Lineage>) {
    forall l | l in lineages :: l.fullObjectsSeen <= |l.fulls|
  }

  function KeptFulls(lineages: seq<Lineage>, cutoff: int): seq<FullBackup> {
    FullsToKeep(AllFulls(lineages), cutoff, MIN_ACTIVE_FULLS_KEPT)
  }

  /** The oldest full kept, when the pass may expire anything at all. */
  function Floor(lineages: seq<Lineage>, cutoff: int): (r: Option<FullBackup>)
    ensures r.Some? ==> AllReadable(lineages)
  {
    var kept := KeptFulls(lineages, cutoff);
    if AllReadable(lineages) && kept != [] then Some(kept[|kept| - 1]) else None
  }

  lemma FloorIsTheOldestKept(lineages: seq<Lineage>, cutoff: int)
    requires Floor(lineages, cutoff).Some?
    ensures var kept := KeptFulls(lineages, cutoff);
      kept != [] && Floor(lineages, cutoff).value == kept[|kept| - 1]
  {}

  /** Whether the floor dump already holds everything in a binlog: by sequence in the floor's
      own lineage, by upload time elsewhere; an unknown age proves nothing. */
  predicate Redundant(l: Lineage, floor: FullBackup, b: Binlog) {
    if l.serverUuid == floor.serverUuid then
      b.number.Some? && floor.coordinate.number.Some? && b.number.value < floor.coordinate.number.value
    else
      b.name in l.binlogAges && l.binlogAges[b.name] < floor.takenAt
  }

  function UnkeptRule(kept: set<string>): FullBackup -> bool {
    (f: FullBackup) => f.dumpKey !in kept
  }

  function RedundantRule(l: Lineage, floor: FullBackup): Binlog -> bool {
    (b: Binlog) => Redundant(l, floor, b)
  }

  function Unkept(fulls: seq<FullBackup>, kept: set<string>): seq<FullBackup> {
    Filter(fulls, UnkeptRule(kept))
  }

  function RedundantFiles(l: Lineage, floor: FullBackup): seq<Binlog> {
    Filter(l.binlogs, RedundantRule(l, floor))
  }

  /** A lineage that loses something and keeps nothing. */
  predicate Emptied(l: Lineage, active: string, kept: set<string>, floor: FullBackup) {
    && l.serverUuid != active
    && (l.fulls != [] || l.binlogs != [])
    && |Unkept(l.fulls, kept)| == |l.fulls|
    && |RedundantFiles(l, floor)| == |l.binlogs|
  }

  function AllOverdue(lineages: seq<Lineage>, now: int): seq<string> {
    if lineages == [] then []
    else AllOverdue(lineages[..|lineages| - 1], now) + OverdueOrphans(lineages[|lineages| - 1].orphanDumps, now)
  }

  function AddLineage(plan: RetentionPlan, l: Lineage, active: string, kept: set<string>,
      floor: FullBackup): RetentionPlan {
    RetentionPlan(
      plan.expiredFullKeys + FullKeys(Unkept(l.fulls, kept)),
      plan.expiredBinlogs + Tagged(l.serverUuid, RedundantFiles(l, floor)),
      plan.orphanDumpKeys,
      plan.retiredLineages + if Emptied(l, active, kept, floor) then [l.serverUuid] else [])
  }

  function PlanLineages(lineages: seq<Lineage>, active: string, kept: set<string>, floor: FullBackup): RetentionPlan {
    if lineages == [] then NOTHING
    else AddLineage(PlanLineages(lineages[..|lineages| - 1], active, kept, floor), lineages[|lineages| - 1], active,
      kept, floor)
  }

  function PlanShared(input: RetentionInput, cutoff: int): RetentionPlan {
    var floor := Floor(input.lineages, cutoff);
    var plan :=
      if floor.None? then NOTHING
      else
        var active := if input.activeUuid.Some? then input.activeUuid.value else "";
        PlanLineages(input.lineages, active, DumpKeys(KeptFulls(input.lineages, cutoff)), floor.value);
    plan.(orphanDumpKeys := AllOverdue(input.lineages, input.now))
  }

  lemma PlanSnoc(ls: seq<Lineage>, i: nat, active: string, kept: set<string>, floor: FullBackup)
    requires i < |ls|
    ensures PlanLineages(ls[..i + 1], active, kept, floor)
      == AddLineage(PlanLineages(ls[..i], active, kept, floor), ls[i], active, kept, floor)
  {
    assert ls[..i + 1][..i] == ls[..i];
  }

  /** The orphan loop over the lineages. */
  method CollectAllOverdue(ls: seq<Lineage>, now: int) returns (keys: seq<string>)
    ensures keys == AllOverdue(ls, now)
  {
    keys := [];
    for i := 0 to |ls|
      invariant keys == AllOverdue(ls[..i], now)
    {
      assert ls[..i + 1][..i] == ls[..i];
      var own := CollectOverdue(ls[i].orphanDumps, now);
      keys := keys + own;
    }
    assert ls[..|ls|] == ls;
  }

  /** The whole shared-history pass. */
  method PlanSharedRetention(input: RetentionInput, cutoff: int) returns (plan: RetentionPlan)
    ensures plan == PlanShared(input, cutoff)
  {
    var ls := input.lineages;
    var orphans := CollectAllOverdue(ls, input.now);
    plan := NOTHING;
    var floor := Floor(ls, cutoff);
    if floor.None? {
      plan := plan.(orphanDumpKeys := orphans);
      return;
    }
    var active := if input.activeUuid.Some? then input.activeUuid.value else "";
    var kept := DumpKeys(KeptFulls(ls, cutoff));
    for i := 0 to |ls|
      invariant plan == PlanLineages(ls[..i], active, kept, floor.value)
    {
      var keys, keptFulls := CollectFulls(ls[i].fulls, UnkeptRule(kept));
      var files, keptFiles := CollectBinlogs(ls[i].serverUuid, ls[i].binlogs, RedundantRule(ls[i], floor.value));
      var touched := keys != [] || files != [];
      PlanSnoc(ls, i, active, kept, floor.value);
      plan := RetentionPlan(
        plan.expiredFullKeys + keys,
        plan.expiredBinlogs + files,
        plan.orphanDumpKeys,
        plan.retiredLineages
          + if ls[i].serverUuid != active && touched && keptFulls == 0 && keptFiles == 0
            then [ls[i].serverUuid] else []);
    }
    assert ls[..|ls|] == ls;
    plan := plan.(orphanDumpKeys := orphans);
  }

  // ----- what the plan names -----

  lemma {:induction false} PlannedFulls(lineages: seq<Lineage>, active: string, kept: set<string>, floor: FullBackup,
      k: Object)
    ensures k in PlanLineages(lineages, active, kept, floor).expiredFullKeys <==>
      exists f :: f in AllFulls(lineages) && f.dumpKey !in kept && IsObjectOf(k, f)
  {
    if lineages != [] {
      var front, last := lineages[..|lineages| - 1], lineages[|lineages| - 1];
      PlannedFulls(front, active, kept, floor, k);
      FullKeysNames(Unkept(last.fulls, kept), k);
      assert forall f :: f in AllFulls(lineages) <==> f in AllFulls(front) || f in last.fulls;
    }
  }

  lemma {:induction false} PlannedBinlogs(lineages: seq<Lineage>, active: string, kept: set<string>, floor: FullBackup,
      uuid: string, b: Binlog)
    ensures (uuid, b) in PlanLineages(lineages, active, kept, floor).expiredBinlogs <==>
      exists l :: l in lineages && l.serverUuid == uuid && b in l.binlogs && Redundant(l, floor, b)
  {
    if lineages != [] {
      var front, last := lineages[..|lineages| - 1], lineages[|lineages| - 1];
      assert lineages == front + [last];
      PlannedBinlogs(front, active, kept, floor, uuid, b);
      TaggedFiles(last.serverUuid, RedundantFiles(last, floor), (uuid, b));
    }
  }

  lemma {:induction false} OverdueExactly(lineages: seq<Lineage>, now: int, k: string)
    ensures k in AllOverdue(lineages, now) <==>
      exists l, o :: l in lineages && o in l.orphanDumps && o.0 == k && now - o.1 > 6 * 3600 * 1_000_000_000
  {
    if lineages != [] {
      var front, last := lineages[..|lineages| - 1], lineages[|lineages| - 1];
      assert lineages == front + [last];
      OverdueExactly(front, now, k);
      OverdueNames(last.orphanDumps, now, k);
    }
  }

  /** Orphans past the grace are planned whatever the floor, an unread full or none notwithstanding. */
  lemma SharedOrphansExactly(input: RetentionInput, cutoff: int, k: string)
    ensures k in PlanShared(input, cutoff).orphanDumpKeys <==>
      exists l, o :: l in input.lineages && o in l.orphanDumps && o.0 == k && input.now - o.1 > 6 * 3600 * 1_000_000_000
  {
    OverdueExactly(input.lineages, input.now, k);
  }

  lemma OrphansAreNoFulls(lineages: seq<Lineage>, now: int, f: FullBackup)
    requires WellKeyed(lineages) && f in AllFulls(lineages)
    ensures f.dumpKey !in AllOverdue(lineages, now)
  {
    if f.dumpKey in AllOverdue(lineages, now) {
      OverdueExactly(lineages, now, f.dumpKey);
      assert false;
    }
  }

  lemma KeptByKey(lineages: seq<Lineage>, cutoff: int, f: FullBackup)
    requires WellKeyed(lineages) && f in AllFulls(lineages)
    ensures f.dumpKey in DumpKeys(KeptFulls(lineages, cutoff)) <==> f in KeptFulls(lineages, cutoff)
  {
    KeptAreNewest(AllFulls(lineages), cutoff, MIN_ACTIVE_FULLS_KEPT);
  }

  lemma PlannedKey(input: RetentionInput, cutoff: int, f: FullBackup, k: Object)
    requires WellKeyed(input.lineages) && f in AllFulls(input.lineages) && IsObjectOf(k, f)
    requires Floor(input.lineages, cutoff).Some?
    ensures k in PlanShared(input, cutoff).expiredFullKeys <==> f !in KeptFulls(input.lineages, cutoff)
  {
    var ls := input.lineages;
    var active := if input.activeUuid.Some? then input.activeUuid.value else "";
    PlannedFulls(ls, active, DumpKeys(KeptFulls(ls, cutoff)), Floor(ls, cutoff).value, k);
    KeptByKey(ls, cutoff, f);
  }

  /** In a well-keyed archive the sweep names exactly the fulls outside the kept window, each by
      both its objects, and no orphan it names is a full's dump. */
  lemma OnlyUnkeptFullsExpire(input: RetentionInput, cutoff: int, f: FullBackup, k: Object)
    requires WellKeyed(input.lineages) && f in AllFulls(input.lineages) && IsObjectOf(k, f)
    ensures k in PlanShared(input, cutoff).expiredFullKeys <==>
      Floor(input.lineages, cutoff).Some? && f !in KeptFulls(input.lineages, cutoff)
    ensures f.dumpKey !in PlanShared(input, cutoff).orphanDumpKeys
  {
    OrphansAreNoFulls(input.lineages, input.now, f);
    if Floor(input.lineages, cutoff).Some? {
      PlannedKey(input, cutoff, f, k);
    }
  }

  // ----- the plan, from the fields of the listing -----

  /** Some full whose meta the bucket holds could not be read. */
  predicate SomeUnread(lineages: seq<Lineage>) {
    exists l :: l in lineages && l.fullObjectsSeen > |l.fulls|
  }

  /** The oldest of the fulls the archive-wide window keeps. */
  predicate IsOldestKept(lineages: seq<Lineage>, cutoff: int, floor: FullBackup) {
    && floor in FullsToKeep(AllFulls(lineages), cutoff, 2)
    && forall g | g in FullsToKeep(AllFulls(lineages), cutoff, 2) :: floor.takenAt <= g.takenAt
  }

  /** Its dump holds what the binlog carries: by sequence in the full's own lineage, by upload time elsewhere. */
  predicate Supersedes(floor: FullBackup, l: Lineage, b: Binlog) {
    if l.serverUuid == floor.serverUuid then
      b.number.Some? && floor.coordinate.number.Some? && b.number.value < floor.coordinate.number.value
    else b.name in l.binlogAges && l.binlogAges[b.name] < floor.takenAt
  }

  /** While some full is unread, or there is none at all, a pass expires nothing and retires nothing. */
  lemma InertExactly(input: RetentionInput, cutoff: int)
    ensures Floor(input.lineages, cutoff).None? <==> SomeUnread(input.lineages) || AllFulls(input.lineages) == []
    ensures SomeUnread(input.lineages) || AllFulls(input.lineages) == [] ==>
      var plan := PlanShared(input, cutoff);
      plan.expiredFullKeys == [] && plan.expiredBinlogs == [] && plan.retiredLineages == []
  {
    KeptAreNewest(AllFulls(input.lineages), cutoff, 2);
  }

  lemma FloorIsOldest(lineages: seq<Lineage>, cutoff: int, f: FullBackup)
    requires DistinctTimes(AllFulls(lineages)) && Floor(lineages, cutoff).Some?
    ensures IsOldestKept(lineages, cutoff, f) <==> f == Floor(lineages, cutoff).value
  {
    FloorIsTheOldestKept(lineages, cutoff);
    OldestIsLast(AllFulls(lineages), cutoff, f);
  }

  lemma OldestIsLast(fulls: seq<FullBackup>, cutoff: int, f: FullBackup)
    requires DistinctTimes(fulls) && FullsToKeep(fulls, cutoff, 2) != []
    ensures var kept := FullsToKeep(fulls, cutoff, 2);
      (f in kept && forall g | g in kept :: f.takenAt <= g.takenAt) <==> f == kept[|kept| - 1]
  {
    KeptAreNewest(fulls, cutoff, 2);
    var kept := FullsToKeep(fulls, cutoff, 2);
    assert kept[|kept| - 1] in kept;
  }

  /** Exactly these binlogs are named: where every full was read, those the oldest kept full supersedes. */
  lemma SharedBinlogsExactly(input: RetentionInput, cutoff: int, uuid: string, b: Binlog)
    requires DistinctTimes(AllFulls(input.lineages))
    ensures (uuid, b) in PlanShared(input, cutoff).expiredBinlogs <==>
      && !SomeUnread(input.lineages)
      && exists l, floor :: l in input.lineages && l.serverUuid == uuid && b in l.binlogs
           && IsOldestKept(input.lineages, cutoff, floor) && Supersedes(floor, l, b)
  {
    var ls := input.lineages;
    InertExactly(input, cutoff);
    if Floor(ls, cutoff).Some? {
      var floor := Floor(ls, cutoff).value;
      forall f
        ensures IsOldestKept(ls, cutoff, f) <==> f == floor
      {
        FloorIsOldest(ls, cutoff, f);
      }
      var active := if input.activeUuid.Some? then input.activeUuid.value else "";
      PlannedBinlogs(ls, active, DumpKeys(KeptFulls(ls, cutoff)), floor, uuid, b);
      assert forall l :: Redundant(l, floor, b) <==> Supersedes(floor, l, b);
      assert IsOldestKept(ls, cutoff, floor);
    }
  }

  /** And exactly these fulls, by both their objects: where every full was read, those outside the window. */
  lemma SharedFullsExactly(input: RetentionInput, cutoff: int, f: FullBackup, k: Object)
    requires WellKeyed(input.lineages) && f in AllFulls(input.lineages) && IsObjectOf(k, f)
    ensures k in PlanShared(input, cutoff).expiredFullKeys <==>
      !SomeUnread(input.lineages) && f !in FullsToKeep(AllFulls(input.lineages), cutoff, 2)
  {
    InertExactly(input, cutoff);
    OnlyUnkeptFullsExpire(input, cutoff, f, k);
  }
}
