/** One retention sweep, and what it leaves of a lineage's restores when lineages are
    independent histories. */
module Retention {
  import opened Common
  import opened BinlogNames
  import opened ReplayPlan
  import opened Archive
  import SharedRetention

  /** What becomes of one lineage. */
  datatype Fate = Untouched | RetiredWhole | Trimmed(kept: seq<FullBackup>)

  function LatestTakenAt(fulls: seq<FullBackup>): (t: int)
    requires fulls != []
    ensures exists f :: f in fulls && f.takenAt == t
    ensures forall f | f in fulls :: f.takenAt <= t
  {
    var front, last := fulls[..|fulls| - 1], fulls[|fulls| - 1];
    assert fulls == front + [last];
    if front == [] then last.takenAt
    else if last.takenAt >= LatestTakenAt(front) then last.takenAt
    else LatestTakenAt(front)
  }

  /** The active lineage never retires and always keeps its count of fulls; a dead one retires
      once no full of its own is inside the horizon; unread fulls spare a lineage that shows none. */
  function FateOf(l: Lineage, active: string, cutoff: int): Fate {
    if l.fulls == [] then
      if l.fullObjectsSeen == 0 && l.serverUuid != active && l.binlogs != [] then RetiredWhole else Untouched
    else if l.serverUuid != active && LatestTakenAt(l.fulls) < cutoff then RetiredWhole
    else Trimmed(FullsToKeep(l.fulls, cutoff, if l.serverUuid == active then MIN_ACTIVE_FULLS_KEPT else 1))
  }

  function Fates(active: string, cutoff: int): Lineage -> Fate {
    (l: Lineage) => FateOf(l, active, cutoff)
  }

  predicate DropsFull(fate: Fate, f: FullBackup) {
    match fate
    case Untouched => false
    case RetiredWhole => true
    case Trimmed(kept) => f.dumpKey !in DumpKeys(kept)
  }

  predicate BelowFloor(kept: seq<FullBackup>, b: Binlog) {
    kept != [] && b.number.Some? && kept[|kept| - 1].coordinate.number.Some?
    && b.number.value < kept[|kept| - 1].coordinate.number.value
  }

  predicate DropsBinlog(fate: Fate, b: Binlog) {
    match fate
    case Untouched => false
    case RetiredWhole => true
    case Trimmed(kept) => BelowFloor(kept, b)
  }

  function FullRule(fate: Fate): FullBackup -> bool {
    (f: FullBackup) => DropsFull(fate, f)
  }

  function BinlogRule(fate: Fate): Binlog -> bool {
    (b: Binlog) => DropsBinlog(fate, b)
  }

  function DroppedFulls(fate: Fate, fulls: seq<FullBackup>): seq<FullBackup> {
    Filter(fulls, FullRule(fate))
  }

  function DroppedBinlogs(fate: Fate, files: seq<Binlog>): seq<Binlog> {
    Filter(files, BinlogRule(fate))
  }

  function AddLineage(plan: RetentionPlan, l: Lineage, fates: Lineage -> Fate, now: int): RetentionPlan {
    var fate := fates(l);
    RetentionPlan(
      plan.expiredFullKeys + FullKeys(DroppedFulls(fate, l.fulls)),
      plan.expiredBinlogs + Tagged(l.serverUuid, DroppedBinlogs(fate, l.binlogs)),
      plan.orphanDumpKeys + OverdueOrphans(l.orphanDumps, now),
      plan.retiredLineages + if fate.RetiredWhole? then [l.serverUuid] else [])
  }

  function PlanLineages(lineages: seq<Lineage>, fates: Lineage -> Fate, now: int): RetentionPlan {
    if lineages == [] then NOTHING
    else AddLineage(PlanLineages(lineages[..|lineages| - 1], fates, now), lineages[|lineages| - 1], fates, now)
  }

  predicate ActiveHasFull(input: RetentionInput, active: string) {
    exists l :: l in input.lineages && l.serverUuid == active && l.fulls != []
  }

  /** Whether this pass works lineage by lineage and may expire anything. */
  predicate SweepsIndependently(input: RetentionInput) {
    && input.activeUuid.Some? && input.horizon > 0
    && !input.sharedHistoryMarker && !SharesHistory(input.lineages)
    && ActiveHasFull(input, input.activeUuid.value)
  }

  function FatesIn(input: RetentionInput): Lineage -> Fate
    requires input.activeUuid.Some?
  {
    Fates(input.activeUuid.value, input.now - input.horizon)
  }

  function FateIn(input: RetentionInput, l: Lineage): Fate
    requires input.activeUuid.Some?
  {
    FateOf(l, input.activeUuid.value, input.now - input.horizon)
  }

  /** What a pass over independent lineages plans, once it may expire anything. */
  function IndependentPlan(input: RetentionInput): RetentionPlan
    requires input.activeUuid.Some?
  {
    PlanLineages(input.lineages, FatesIn(input), input.now)
  }

  function PlanOf(input: RetentionInput): RetentionPlan {
    if input.activeUuid.None? || input.horizon <= 0 then NOTHING
    else if input.sharedHistoryMarker || SharesHistory(input.lineages) then
      SharedRetention.PlanShared(input, input.now - input.horizon)
    else if !ActiveHasFull(input, input.activeUuid.value) then NOTHING
    else IndependentPlan(input)
  }

  lemma PlanWhenIndependent(input: RetentionInput)
    requires SweepsIndependently(input)
    ensures PlanOf(input) == IndependentPlan(input)
  {}

  lemma SharesByTheListing(ls: seq<Lineage>)
    ensures SharesHistory(ls) <==> exists l, f :: l in ls && f in l.fulls && f.gtidPurged.Some?
  {
    FullsOfLineages(ls);
  }

  /** Which rules decide: one full anywhere that declares a GTID set, or the marker, makes the archive one shared
      history; otherwise the active lineage must list a full. */
  lemma RulesByTheListing(input: RetentionInput, active: string, cutoff: int)
    requires input.activeUuid == Some(active) && input.horizon > 0 && cutoff == input.now - input.horizon
    ensures var declared := exists l, f :: l in input.lineages && f in l.fulls && f.gtidPurged.Some?;
      PlanOf(input) ==
        if input.sharedHistoryMarker || declared then SharedRetention.PlanShared(input, cutoff)
        else if ActiveHasFull(input, active) then IndependentPlan(input)
        else NOTHING
  {
    SharesByTheListing(input.lineages);
    RulesOf(input, active, cutoff);
  }

  lemma RulesOf(input: RetentionInput, active: string, cutoff: int)
    requires input.activeUuid == Some(active) && input.horizon > 0 && cutoff == input.now - input.horizon
    ensures PlanOf(input) ==
      if input.sharedHistoryMarker || SharesHistory(input.lineages) then SharedRetention.PlanShared(input, cutoff)
      else if ActiveHasFull(input, active) then IndependentPlan(input)
      else NOTHING
  {}

  // ----- the planner's loops -----

  lemma PlanSnoc(ls: seq<Lineage>, i: nat, fates: Lineage -> Fate, now: int)
    requires i < |ls|
    ensures PlanLineages(ls[..i + 1], fates, now) == AddLineage(PlanLineages(ls[..i], fates, now), ls[i], fates, now)
  {
    assert ls[..i + 1][..i] == ls[..i];
  }

  /** The loop over independent lineages. */
  method PlanEachLineage(ls: seq<Lineage>, active: string, cutoff: int, now: int) returns (plan: RetentionPlan)
    ensures plan == PlanLineages(ls, Fates(active, cutoff), now)
  {
    plan := NOTHING;
    ghost var fates := Fates(active, cutoff);
    for i := 0 to |ls|
      invariant plan == PlanLineages(ls[..i], fates, now)
    {
      var fate := FateOf(ls[i], active, cutoff);
      var orphans := CollectOverdue(ls[i].orphanDumps, now);
      var keys, keptFulls := CollectFulls(ls[i].fulls, FullRule(fate));
      var files, keptFiles := CollectBinlogs(ls[i].serverUuid, ls[i].binlogs, BinlogRule(fate));
      PlanSnoc(ls, i, fates, now);
      plan := RetentionPlan(
        plan.expiredFullKeys + keys, plan.expiredBinlogs + files, plan.orphanDumpKeys + orphans,
        plan.retiredLineages + if fate.RetiredWhole? then [ls[i].serverUuid] else []);
    }
    assert ls[..|ls|] == ls;
  }

  /** Plan one sweep. */
  method PlanRetention(input: RetentionInput) returns (plan: RetentionPlan)
    ensures plan == PlanOf(input)
  {
    if input.activeUuid.None? || input.horizon <= 0 {
      return NOTHING;
    }
    var active, cutoff := input.activeUuid.value, input.now - input.horizon;
    RulesOf(input, active, cutoff);
    if input.sharedHistoryMarker || SharesHistory(input.lineages) {
      plan := SharedRetention.PlanSharedRetention(input, cutoff);
      return;
    }
    if !ActiveHasFull(input, active) {
      return NOTHING;
    }
    plan := PlanEachLineage(input.lineages, active, cutoff, input.now);
  }

  // ----- what the plan names -----

  /** Everything a plan lets a pass delete. */
  function PlannedKeys(plan: RetentionPlan): set<Object> {
    (set k | k in plan.expiredFullKeys) + (set k | k in plan.orphanDumpKeys :: Dump(k))
  }

  function PlannedFiles(plan: RetentionPlan): set<(string, Binlog)> {
    set b | b in plan.expiredBinlogs
  }

  lemma {:induction false} PlannedFulls(ls: seq<Lineage>, fates: Lineage -> Fate, now: int, k: Object)
    ensures k in PlanLineages(ls, fates, now).expiredFullKeys <==>
      exists l, f :: l in ls && f in l.fulls && DropsFull(fates(l), f) && IsObjectOf(k, f)
  {
    if ls != [] {
      var front, last := ls[..|ls| - 1], ls[|ls| - 1];
      assert ls == front + [last];
      PlannedFulls(front, fates, now, k);
      FullKeysNames(DroppedFulls(fates(last), last.fulls), k);
    }
  }

  lemma {:induction false} PlannedBinlogs(ls: seq<Lineage>, fates: Lineage -> Fate, now: int, uuid: string, b: Binlog)
    ensures (uuid, b) in PlanLineages(ls, fates, now).expiredBinlogs <==>
      exists l :: l in ls && l.serverUuid == uuid && b in l.binlogs && DropsBinlog(fates(l), b)
  {
    if ls != [] {
      var front, last := ls[..|ls| - 1], ls[|ls| - 1];
      assert ls == front + [last];
      PlannedBinlogs(front, fates, now, uuid, b);
      TaggedFiles(last.serverUuid, DroppedBinlogs(fates(last), last.binlogs), (uuid, b));
    }
  }

  lemma {:induction false} PlannedOrphans(ls: seq<Lineage>, fates: Lineage -> Fate, now: int, k: string)
    ensures k in PlanLineages(ls, fates, now).orphanDumpKeys <==>
      exists l, o :: l in ls && o in l.orphanDumps && o.0 == k && now - o.1 > 6 * 3600 * 1_000_000_000
  {
    if ls != [] {
      var front, last := ls[..|ls| - 1], ls[|ls| - 1];
      assert ls == front + [last];
      PlannedOrphans(front, fates, now, k);
      OverdueNames(last.orphanDumps, now, k);
    }
  }

  lemma {:induction false} PlannedRetirements(ls: seq<Lineage>, fates: Lineage -> Fate, now: int, uuid: string)
    ensures uuid in PlanLineages(ls, fates, now).retiredLineages <==>
      exists l :: l in ls && l.serverUuid == uuid && fates(l).RetiredWhole?
  {
    if ls != [] {
      var front, last := ls[..|ls| - 1], ls[|ls| - 1];
      assert ls == front + [last];
      PlannedRetirements(front, fates, now, uuid);
    }
  }

  /** No other full has `k` among its objects, and no orphan is that dump. */
  ghost predicate OwnKey(ls: seq<Lineage>, l: Lineage, f: FullBackup, k: Object) {
    && (forall m, g | m in ls && g in m.fulls && IsObjectOf(k, g) :: g == f && m == l)
    && (forall m, o | m in ls && o in m.orphanDumps :: Dump(o.0) != k)
  }

  lemma KeysAreOwn(ls: seq<Lineage>, l: Lineage, f: FullBackup, k: Object)
    requires WellKeyed(ls) && l in ls && f in l.fulls && IsObjectOf(k, f)
    ensures OwnKey(ls, l, f, k)
  {
    FullsOfLineages(ls);
    assert f in AllFulls(ls);
    forall m, g | m in ls && g in m.fulls && IsObjectOf(k, g)
      ensures g == f && m == l
    {
      assert g in AllFulls(ls);
    }
  }

  lemma OwnKeyIsPlanned(ls: seq<Lineage>, fates: Lineage -> Fate, now: int, l: Lineage,
      f: FullBackup, k: Object)
    requires OwnKey(ls, l, f, k) && l in ls && f in l.fulls && IsObjectOf(k, f)
    ensures k in PlannedKeys(PlanLineages(ls, fates, now)) <==> DropsFull(fates(l), f)
  {
    var plan := PlanLineages(ls, fates, now);
    PlannedFulls(ls, fates, now, k);
    assert k.Dump? ==> k.key !in plan.orphanDumpKeys by {
      if k.Dump? { PlannedOrphans(ls, fates, now, k.key); }
    }
    if k in plan.expiredFullKeys {
      var m, g :| m in ls && g in m.fulls && DropsFull(fates(m), g) && IsObjectOf(k, g);
    }
  }

  lemma FullIsPlanned(ls: seq<Lineage>, fates: Lineage -> Fate, now: int, l: Lineage, f: FullBackup,
      k: Object)
    requires WellKeyed(ls) && l in ls && f in l.fulls && IsObjectOf(k, f)
    ensures k in PlannedKeys(PlanLineages(ls, fates, now)) <==> DropsFull(fates(l), f)
  {
    KeysAreOwn(ls, l, f, k);
    OwnKeyIsPlanned(ls, fates, now, l, f, k);
  }

  lemma BinlogIsPlanned(ls: seq<Lineage>, fates: Lineage -> Fate, now: int, l: Lineage, b: Binlog)
    requires WellKeyed(ls) && l in ls && b in l.binlogs
    ensures (l.serverUuid, b) in PlannedFiles(PlanLineages(ls, fates, now)) <==> DropsBinlog(fates(l), b)
  {
    PlannedBinlogs(ls, fates, now, l.serverUuid, b);
  }

  lemma RetirementIsPlanned(ls: seq<Lineage>, fates: Lineage -> Fate, now: int, l: Lineage)
    requires WellKeyed(ls) && l in ls
    ensures l.serverUuid in PlanLineages(ls, fates, now).retiredLineages <==> fates(l).RetiredWhole?
  {
    PlannedRetirements(ls, fates, now, l.serverUuid);
  }
}
