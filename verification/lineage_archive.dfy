/** One independent lineage over time: fulls land, binlogs arrive, passes plan, and any part of what any
    pass planned may go at any later moment, object by object. */
module LineageArchive {
  import opened Common
  import opened BinlogNames
  import opened ReplayPlan
  import opened Archive
  import opened Retention
  import opened RetentionSafety

  /** Everything the lineage ever archived, what passes planned to delete of it and what is gone; whether
      some pass found it dead; and the latest cutoff any pass used. */
  datatype State = State(
    uuid: string, foundDead: bool, fulls: seq<FullBackup>, binlogs: seq<Binlog>,
    plannedFulls: set<FullBackup>, plannedBinlogs: set<Binlog>,
    goneFulls: set<FullBackup>, goneBinlogs: set<Binlog>, cutoff: int)

  // ----- steps -----

  /** A full lands: later than the ones before it, starting no earlier, under a key of its own. */
  predicate Land(s: State, s': State, f: FullBackup) {
    && f.serverUuid == s.uuid && f.coordinate.number.Some?
    && (forall g | g in s.fulls :: FollowsFull(g, f))
    && (forall b | b in s.binlogs && b.number == f.coordinate.number :: b == f.coordinate)
    && s' == s.(fulls := s.fulls + [f])
  }

  predicate FollowsFull(earlier: FullBackup, later: FullBackup) {
    && earlier.takenAt < later.takenAt && earlier.dumpKey != later.dumpKey
    && earlier.coordinate.number.Some? && later.coordinate.number.Some?
    && earlier.coordinate.number.value <= later.coordinate.number.value
    && (earlier.coordinate.number == later.coordinate.number ==> earlier.coordinate == later.coordinate)
  }

  /** A binlog arrives, in any order, under a number of its own. */
  predicate Upload(s: State, s': State, b: Binlog) {
    && b.number.Some?
    && (forall c | c in s.binlogs :: c.number != b.number)
    && (forall f | f in s.fulls && f.coordinate.number == b.number :: f.coordinate == b)
    && s' == s.(binlogs := s.binlogs + [b])
  }

  predicate Present(s: State, f: FullBackup) {
    f in s.fulls && f !in s.goneFulls
  }

  predicate BinlogPresent(s: State, b: Binlog) {
    b in s.binlogs && b !in s.goneBinlogs
  }

  /** What a pass lists for this lineage, with every full read; a dump left without its meta may show
      among its orphans. */
  ghost predicate Lists(l: Lineage, s: State) {
    && l.serverUuid == s.uuid && NoTwice(l.fulls)
    && (forall f :: f in l.fulls <==> Present(s, f))
    && (forall b | b in l.binlogs :: BinlogPresent(s, b))
  }

  /** A pass plans, and does not retire this lineage, which may be the active one to one pass and dead to the
      next. */
  ghost predicate PlanPass(s: State, s': State, input: RetentionInput, l: Lineage) {
    && SweepsIndependently(input) && WellKeyed(input.lineages) && l in input.lineages
    && Lists(l, s)
    && s.uuid !in PlanOf(input).retiredLineages
    && s' == s.(
         foundDead := s.foundDead || input.activeUuid != Some(s.uuid),
         cutoff := if s.cutoff < input.now - input.horizon then input.now - input.horizon else s.cutoff,
         plannedFulls := s.plannedFulls + (set f | f in l.fulls && IsGone(f, PlannedKeys(PlanOf(input)))),
         plannedBinlogs := s.plannedBinlogs
           + (set b | b in l.binlogs && (s.uuid, b) in PlannedFiles(PlanOf(input))))
  }

  /** Deleting either of its objects ends a full. */
  predicate DeleteFull(s: State, s': State, f: FullBackup) {
    f in s.plannedFulls && s' == s.(goneFulls := s.goneFulls + {f})
  }

  predicate DeleteBinlog(s: State, s': State, b: Binlog) {
    b in s.plannedBinlogs && s' == s.(goneBinlogs := s.goneBinlogs + {b})
  }

  ghost predicate Step(s: State, s': State) {
    || (exists f :: Land(s, s', f))
    || (exists b :: Upload(s, s', b))
    || (exists input, l :: PlanPass(s, s', input, l))
    || (exists f :: DeleteFull(s, s', f))
    || (exists b :: DeleteBinlog(s, s', b))
  }

  predicate Empty(s: State) {
    && !s.foundDead && s.fulls == [] && s.binlogs == [] && s.plannedFulls == {} && s.plannedBinlogs == {}
    && s.goneFulls == {} && s.goneBinlogs == {}
  }

  ghost predicate IsRun(run: seq<State>) {
    && run != [] && Empty(run[0])
    && forall i | 0 < i < |run| :: Step(run[i - 1], run[i])
  }

  // ----- what every step keeps -----

  predicate InOrder(s: State) {
    && (forall j, k | 0 <= j < k < |s.fulls| :: FollowsFull(s.fulls[j], s.fulls[k]))
    && (forall k | 0 <= k < |s.fulls| :: s.fulls[k].coordinate.number.Some?)
    && WellNamed(s.binlogs)
    && (forall f, b {:trigger f in s.fulls, b in s.binlogs} |
          f in s.fulls && b in s.binlogs && b.number == f.coordinate.number :: b == f.coordinate)
  }

  /** A newer full no younger than the cutoff stands in for `f`; until a pass finds the lineage dead two newer
      ones do. */
  ghost predicate Outdone(s: State, f: FullBackup) {
    && (exists g :: g in s.fulls && f.takenAt < g.takenAt <= s.cutoff)
    && (!s.foundDead ==> exists g, h :: g in s.fulls && h in s.fulls && TwoNewer(f, g, h))
  }

  predicate TwoNewer(f: FullBackup, g: FullBackup, h: FullBackup) {
    g != h && f.takenAt < g.takenAt && f.takenAt < h.takenAt
  }

  /** The binlog lies below the coordinate of `f`, and every older full is planned away. */
  ghost predicate CoveredBy(s: State, b: Binlog, f: FullBackup) {
    && f in s.fulls && RetentionSafety.BelowCoordinate(b, f)
    && forall g | g in s.fulls && g.takenAt < f.takenAt :: g in s.plannedFulls
  }

  ghost predicate Covered(s: State, b: Binlog) {
    exists f :: CoveredBy(s, b, f)
  }

  ghost predicate Inv(s: State) {
    && InOrder(s) && s.goneFulls <= s.plannedFulls && s.goneBinlogs <= s.plannedBinlogs
    && (forall f | f in s.plannedFulls :: Outdone(s, f))
    && (forall b | b in s.plannedBinlogs :: Covered(s, b))
  }

  /** Growing what is archived or planned, newer fulls only, keeps what stands in for what. */
  lemma StandInsStay(s: State, s': State)
    requires Inv(s) && (s.foundDead ==> s'.foundDead) && s'.cutoff >= s.cutoff && s.plannedFulls <= s'.plannedFulls
    requires forall f | f in s.fulls :: f in s'.fulls
    requires forall f, g | f in s'.fulls && f !in s.fulls && g in s.fulls :: g.takenAt < f.takenAt
    ensures forall f | f in s.plannedFulls :: Outdone(s', f)
    ensures forall b | b in s.plannedBinlogs :: Covered(s', b)
  {
    forall f | f in s.plannedFulls
      ensures Outdone(s', f)
    {
      assert Outdone(s, f);
    }
    forall b | b in s.plannedBinlogs
      ensures Covered(s', b)
    {
      assert Covered(s, b);
      var f :| CoveredBy(s, b, f);
      assert CoveredBy(s', b, f);
    }
  }

  lemma LandKeepsInv(s: State, s': State, f: FullBackup)
    requires Inv(s) && Land(s, s', f)
    ensures Inv(s')
  {
    assert forall k | 0 <= k < |s.fulls| :: s.fulls[k] in s.fulls;
    StandInsStay(s, s');
  }

  lemma UploadKeepsInv(s: State, s': State, b: Binlog)
    requires Inv(s) && Upload(s, s', b)
    ensures Inv(s')
  {
    assert forall k | 0 <= k < |s.binlogs| :: s.binlogs[k] in s.binlogs;
    StandInsStay(s, s');
  }

  lemma DeleteFullKeepsInv(s: State, s': State, f: FullBackup)
    requires Inv(s) && DeleteFull(s, s', f)
    ensures Inv(s')
  {
    StandInsStay(s, s');
  }

  lemma DeleteBinlogKeepsInv(s: State, s': State, b: Binlog)
    requires Inv(s) && DeleteBinlog(s, s', b)
    ensures Inv(s')
  {
    StandInsStay(s, s');
  }

  lemma FullsApart(s: State, f: FullBackup, g: FullBackup)
    requires InOrder(s) && f in s.fulls && g in s.fulls
    ensures f.takenAt == g.takenAt || f.dumpKey == g.dumpKey ==> f == g
    ensures f.takenAt <= g.takenAt ==>
      f.coordinate.number.Some? && g.coordinate.number.Some? && f.coordinate.number.value <= g.coordinate.number.value
  {
    var j :| 0 <= j < |s.fulls| && s.fulls[j] == f;
    var k :| 0 <= k < |s.fulls| && s.fulls[k] == g;
  }

  lemma TimesDiffer(s: State, fulls: seq<FullBackup>)
    requires InOrder(s) && forall f | f in fulls :: f in s.fulls
    ensures DistinctTimes(fulls)
  {
    forall f, g | f in fulls && g in fulls && f != g
      ensures f.takenAt != g.takenAt
    {
      FullsApart(s, f, g);
    }
  }

  /** What a pass that does not retire the lineage works from: the fulls listed, the ones kept, and whether it
      found the lineage active. */
  ghost predicate Judges(s: State, l: Lineage, fate: Fate, cutoff: int, isActive: bool) {
    && InOrder(s) && Lists(l, s) && DistinctTimes(l.fulls) && !fate.RetiredWhole?
    && (fate.Trimmed? ==> TrimmedTo(fate, l.fulls, cutoff))
    && (fate.Trimmed? && isActive ==> fate.kept == FullsToKeep(l.fulls, cutoff, MIN_ACTIVE_FULLS_KEPT))
  }

  lemma NotRetiredHere(s: State, s': State, input: RetentionInput, l: Lineage)
    requires PlanPass(s, s', input, l)
    ensures !FateIn(input, l).RetiredWhole?
  {
    var fates := FatesIn(input);
    FateInInput(input, l, fates);
    RetirementIsPlanned(input.lineages, fates, input.now, l);
  }

  lemma FateJudges(s: State, l: Lineage, fate: Fate, active: string, cutoff: int)
    requires InOrder(s) && Lists(l, s) && fate == FateOf(l, active, cutoff) && !fate.RetiredWhole?
    ensures Judges(s, l, fate, cutoff, active == l.serverUuid)
  {
    TimesDiffer(s, l.fulls);
    NotRetired(l, active, cutoff);
  }

  /** Among the fulls listed the pass names exactly those its fate drops, and among the binlogs too. */
  lemma PassNames(s: State, s': State, input: RetentionInput, l: Lineage)
    requires PlanPass(s, s', input, l)
    ensures forall f | f in l.fulls ::
      IsGone(f, PlannedKeys(PlanOf(input))) <==> DropsFull(FateIn(input, l), f)
    ensures forall b | b in l.binlogs ::
      (s.uuid, b) in PlannedFiles(PlanOf(input)) <==> DropsBinlog(FateIn(input, l), b)
  {
    forall f | f in l.fulls
      ensures IsGone(f, PlannedKeys(PlanOf(input))) <==> DropsFull(FateIn(input, l), f)
    {
      GoneIsDropped(input, l, f);
    }
    forall b | b in l.binlogs
      ensures (s.uuid, b) in PlannedFiles(PlanOf(input)) <==> DropsBinlog(FateIn(input, l), b)
    {
      FileIsDropped(input, l, b);
    }
  }

  /** A pass in terms of the lineage alone: what its fate drops is planned. */
  ghost predicate Planned(s: State, s': State, l: Lineage, fate: Fate, cutoff: int, isActive: bool) {
    && s'.uuid == s.uuid && s'.foundDead == (s.foundDead || !isActive) && s'.fulls == s.fulls && s'.binlogs == s.binlogs
    && s'.goneFulls == s.goneFulls && s'.goneBinlogs == s.goneBinlogs
    && s'.cutoff >= s.cutoff && s'.cutoff >= cutoff
    && s'.plannedFulls == s.plannedFulls + (set f | f in l.fulls && DropsFull(fate, f))
    && s'.plannedBinlogs == s.plannedBinlogs + (set b | b in l.binlogs && DropsBinlog(fate, b))
  }

  lemma PassIsPlanned(s: State, s': State, input: RetentionInput, l: Lineage, fate: Fate, cutoff: int)
    requires PlanPass(s, s', input, l) && fate == FateIn(input, l) && cutoff == input.now - input.horizon
    ensures Planned(s, s', l, fate, cutoff, input.activeUuid == Some(l.serverUuid))
  {
    PassNames(s, s', input, l);
  }

  lemma FateInParts(input: RetentionInput, l: Lineage) returns (fate: Fate, active: string, cutoff: int)
    requires input.activeUuid.Some?
    ensures fate == FateIn(input, l) && cutoff == input.now - input.horizon
    ensures fate == FateOf(l, active, cutoff) && input.activeUuid == Some(active)
  {
    fate, active, cutoff := FateIn(input, l), input.activeUuid.value, input.now - input.horizon;
  }

  lemma ShownKeepsInv(s: State, s': State, l: Lineage, fate: Fate, active: string, cutoff: int)
    requires Inv(s) && Lists(l, s) && fate == FateOf(l, active, cutoff) && !fate.RetiredWhole?
    requires Planned(s, s', l, fate, cutoff, active == l.serverUuid)
    ensures Inv(s')
  {
    FateJudges(s, l, fate, active, cutoff);
    PlannedKeepsInv(s, s', l, fate, cutoff, active == l.serverUuid);
  }

  /** A full dropped is strictly older than every full kept, and the oldest of those reaches the cutoff. */
  lemma DroppedIsOlder(s: State, l: Lineage, fate: Fate, cutoff: int, isActive: bool, f: FullBackup)
    requires Judges(s, l, fate, cutoff, isActive) && f in l.fulls && DropsFull(fate, f)
    ensures fate.Trimmed? && fate.kept != []
    ensures forall g | g in fate.kept :: g in l.fulls && f.takenAt < g.takenAt
    ensures fate.kept[|fate.kept| - 1].takenAt <= cutoff
  {
    TrimmedKept(l.fulls, fate, cutoff);
    assert f !in fate.kept;
    LeftOutOfTrim(l.fulls, fate, cutoff, f);
    forall g | g in fate.kept
      ensures g in l.fulls && f.takenAt < g.takenAt
    {
      LastIsNoNewer(fate.kept, g);
      FullsApart(s, f, g);
    }
  }

  lemma ActiveKeepsTwo(s: State, l: Lineage, fate: Fate, cutoff: int, isActive: bool, f: FullBackup)
    requires Judges(s, l, fate, cutoff, isActive) && isActive && f in l.fulls && DropsFull(fate, f)
    ensures fate.Trimmed? && |fate.kept| >= 2 && fate.kept[0] != fate.kept[1]
  {
    DroppedIsOlder(s, l, fate, cutoff, isActive, f);
    KeptAreNewest(l.fulls, cutoff, MIN_ACTIVE_FULLS_KEPT);
    KeptIsListedOnce(l.fulls, cutoff, MIN_ACTIVE_FULLS_KEPT);
    assert fate.kept[0] in fate.kept && f in l.fulls && fate.kept[0] in l.fulls;
  }

  lemma DroppedIsOutdone(s: State, s': State, l: Lineage, fate: Fate, cutoff: int, isActive: bool, f: FullBackup)
    requires Judges(s, l, fate, cutoff, isActive) && f in l.fulls && DropsFull(fate, f)
    requires s'.fulls == s.fulls && (!isActive ==> s'.foundDead) && s'.cutoff >= cutoff
    ensures Outdone(s', f)
  {
    DroppedIsOlder(s, l, fate, cutoff, isActive, f);
    var floor := fate.kept[|fate.kept| - 1];
    assert floor in fate.kept && floor in s'.fulls;
    if isActive {
      ActiveKeepsTwo(s, l, fate, cutoff, isActive, f);
      assert fate.kept[0] in fate.kept && fate.kept[1] in fate.kept;
      assert TwoNewer(f, fate.kept[0], fate.kept[1]);
    }
  }

  lemma OlderIsDropped(s: State, l: Lineage, fate: Fate, cutoff: int, isActive: bool, g: FullBackup)
    requires Judges(s, l, fate, cutoff, isActive) && fate.Trimmed? && fate.kept != []
    requires g in l.fulls && g.takenAt < fate.kept[|fate.kept| - 1].takenAt
    ensures DropsFull(fate, g)
  {
    TrimmedKept(l.fulls, fate, cutoff);
    forall f | f in fate.kept
      ensures f.dumpKey != g.dumpKey
    {
      LastIsNoNewer(fate.kept, f);
      FullsApart(s, f, g);
    }
  }

  lemma DroppedIsCovered(s: State, s': State, l: Lineage, fate: Fate, cutoff: int, isActive: bool, b: Binlog)
    requires Inv(s) && Judges(s, l, fate, cutoff, isActive) && Planned(s, s', l, fate, cutoff, isActive)
    requires DropsBinlog(fate, b)
    ensures Covered(s', b)
  {
    TrimmedKept(l.fulls, fate, cutoff);
    var floor := fate.kept[|fate.kept| - 1];
    assert floor in fate.kept && Present(s, floor);
    forall g | g in s.fulls && g.takenAt < floor.takenAt
      ensures g in s'.plannedFulls
    {
      if g !in s.goneFulls {
        assert Present(s, g);
        OlderIsDropped(s, l, fate, cutoff, isActive, g);
      }
    }
    assert CoveredBy(s', b, floor);
  }

  lemma PlannedKeepsInv(s: State, s': State, l: Lineage, fate: Fate, cutoff: int, isActive: bool)
    requires Inv(s) && Judges(s, l, fate, cutoff, isActive) && Planned(s, s', l, fate, cutoff, isActive)
    ensures Inv(s')
  {
    StandInsStay(s, s');
    forall f | f in s'.plannedFulls && f !in s.plannedFulls
      ensures Outdone(s', f)
    {
      DroppedIsOutdone(s, s', l, fate, cutoff, isActive, f);
    }
    forall b | b in s'.plannedBinlogs && b !in s.plannedBinlogs
      ensures Covered(s', b)
    {
      DroppedIsCovered(s, s', l, fate, cutoff, isActive, b);
    }
  }

  lemma PassKeepsInv(s: State, s': State, input: RetentionInput, l: Lineage)
    requires Inv(s) && PlanPass(s, s', input, l)
    ensures Inv(s')
  {
    var fate, active, cutoff := FateInParts(input, l);
    NotRetiredHere(s, s', input, l);
    PassIsPlanned(s, s', input, l, fate, cutoff);
    ShownKeepsInv(s, s', l, fate, active, cutoff);
  }

  lemma StepKeepsInv(s: State, s': State)
    requires Inv(s) && Step(s, s')
    ensures Inv(s')
  {
    if f :| Land(s, s', f) {
      LandKeepsInv(s, s', f);
    } else if b :| Upload(s, s', b) {
      UploadKeepsInv(s, s', b);
    } else if input, l :| PlanPass(s, s', input, l) {
      PassKeepsInv(s, s', input, l);
    } else if f :| DeleteFull(s, s', f) {
      DeleteFullKeepsInv(s, s', f);
    } else {
      var b :| DeleteBinlog(s, s', b);
      DeleteBinlogKeepsInv(s, s', b);
    }
  }

  lemma {:induction false} RunsKeepInv(run: seq<State>)
    requires IsRun(run)
    ensures Inv(run[|run| - 1])
  {
    if |run| > 1 {
      var front := run[..|run| - 1];
      assert IsRun(front);
      RunsKeepInv(front);
      StepKeepsInv(front[|front| - 1], run[|run| - 1]);
    }
  }

  // ----- what every run guarantees -----

  /** A target past every cutoff selects a full no pass planned to delete. */
  lemma SelectedIsNeverPlanned(s: State, target: int, f: FullBackup)
    requires Inv(s) && target >= s.cutoff && NewestQualifying(s.fulls, target) == Some(f)
    ensures f !in s.plannedFulls
  {
    assert forall g | g in s.fulls && g.takenAt <= s.cutoff :: Qualifies(g, target);
    assert !Outdone(s, f);
  }

  lemma GoneLiesBefore(s: State, f: FullBackup, b: Binlog)
    requires Inv(s) && f in s.fulls && f !in s.plannedFulls && b in s.goneBinlogs
    ensures RetentionSafety.BelowCoordinate(b, f)
  {
    assert Covered(s, b);
    var g :| CoveredBy(s, b, g);
    assert g.takenAt <= f.takenAt;
    FullsApart(s, g, f);
  }

  lemma SelectionStays(s: State, fulls: seq<FullBackup>, target: int)
    requires Inv(s) && target >= s.cutoff
    requires forall f :: f in fulls <==> Present(s, f)
    ensures NewestQualifying(fulls, target) == NewestQualifying(s.fulls, target)
  {
    var before := NewestQualifying(s.fulls, target);
    if before.Some? {
      SelectedIsNeverPlanned(s, target, before.value);
      TimesDiffer(s, s.fulls);
      NewestIs(fulls, target, before.value);
    }
  }

  lemma ReplayStays(s: State, binlogs: seq<Binlog>, f: FullBackup)
    requires Inv(s) && f in s.fulls && f !in s.plannedFulls
    requires NoTwice(binlogs) && forall b :: b in binlogs <==> BinlogPresent(s, b)
    ensures Plan(binlogs, f.coordinate) == Plan(s.binlogs, f.coordinate)
    ensures Replayed(binlogs, f.coordinate) == Replayed(s.binlogs, f.coordinate)
  {
    LeftAreWellNamed(s.binlogs, binlogs);
    forall b | b in s.goneBinlogs
      ensures RetentionSafety.BelowCoordinate(b, f)
    {
      GoneLiesBefore(s, f, b);
    }
    FullsApart(s, f, f);
    assert forall b | b in s.binlogs :: b.number.Some?;
    PlanIgnoresEarlierFiles(s.binlogs, binlogs, f.coordinate);
  }

  /** Over any sequence of passes none of which retires the lineage, whatever role each finds it in, each
      carried out in any part and interleaved with uploads and fulls: for every target at or past the
      latest cutoff the full selected, the plan from its coordinate and everything it replays are those
      of a lineage never swept. */
  lemma SweepsAreInvisible(run: seq<State>, s: State, fulls: seq<FullBackup>, binlogs: seq<Binlog>,
      target: int)
    requires IsRun(run) && s == run[|run| - 1] && target >= s.cutoff
    requires forall f :: f in fulls <==> Present(s, f)
    requires NoTwice(binlogs) && forall b :: b in binlogs <==> BinlogPresent(s, b)
    ensures NewestQualifying(fulls, target) == NewestQualifying(s.fulls, target)
    ensures forall f | NewestQualifying(fulls, target) == Some(f) ::
      && Plan(binlogs, f.coordinate) == Plan(s.binlogs, f.coordinate)
      && Replayed(binlogs, f.coordinate) == Replayed(s.binlogs, f.coordinate)
  {
    RunsKeepInv(run);
    SelectionStays(s, fulls, target);
    if NewestQualifying(fulls, target).Some? {
      var f := NewestQualifying(fulls, target).value;
      SelectedIsNeverPlanned(s, target, f);
      ReplayStays(s, binlogs, f);
    }
  }

  lemma OutdoneHasTwoAfter(s: State, k: nat)
    requires InOrder(s) && !s.foundDead && k < |s.fulls| && Outdone(s, s.fulls[k])
    ensures k + 2 < |s.fulls|
  {
    var g, h :| g in s.fulls && h in s.fulls && TwoNewer(s.fulls[k], g, h);
    var i :| 0 <= i < |s.fulls| && s.fulls[i] == g;
    var j :| 0 <= j < |s.fulls| && s.fulls[j] == h;
  }

  /** The two newest fulls are not planned away while every pass finds the lineage active. */
  lemma NewestTwoStay(s: State, k: nat)
    requires Inv(s) && !s.foundDead && k < |s.fulls| && |s.fulls| <= k + 2
    ensures s.fulls[k] !in s.plannedFulls
  {
    if Outdone(s, s.fulls[k]) {
      OutdoneHasTwoAfter(s, k);
    }
  }

  /** However often it was swept, a lineage every pass found active still has two fulls, or all it ever had. */
  lemma ActiveAlwaysKeepsTwo(run: seq<State>, s: State, fulls: seq<FullBackup>)
    requires IsRun(run) && s == run[|run| - 1] && !s.foundDead
    requires forall f :: f in fulls <==> Present(s, f)
    ensures |fulls| >= Min(2, |s.fulls|)
  {
    RunsKeepInv(run);
    var n := |s.fulls|;
    if n >= 1 {
      NewestTwoStay(s, n - 1);
      assert Present(s, s.fulls[n - 1]);
      SizesFollow([s.fulls[n - 1]], fulls);
    }
    if n >= 2 {
      NewestTwoStay(s, n - 2);
      assert Present(s, s.fulls[n - 2]) && FollowsFull(s.fulls[n - 2], s.fulls[n - 1]);
      SizesFollow([s.fulls[n - 2], s.fulls[n - 1]], fulls);
    }
  }
}
