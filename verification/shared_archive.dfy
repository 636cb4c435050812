/** An archive of one shared history over time: binlogs and fulls arrive, retention passes plan,
    and any planned object may go at any later moment. No restore inside the window can tell. */
module SharedArchive {
  import opened Common
  import opened BinlogNames
  import opened Archive
  import SharedRetention
  import Retention

  datatype Txn = Txn(id: Gtid, at: int)

  /** A full as it landed, with the instant its snapshot shows. */
  datatype Landed = Landed(full: FullBackup, snapshotAt: int)

  datatype File = File(uploadedAt: int, txns: set<Txn>)

  /** Everything ever archived, what passes have planned to delete, and what is gone. Nothing is
      ever planned below `cutoff`, the latest one any pass used. */
  datatype State = State(
    landed: seq<Landed>, files: map<FileKey, File>,
    plannedFulls: set<FullBackup>, plannedFiles: set<FileKey>,
    goneFulls: set<FullBackup>, goneFiles: set<FileKey>,
    cutoff: int)

  function Fulls(landed: seq<Landed>): (r: seq<FullBackup>)
    ensures |r| == |landed| && forall k | 0 <= k < |landed| :: r[k] == landed[k].full
  {
    seq(|landed|, k requires 0 <= k < |landed| => landed[k].full)
  }

  predicate Present(s: State, f: FullBackup) {
    f in Fulls(s.landed) && f !in s.goneFulls
  }

  predicate FilePresent(s: State, k: FileKey) {
    k in s.files && k !in s.goneFiles
  }

  /** What a dump shows of the history: everything committed up to its snapshot. */
  function DumpOf(history: set<Txn>, l: Landed): set<Txn> {
    set t | t in history && t.at <= l.snapshotAt
  }

  predicate NoLaterThan(txns: set<Txn>, at: int) {
    forall t | t in txns :: t.at <= at
  }

  /** A file below the coordinate of a full of its own lineage was closed before the snapshot. */
  predicate ClosedBefore(k: FileKey, file: File, l: Landed) {
    k.0 == l.full.serverUuid && k.1.number.Some? && l.full.coordinate.number.Some?
      && k.1.number.value < l.full.coordinate.number.value
    ==> NoLaterThan(file.txns, l.snapshotAt)
  }

  // ----- steps -----

  /** A binlog is uploaded: after the last of its events, and in step with the fulls' coordinates. */
  predicate Ship(history: set<Txn>, s: State, s': State, k: FileKey, file: File) {
    && k !in s.files && file.txns <= history && NoLaterThan(file.txns, file.uploadedAt)
    && (forall l | l in s.landed :: ClosedBefore(k, file, l))
    && s' == s.(files := s.files[k := file])
  }

  /** A full lands: later than every full before it, its snapshot no earlier than its name. */
  predicate Land(s: State, s': State, l: Landed) {
    && l.full.takenAt <= l.snapshotAt
    && (forall m | m in s.landed :: 
          m.full.takenAt < l.full.takenAt && m.snapshotAt <= l.snapshotAt && m.full.dumpKey != l.full.dumpKey)
    && (forall k | k in s.files :: ClosedBefore(k, s.files[k], l))
    && s' == s.(landed := s.landed + [l])
  }

  /** The fulls of one lineage that the bucket still holds whole. */
  function PresentOf(s: State, uuid: string): set<FullBackup> {
    set f | f in Fulls(s.landed) && f !in s.goneFulls && f.serverUuid == uuid
  }

  /** A listing of the bucket: fulls may fail to read, but their metas are counted. */
  ghost predicate Lists(ls: seq<Lineage>, s: State) {
    && WellKeyed(ls)
    && (forall f | Present(s, f) :: exists l :: l in ls && l.serverUuid == f.serverUuid)
    && (forall l | l in ls :: ListsLineage(l, s))
  }

  ghost predicate ListsLineage(l: Lineage, s: State) {
    && NoTwice(l.fulls) && (forall f | f in l.fulls :: f in PresentOf(s, l.serverUuid))
    && l.fullObjectsSeen >= |PresentOf(s, l.serverUuid)|
    && (forall b | b in l.binlogs :: FilePresent(s, (l.serverUuid, b)))
    && (forall b | b in l.binlogs && b.name in l.binlogAges ::
      l.binlogAges[b.name] == s.files[(l.serverUuid, b)].uploadedAt)
  }

  function CutoffOf(input: RetentionInput): int {
    input.now - input.horizon
  }

  /** A retention pass lists the bucket and plans; deleting comes later, object by object. */
  ghost predicate PlanSweep(s: State, s': State, input: RetentionInput) {
    && Lists(input.lineages, s)
    && input.activeUuid.Some? && input.horizon > 0
    && (input.sharedHistoryMarker || SharesHistory(input.lineages))
    && s' == s.(
         cutoff := if s.cutoff < CutoffOf(input) then CutoffOf(input) else s.cutoff,
         plannedFulls := s.plannedFulls + PlannedFulls(s, input),
         plannedFiles := s.plannedFiles + PlannedFiles(input))
  }

  /** The fulls one of whose objects the plan names. */
  function PlannedFulls(s: State, input: RetentionInput): set<FullBackup> {
    set f | f in Fulls(s.landed) && (Dump(f.dumpKey) in Retention.PlanOf(input).expiredFullKeys
                                     || Meta(f.dumpKey) in Retention.PlanOf(input).expiredFullKeys)
  }

  function PlannedFiles(input: RetentionInput): set<FileKey> {
    set k | k in Retention.PlanOf(input).expiredBinlogs
  }

  predicate DeleteFull(s: State, s': State, f: FullBackup) {
    f in s.plannedFulls && s' == s.(goneFulls := s.goneFulls + {f})
  }

  predicate DeleteFile(s: State, s': State, k: FileKey) {
    k in s.plannedFiles && s' == s.(goneFiles := s.goneFiles + {k})
  }

  ghost predicate Step(history: set<Txn>, s: State, s': State) {
    || (exists k, file :: Ship(history, s, s', k, file))
    || (exists l :: Land(s, s', l))
    || (exists input :: PlanSweep(s, s', input))
    || (exists f :: DeleteFull(s, s', f))
    || (exists k :: DeleteFile(s, s', k))
  }

  predicate Empty(s: State) {
    s.landed == [] && s.files == map[] && s.plannedFulls == {} && s.plannedFiles == {} && s.goneFulls == {}
      && s.goneFiles == {}
  }

  // ----- what every step keeps -----

  predicate InOrder(landed: seq<Landed>) {
    && (forall k | 0 <= k < |landed| :: landed[k].full.takenAt <= landed[k].snapshotAt)
    && (forall j, k | 0 <= j < k < |landed| ::
          && landed[j].full.takenAt < landed[k].full.takenAt
          && landed[j].snapshotAt <= landed[k].snapshotAt
          && landed[j].full.dumpKey != landed[k].full.dumpKey)
  }

  predicate FilesFit(history: set<Txn>, s: State) {
    && (forall k | k in s.files :: s.files[k].txns <= history && NoLaterThan(s.files[k].txns, s.files[k].uploadedAt))
    && (forall k, l | k in s.files && l in s.landed :: ClosedBefore(k, s.files[k], l))
  }

  /** A newer full no younger than the cutoff stands in for `f`. */
  ghost predicate Outdone(s: State, f: FullBackup) {
    exists g :: g in Fulls(s.landed) && f.takenAt < g.takenAt <= s.cutoff
  }

  /** The full's dump makes the file redundant: by sequence in the full's own lineage, by upload time elsewhere. */
  predicate Superseded(k: FileKey, file: File, l: Landed) {
    if k.0 == l.full.serverUuid then
      k.1.number.Some? && l.full.coordinate.number.Some? && k.1.number.value < l.full.coordinate.number.value
    else file.uploadedAt < l.full.takenAt
  }

  /** The full `l` supersedes the file, and every older full is planned away. */
  ghost predicate CoveredBy(s: State, k: FileKey, l: Landed) {
    && l in s.landed && k in s.files && Superseded(k, s.files[k], l)
    && forall m | m in s.landed && m.full.takenAt < l.full.takenAt :: m.full in s.plannedFulls
  }

  ghost predicate Inv(history: set<Txn>, s: State) {
    && InOrder(s.landed) && FilesFit(history, s)
    && s.goneFulls <= s.plannedFulls && s.goneFiles <= s.plannedFiles
    && (forall f | f in s.plannedFulls :: Outdone(s, f))
    && (forall k | k in s.plannedFiles :: exists l :: CoveredBy(s, k, l))
  }

  lemma ShipKeepsInv(history: set<Txn>, s: State, s': State, k: FileKey, file: File)
    requires Inv(history, s) && Ship(history, s, s', k, file)
    ensures Inv(history, s')
  {
    forall f | f in s'.plannedFulls
      ensures Outdone(s', f)
    {
      var g :| g in Fulls(s.landed) && f.takenAt < g.takenAt <= s.cutoff;
    }
    forall x | x in s'.plannedFiles
      ensures exists l :: CoveredBy(s', x, l)
    {
      var l :| CoveredBy(s, x, l);
      assert CoveredBy(s', x, l);
    }
  }

  lemma LandKeepsInv(history: set<Txn>, s: State, s': State, l: Landed)
    requires Inv(history, s) && Land(s, s', l)
    ensures Inv(history, s')
  {
    forall f | f in s'.plannedFulls
      ensures Outdone(s', f)
    {
      var g :| g in Fulls(s.landed) && f.takenAt < g.takenAt <= s.cutoff;
      var j :| 0 <= j < |s.landed| && Fulls(s.landed)[j] == g;
      assert Fulls(s'.landed)[j] == g;
    }
    forall x | x in s'.plannedFiles
      ensures exists m :: CoveredBy(s', x, m)
    {
      var m :| CoveredBy(s, x, m);
      assert CoveredBy(s', x, m);
    }
  }

  lemma DeletesKeepInv(history: set<Txn>, s: State, s': State)
    requires Inv(history, s)
    requires (exists f :: DeleteFull(s, s', f)) || (exists k :: DeleteFile(s, s', k))
    ensures Inv(history, s')
  {
    forall f | f in s'.plannedFulls
      ensures Outdone(s', f)
    {
      assert Outdone(s, f);
    }
    forall x | x in s'.plannedFiles
      ensures exists l :: CoveredBy(s', x, l)
    {
      var l :| CoveredBy(s, x, l);
      assert CoveredBy(s', x, l);
    }
  }

  // ----- a pass plans only what later fulls make redundant -----

  lemma SameSizeSameSet<T>(a: set<T>, b: set<T>)
    requires a <= b && |a| >= |b|
    ensures a == b
  {
    assert |b| == |a| + |b - a| by { assert b == a + (b - a); }
  }

  lemma {:induction false} ListedOnce(fulls: seq<FullBackup>)
    requires NoTwice(fulls)
    ensures |set f | f in fulls| == |fulls|
  {
    if fulls != [] {
      var front, last := fulls[..|fulls| - 1], fulls[|fulls| - 1];
      ListedOnce(front);
      assert (set f | f in fulls) == (set f | f in front) + {last} by { assert fulls == front + [last]; }
      assert last !in front;
    }
  }

  lemma ReadableLineageIsComplete(l: Lineage, s: State)
    requires ListsLineage(l, s) && l.fullObjectsSeen <= |l.fulls|
    ensures forall f | f in PresentOf(s, l.serverUuid) :: f in l.fulls
  {
    ListedOnce(l.fulls);
    var listed := set f | f in l.fulls;
    SameSizeSameSet(listed, PresentOf(s, l.serverUuid));
  }

  /** When every meta could be read, the listing shows every full the bucket holds. */
  lemma ReadableListingIsComplete(ls: seq<Lineage>, s: State)
    requires Lists(ls, s) && SharedRetention.AllReadable(ls)
    ensures forall f :: f in AllFulls(ls) <==> Present(s, f)
  {
    FullsOfLineages(ls);
    forall f | Present(s, f)
      ensures f in AllFulls(ls)
    {
      var l :| l in ls && l.serverUuid == f.serverUuid;
      ReadableLineageIsComplete(l, s);
      assert f in PresentOf(s, l.serverUuid);
    }
    forall f | f in AllFulls(ls)
      ensures Present(s, f)
    {
      var l :| l in ls && f in l.fulls;
    }
  }

  lemma LandedIndex(landed: seq<Landed>, f: FullBackup) returns (k: nat)
    requires f in Fulls(landed)
    ensures k < |landed| && landed[k].full == f && landed[k] in landed
  {
    k :| 0 <= k < |landed| && Fulls(landed)[k] == f;
  }

  lemma LandedApart(landed: seq<Landed>, f: FullBackup, g: FullBackup)
    requires InOrder(landed) && f in Fulls(landed) && g in Fulls(landed)
    ensures f.takenAt == g.takenAt || f.dumpKey == g.dumpKey ==> f == g
  {
    var j := LandedIndex(landed, f);
    var k := LandedIndex(landed, g);
  }

  /** What a pass that may expire anything works from. */
  ghost predicate Judges(s: State, input: RetentionInput, all: seq<FullBackup>, kept: seq<FullBackup>,
      floor: FullBackup) {
    && all == AllFulls(input.lineages)
    && SharedRetention.AllReadable(input.lineages)
    && kept == FullsToKeep(all, CutoffOf(input), MIN_ACTIVE_FULLS_KEPT)
    && kept != [] && floor == kept[|kept| - 1]
    && (forall f :: f in all <==> Present(s, f))
    && Descending(kept) && (forall f | f in kept :: f in all)
  }

  lemma JudgesFrom(s: State, input: RetentionInput) returns (all: seq<FullBackup>,
      kept: seq<FullBackup>, floor: FullBackup)
    requires Lists(input.lineages, s)
    requires SharedRetention.Floor(input.lineages, CutoffOf(input)).Some?
    ensures Judges(s, input, all, kept, floor)
    ensures SharedRetention.Floor(input.lineages, CutoffOf(input)) == Some(floor)
  {
    all := AllFulls(input.lineages);
    kept := SharedRetention.KeptFulls(input.lineages, CutoffOf(input));
    SharedRetention.FloorIsTheOldestKept(input.lineages, CutoffOf(input));
    floor := SharedRetention.Floor(input.lineages, CutoffOf(input)).value;
    KeptAreNewest(all, CutoffOf(input), MIN_ACTIVE_FULLS_KEPT);
    ReadableListingIsComplete(input.lineages, s);
  }

  lemma FloorIsOldestKept(s: State, input: RetentionInput, all: seq<FullBackup>,
      kept: seq<FullBackup>, floor: FullBackup)
    requires Judges(s, input, all, kept, floor)
    ensures floor in kept && Present(s, floor)
    ensures forall f | f in kept :: f.takenAt >= floor.takenAt
  {}

  /** A full left out of the kept window is strictly older than the floor, which reaches the cutoff. */
  lemma LeftOutIsOutdone(s: State, input: RetentionInput, all: seq<FullBackup>,
      kept: seq<FullBackup>, floor: FullBackup, f: FullBackup)
    requires InOrder(s.landed) && Judges(s, input, all, kept, floor)
    requires f in all && f !in kept
    ensures f.takenAt < floor.takenAt <= CutoffOf(input)
  {
    LeftOutIsCovered(all, CutoffOf(input), MIN_ACTIVE_FULLS_KEPT, f);
    FloorIsOldestKept(s, input, all, kept, floor);
    assert Present(s, f);
    LandedApart(s.landed, f, floor);
  }

  lemma PlanIsShared(input: RetentionInput)
    requires input.activeUuid.Some? && input.horizon > 0
    requires input.sharedHistoryMarker || SharesHistory(input.lineages)
    ensures Retention.PlanOf(input) == SharedRetention.PlanShared(input, CutoffOf(input))
  {}

  lemma PlannedFullIsUnkept(s: State, input: RetentionInput, k: Object, f: FullBackup)
    requires InOrder(s.landed) && Lists(input.lineages, s) && f in Fulls(s.landed) && IsObjectOf(k, f)
    requires k in SharedRetention.PlanShared(input, CutoffOf(input)).expiredFullKeys
    ensures SharedRetention.Floor(input.lineages, CutoffOf(input)).Some?
    ensures f in AllFulls(input.lineages) && f !in SharedRetention.KeptFulls(input.lineages, CutoffOf(input))
  {
    var ls, cutoff := input.lineages, CutoffOf(input);
    var floor := SharedRetention.Floor(ls, cutoff).value;
    var g := PlannedFullIsListed(input, k, floor);
    ReadableListingIsComplete(ls, s);
    LandedApart(s.landed, f, g);
  }

  lemma PlannedFullIsListed(input: RetentionInput, k: Object, floor: FullBackup)
      returns (g: FullBackup)
    requires SharedRetention.Floor(input.lineages, CutoffOf(input)) == Some(floor)
    requires k in SharedRetention.PlanShared(input, CutoffOf(input)).expiredFullKeys
    ensures g in AllFulls(input.lineages) && IsObjectOf(k, g)
    ensures g !in SharedRetention.KeptFulls(input.lineages, CutoffOf(input))
  {
    var ls, cutoff := input.lineages, CutoffOf(input);
    var kept := DumpKeys(SharedRetention.KeptFulls(ls, cutoff));
    SharedRetention.PlannedFulls(ls, if input.activeUuid.Some? then input.activeUuid.value else "", kept, floor, k);
    g :| g in AllFulls(ls) && g.dumpKey !in kept && IsObjectOf(k, g);
  }

  lemma PlannedFileIsRedundant(input: RetentionInput, k: FileKey)
      returns (l: Lineage, floor: FullBackup)
    requires k in SharedRetention.PlanShared(input, CutoffOf(input)).expiredBinlogs
    ensures SharedRetention.Floor(input.lineages, CutoffOf(input)) == Some(floor)
    ensures l in input.lineages && l.serverUuid == k.0 && k.1 in l.binlogs && SharedRetention.Redundant(l, floor, k.1)
  {
    var ls, cutoff := input.lineages, CutoffOf(input);
    floor := SharedRetention.Floor(ls, cutoff).value;
    var active := if input.activeUuid.Some? then input.activeUuid.value else "";
    SharedRetention.PlannedBinlogs(ls, active, DumpKeys(SharedRetention.KeptFulls(ls, cutoff)), floor, k.0, k.1);
    l :| l in ls && l.serverUuid == k.0 && k.1 in l.binlogs && SharedRetention.Redundant(l, floor, k.1);
  }

  lemma RedundantIsSuperseded(s: State, l: Lineage, b: Binlog, floor: Landed)
    requires ListsLineage(l, s) && b in l.binlogs && SharedRetention.Redundant(l, floor.full, b)
    ensures (l.serverUuid, b) in s.files && Superseded((l.serverUuid, b), s.files[(l.serverUuid, b)], floor)
  {
    assert FilePresent(s, (l.serverUuid, b));
  }

  /** The snapshot of a full shows every transaction of a file it supersedes. */
  lemma SupersededIsShown(history: set<Txn>, s: State, k: FileKey, l: Landed)
    requires InOrder(s.landed) && FilesFit(history, s) && l in s.landed && k in s.files && Superseded(k, s.files[k], l)
    ensures NoLaterThan(s.files[k].txns, l.snapshotAt)
  {
    assert ClosedBefore(k, s.files[k], l);
    assert l.full.takenAt <= l.snapshotAt;
  }

  /** Every full older than the floor is planned away, now or before. */
  lemma OlderArePlanned(history: set<Txn>, s: State, s': State, input: RetentionInput,
      all: seq<FullBackup>, kept: seq<FullBackup>, floor: FullBackup, m: FullBackup)
    requires Inv(history, s) && PlanSweep(s, s', input) && Judges(s, input, all, kept, floor)
    requires m in Fulls(s.landed) && m.takenAt < floor.takenAt
    ensures m in s'.plannedFulls
  {
    if m !in s.goneFulls {
      assert Present(s, m);
      FloorIsOldestKept(s, input, all, kept, floor);
      PlanIsShared(input);
      SharedRetention.OnlyUnkeptFullsExpire(input, CutoffOf(input), m, Dump(m.dumpKey));
    }
  }

  lemma PlannedFullIsOutdone(history: set<Txn>, s: State, s': State, input: RetentionInput,
      f: FullBackup)
    requires Inv(history, s) && PlanSweep(s, s', input) && f in PlannedFulls(s, input)
    ensures Outdone(s', f)
  {
    PlanIsShared(input);
    var k := if Dump(f.dumpKey) in Retention.PlanOf(input).expiredFullKeys then Dump(f.dumpKey) else Meta(f.dumpKey);
    PlannedFullIsUnkept(s, input, k, f);
    var all, kept, floor := JudgesFrom(s, input);
    LeftOutIsOutdone(s, input, all, kept, floor, f);
    FloorIsOldestKept(s, input, all, kept, floor);
  }

  lemma PlannedFileIsCovered(history: set<Txn>, s: State, s': State, input: RetentionInput,
      k: FileKey)
    requires Inv(history, s) && PlanSweep(s, s', input) && k in PlannedFiles(input)
    ensures exists l :: CoveredBy(s', k, l)
  {
    PlanIsShared(input);
    var l, floor := PlannedFileIsRedundant(input, k);
    var all, kept, f := JudgesFrom(s, input);
    FloorIsOldestKept(s, input, all, kept, floor);
    var j := LandedIndex(s.landed, floor);
    RedundantIsSuperseded(s, l, k.1, s.landed[j]);
    forall m | m in s.landed && m.full.takenAt < floor.takenAt
      ensures m.full in s'.plannedFulls
    {
      var i :| 0 <= i < |s.landed| && s.landed[i] == m;
      assert Fulls(s.landed)[i] == m.full;
      OlderArePlanned(history, s, s', input, all, kept, floor, m.full);
    }
    assert CoveredBy(s', k, s.landed[j]);
  }

  lemma SweepKeepsInv(history: set<Txn>, s: State, s': State, input: RetentionInput)
    requires Inv(history, s) && PlanSweep(s, s', input)
    ensures Inv(history, s')
  {
    forall f | f in s'.plannedFulls
      ensures Outdone(s', f)
    {
      if f in s.plannedFulls {
        assert Outdone(s, f);
      } else {
        PlannedFullIsOutdone(history, s, s', input, f);
      }
    }
    forall k | k in s'.plannedFiles
      ensures exists l :: CoveredBy(s', k, l)
    {
      if k in s.plannedFiles {
        var l :| CoveredBy(s, k, l);
        assert CoveredBy(s', k, l);
      } else {
        PlannedFileIsCovered(history, s, s', input, k);
      }
    }
  }

  lemma StepKeepsInv(history: set<Txn>, s: State, s': State)
    requires Inv(history, s) && Step(history, s, s')
    ensures Inv(history, s')
  {
    if k, file :| Ship(history, s, s', k, file) {
      ShipKeepsInv(history, s, s', k, file);
    } else if l :| Land(s, s', l) {
      LandKeepsInv(history, s, s', l);
    } else if input :| PlanSweep(s, s', input) {
      SweepKeepsInv(history, s, s', input);
    } else {
      DeletesKeepInv(history, s, s');
    }
  }

  ghost predicate IsRun(history: set<Txn>, run: seq<State>) {
    && run != [] && Empty(run[0])
    && forall i | 0 < i < |run| :: Step(history, run[i - 1], run[i])
  }

  lemma {:induction false} RunsKeepInv(history: set<Txn>, run: seq<State>)
    requires IsRun(history, run)
    ensures Inv(history, run[|run| - 1])
  {
    if |run| > 1 {
      var front := run[..|run| - 1];
      assert IsRun(history, front);
      RunsKeepInv(history, front);
      StepKeepsInv(history, front[|front| - 1], run[|run| - 1]);
    }
  }

  // ----- what a restore delivers -----

  /** A restore from `f` replays its own lineage from the coordinate on and every other lineage. */
  predicate Replays(f: FullBackup, k: FileKey) {
    k.0 != f.serverUuid || f.coordinate.number.None? || k.1.number.None?
    || k.1.number.value >= f.coordinate.number.value
  }

  /** Replay stops before the second of the target. */
  predicate BeforeStop(t: Txn, target: int) {
    t.at / NANOS < target / NANOS
  }

  /** The dump's transactions and, up to the stop, those of every file among `keys` it replays. */
  function Delivered(history: set<Txn>, files: map<FileKey, File>, keys: set<FileKey>, l: Landed,
      target: int): set<Txn> {
    DumpOf(history, l) + set t, k | k in keys && k in files && Replays(l.full, k) && t in files[k].txns
      && BeforeStop(t, target) :: t
  }

  function PresentFiles(s: State): set<FileKey> {
    set k | k in s.files && k !in s.goneFiles
  }

  /** A full a target at or past the cutoff selects is never planned away. */
  lemma SelectedIsNeverPlanned(history: set<Txn>, s: State, target: int, f: FullBackup)
    requires Inv(history, s) && target >= s.cutoff
    requires NewestQualifying(Fulls(s.landed), target) == Some(f)
    ensures f !in s.plannedFulls
  {
    assert forall g | g in Fulls(s.landed) && g.takenAt <= s.cutoff :: Qualifies(g, target);
    assert !Outdone(s, f);
  }

  /** The same full is selected, however the fulls still there are listed. */
  lemma SelectionIsUnchanged(history: set<Txn>, s: State, present: seq<FullBackup>, target: int)
    requires Inv(history, s) && target >= s.cutoff
    requires forall f :: f in present <==> Present(s, f)
    ensures NewestQualifying(present, target) == NewestQualifying(Fulls(s.landed), target)
  {
    var before := NewestQualifying(Fulls(s.landed), target);
    if before.Some? {
      SelectedIsNeverPlanned(history, s, target, before.value);
      forall g | g in present && g != before.value
        ensures g.takenAt != before.value.takenAt
      {
        LandedApart(s.landed, g, before.value);
      }
      NewestIs(present, target, before.value);
    }
  }

  /** Whatever is gone, a dump that survives shows. */
  lemma GoneIsShown(history: set<Txn>, s: State, l: Landed, k: FileKey)
    requires Inv(history, s) && l in s.landed && l.full !in s.plannedFulls && k in s.goneFiles
    ensures k in s.files && s.files[k].txns <= DumpOf(history, l)
  {
    var m :| CoveredBy(s, k, m);
    var i :| 0 <= i < |s.landed| && s.landed[i] == l;
    var j :| 0 <= j < |s.landed| && s.landed[j] == m;
    assert l.full.takenAt >= m.full.takenAt;
    assert m.snapshotAt <= l.snapshotAt;
    SupersededIsShown(history, s, k, m);
  }

  /** In every run, for every target at or after the latest cutoff any pass used: the full selected
      is the one a never-swept archive would select, and the transactions delivered are exactly
      those it would deliver. */
  lemma RetentionIsInvisible(history: set<Txn>, run: seq<State>, s: State, present: seq<FullBackup>,
      target: int)
    requires IsRun(history, run) && s == run[|run| - 1] && target >= s.cutoff
    requires forall f :: f in present <==> Present(s, f)
    ensures NewestQualifying(present, target) == NewestQualifying(Fulls(s.landed), target)
    ensures forall l | l in s.landed && NewestQualifying(present, target) == Some(l.full) ::
      Delivered(history, s.files, PresentFiles(s), l, target) == Delivered(history, s.files, s.files.Keys, l, target)
  {
    RunsKeepInv(history, run);
    SelectionIsUnchanged(history, s, present, target);
    forall l | l in s.landed && NewestQualifying(present, target) == Some(l.full)
      ensures Delivered(history, s.files, PresentFiles(s), l, target)
        == Delivered(history, s.files, s.files.Keys, l, target)
    {
      SelectedIsNeverPlanned(history, s, target, l.full);
      DeliveryIsUnchanged(history, s, target, l);
    }
  }

  lemma DeliveryIsUnchanged(history: set<Txn>, s: State, target: int, l: Landed)
    requires Inv(history, s) && l in s.landed && l.full !in s.plannedFulls
    ensures Delivered(history, s.files, PresentFiles(s), l, target)
      == Delivered(history, s.files, s.files.Keys, l, target)
  {
    forall t | t in Delivered(history, s.files, s.files.Keys, l, target)
      ensures t in Delivered(history, s.files, PresentFiles(s), l, target)
    {
      if t !in DumpOf(history, l) {
        var k :| k in s.files && Replays(l.full, k) && t in s.files[k].txns && BeforeStop(t, target);
        if k in s.goneFiles {
          GoneIsShown(history, s, l, k);
          assert false;
        }
      }
    }
  }
}
