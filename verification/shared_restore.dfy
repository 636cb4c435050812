/** Replaying a shared history: which runs, in which order, and what has to hold of the result
    before it may be served. */
module SharedRestore {
  import opened Common
  import opened BinlogNames
  import opened ReplayPlan
  import opened Archive

  datatype Event = Event(id: Gtid, position: nat, at: int)

  /** A binlog as staged: its opening time, the set its server opened it with, the events it carries,
      and the time of its last event header. */
  datatype Content = Content(createdAt: int, previousGtids: GtidSet, events: seq<Event>, lastEventAt: int)

  /** One gap-free run of one lineage, in order. */
  datatype LineageRun = LineageRun(serverUuid: string, files: seq<Binlog>, startPosition: Option<nat>, round: nat)

  datatype Listing = Listing(serverUuid: string, files: seq<Binlog>)

  datatype Witness = Witness(serverUuid: string, file: Binlog, previousGtids: GtidSet)

  datatype Outcome =
    | Restored(achieved: int)
    | HeadUnreadable
    | GtidHole(witnesses: seq<Witness>)
    | DumpIncomplete
    | TargetUnreachable

  // ----- queueing the runs -----

  /** Runs past a gap: the first replays in round 1, each further hole adds a round. */
  function Numbered(uuid: string, runs: seq<seq<Binlog>>): seq<LineageRun> {
    if runs == [] then []
    else Numbered(uuid, runs[..|runs| - 1]) + [LineageRun(uuid, runs[|runs| - 1], None, |runs|)]
  }

  function PastGap(uuid: string, files: seq<Binlog>, gap: Option<BinlogGap>): seq<LineageRun> {
    match gap
    case None => []
    case Some(g) => Numbered(uuid, RunsPastGap(files, g.nextPresent))
  }

  /** Where the full was taken, replay picks up at its coordinate. */
  function OwnRuns(full: FullBackup, own: seq<Binlog>): seq<LineageRun> {
    var plan := Plan(own, full.coordinate);
    [LineageRun(full.serverUuid, plan.run, Some(full.position), 0)] + PastGap(full.serverUuid, own, plan.gap)
  }

  /** Another lineage, from its first archived file. */
  function OtherRuns(l: Listing): seq<LineageRun> {
    if l.files == [] then []
    else
      var plan := Plan(l.files, Sorted(l.files)[0]);
      (if plan.run != [] then [LineageRun(l.serverUuid, plan.run, None, 0)] else [])
        + PastGap(l.serverUuid, l.files, plan.gap)
  }

  function AllOtherRuns(others: seq<Listing>): seq<LineageRun> {
    if others == [] then [] else AllOtherRuns(others[..|others| - 1]) + OtherRuns(others[|others| - 1])
  }

  function InsertByRound(sorted: seq<LineageRun>, r: LineageRun): seq<LineageRun> {
    if sorted == [] then [r]
    else if sorted[|sorted| - 1].round > r.round then InsertByRound(sorted[..|sorted| - 1], r) + [sorted[|sorted| - 1]]
    else sorted + [r]
  }

  /** Stable: within a round the order of queueing stays. */
  function ByRound(runs: seq<LineageRun>): seq<LineageRun> {
    if runs == [] then [] else InsertByRound(ByRound(runs[..|runs| - 1]), runs[|runs| - 1])
  }

  function QueuedRuns(full: FullBackup, own: seq<Binlog>, others: seq<Listing>): seq<LineageRun> {
    ByRound(OwnRuns(full, own) + AllOtherRuns(others))
  }

  lemma NumberedSnoc(uuid: string, runs: seq<seq<Binlog>>, k: nat)
    requires k < |runs|
    ensures Numbered(uuid, runs[..k + 1]) == Numbered(uuid, runs[..k]) + [LineageRun(uuid, runs[k], None, k + 1)]
  {
    assert runs[..k + 1][..k] == runs[..k];
  }

  method PushRunsPastGap(runs: seq<LineageRun>, uuid: string, files: seq<Binlog>,
      gap: Option<BinlogGap>) returns (all: seq<LineageRun>)
    ensures all == runs + PastGap(uuid, files, gap)
  {
    all := runs;
    if gap.None? {
      return;
    }
    var past := BinlogRunsPastGap(files, gap.value.nextPresent);
    for i := 0 to |past|
      invariant all == runs + Numbered(uuid, past[..i])
    {
      NumberedSnoc(uuid, past, i);
      all := all + [LineageRun(uuid, past[i], None, i + 1)];
    }
    assert past[..|past|] == past;
  }

  method QueueOther(l: Listing) returns (runs: seq<LineageRun>)
    ensures runs == OtherRuns(l)
  {
    runs := [];
    if l.files == [] {
      return;
    }
    var plan := BinlogsToReplay(l.files, Sorted(l.files)[0]);
    if plan.run != [] {
      runs := [LineageRun(l.serverUuid, plan.run, None, 0)];
    }
    runs := PushRunsPastGap(runs, l.serverUuid, l.files, plan.gap);
  }

  lemma OtherRunsSnoc(others: seq<Listing>, i: nat)
    requires i < |others|
    ensures AllOtherRuns(others[..i + 1]) == AllOtherRuns(others[..i]) + OtherRuns(others[i])
  {
    assert others[..i + 1][..i] == others[..i];
  }

  method QueueOthers(start: seq<LineageRun>, others: seq<Listing>) returns (runs: seq<LineageRun>)
    ensures runs == start + AllOtherRuns(others)
  {
    runs := start;
    for i := 0 to |others|
      invariant runs == start + AllOtherRuns(others[..i])
    {
      var more := QueueOther(others[i]);
      OtherRunsSnoc(others, i);
      Reassociate(start, AllOtherRuns(others[..i]), more);
      runs := runs + more;
    }
    assert others[..|others|] == others;
  }

  method QueueRuns(full: FullBackup, own: seq<Binlog>, others: seq<Listing>) returns (runs: seq<LineageRun>)
    ensures runs == QueuedRuns(full, own, others)
  {
    var plan := BinlogsToReplay(own, full.coordinate);
    runs := [LineageRun(full.serverUuid, plan.run, Some(full.position), 0)];
    runs := PushRunsPastGap(runs, full.serverUuid, own, plan.gap);
    runs := QueueOthers(runs, others);
    runs := ByRound(runs);
  }

  // ----- what the runs cover -----

  ghost predicate Queued(runs: seq<LineageRun>, k: FileKey) {
    exists r :: r in runs && r.serverUuid == k.0 && k.1 in r.files
  }

  lemma {:induction false} InsertedRuns(sorted: seq<LineageRun>, r: LineageRun)
    ensures forall x :: x in InsertByRound(sorted, r) <==> x in sorted || x == r
  {
    if sorted != [] {
      assert sorted == sorted[..|sorted| - 1] + [sorted[|sorted| - 1]];
      InsertedRuns(sorted[..|sorted| - 1], r);
    }
  }

  lemma {:induction false} SameRuns(runs: seq<LineageRun>)
    ensures forall x :: x in ByRound(runs) <==> x in runs
  {
    if runs != [] {
      assert runs == runs[..|runs| - 1] + [runs[|runs| - 1]];
      SameRuns(runs[..|runs| - 1]);
      InsertedRuns(ByRound(runs[..|runs| - 1]), runs[|runs| - 1]);
    }
  }

  lemma {:induction false} FlattenedFiles(runs: seq<seq<Binlog>>, f: Binlog)
    ensures f in Flatten(runs) <==> exists r :: r in runs && f in r
  {
    if runs != [] {
      FlattenedFiles(runs[1..], f);
      assert runs == [runs[0]] + runs[1..];
    }
  }

  lemma {:induction false} NumberedRuns(uuid: string, runs: seq<seq<Binlog>>, k: FileKey)
    ensures Queued(Numbered(uuid, runs), k) <==> k.0 == uuid && exists r :: r in runs && k.1 in r
  {
    if runs != [] {
      var front, last := runs[..|runs| - 1], runs[|runs| - 1];
      assert runs == front + [last];
      NumberedRuns(uuid, front, k);
      QueuedSum(Numbered(uuid, front), [LineageRun(uuid, last, None, |runs|)], k);
      QueuedOne(LineageRun(uuid, last, None, |runs|), k);
    }
  }

  lemma QueuedSum(a: seq<LineageRun>, b: seq<LineageRun>, k: FileKey)
    ensures Queued(a + b, k) <==> Queued(a, k) || Queued(b, k)
  {
    if Queued(a, k) {
      var r :| r in a && r.serverUuid == k.0 && k.1 in r.files;
      assert r in a + b;
    }
    if Queued(b, k) {
      var r :| r in b && r.serverUuid == k.0 && k.1 in r.files;
      assert r in a + b;
    }
  }

  lemma QueuedOne(r: LineageRun, k: FileKey)
    ensures Queued([r], k) <==> r.serverUuid == k.0 && k.1 in r.files
  {
    assert r in [r];
  }

  /** A lineage's plan and the runs past its gap queue exactly what it replays. */
  lemma PlanCovers(uuid: string, files: seq<Binlog>, startFile: Binlog, first: LineageRun,
      k: FileKey)
    requires first.serverUuid == uuid && first.files == Plan(files, startFile).run
    ensures Queued([first] + PastGap(uuid, files, Plan(files, startFile).gap), k)
      <==> k.0 == uuid && k.1 in Replayed(files, startFile)
  {
    var plan := Plan(files, startFile);
    QueuedSum([first], PastGap(uuid, files, plan.gap), k);
    QueuedOne(first, k);
    if plan.gap.Some? {
      var past := RunsPastGap(files, plan.gap.value.nextPresent);
      NumberedRuns(uuid, past, k);
      FlattenedFiles(past, k.1);
    }
  }

  lemma OtherRunsCover(l: Listing, k: FileKey)
    requires WellNamed(l.files)
    ensures Queued(OtherRuns(l), k) <==> k.0 == l.serverUuid && k.1 in l.files
  {
    if l.files != [] {
      var first := Sorted(l.files)[0];
      FirstIsLeast(l.files);
      RunIsMaximal(l.files, first);
      var run := LineageRun(l.serverUuid, Plan(l.files, first).run, None, 0);
      PlanCovers(l.serverUuid, l.files, first, run, k);
      ReplayIsAnExactPartition(l.files, first);
    }
  }

  lemma FirstIsLeast(files: seq<Binlog>)
    requires files != [] && WellNamed(files)
    ensures Sorted(files)[0] in files
    ensures forall f | f in files ::
      f.number.Some? && Sorted(files)[0].number.Some? && f.number.value >= Sorted(files)[0].number.value
  {
    SortedAscends(files);
    SameElements(Sorted(files), files);
    HeadAndTail(Sorted(files));
  }

  lemma {:induction false} AllOthersCover(others: seq<Listing>, k: FileKey)
    requires forall l | l in others :: WellNamed(l.files)
    ensures Queued(AllOtherRuns(others), k) <==> exists l :: l in others && k.0 == l.serverUuid && k.1 in l.files
  {
    if others != [] {
      var front, last := others[..|others| - 1], others[|others| - 1];
      assert others == front + [last];
      AllOthersCover(front, k);
      OtherRunsCover(last, k);
      QueuedSum(AllOtherRuns(front), OtherRuns(last), k);
    }
  }

  /** What a restore from `full` must look at: its own lineage from the coordinate on, and every
      archived file of every other lineage. */
  ghost predicate InScope(full: FullBackup, own: seq<Binlog>, others: seq<Listing>, k: FileKey) {
    || (k.0 == full.serverUuid && k.1 in own && full.coordinate.number.Some? && k.1.number.Some?
        && k.1.number.value >= full.coordinate.number.value)
    || (exists l :: l in others && k.0 == l.serverUuid && k.1 in l.files)
  }

  ghost predicate WellListed(full: FullBackup, own: seq<Binlog>, others: seq<Listing>) {
    && WellNamed(own) && full.coordinate.number.Some?
    && (forall b | b in own && b.number == full.coordinate.number :: b == full.coordinate)
    && (forall l | l in others :: WellNamed(l.files))
  }

  /** Gaps or none, the runs queued cover exactly that. */
  lemma RunsCoverTheScope(full: FullBackup, own: seq<Binlog>, others: seq<Listing>, k: FileKey)
    requires WellListed(full, own, others)
    ensures Queued(QueuedRuns(full, own, others), k) <==> InScope(full, own, others, k)
  {
    var runs := OwnRuns(full, own) + AllOtherRuns(others);
    SameRuns(runs);
    QueuedSum(OwnRuns(full, own), AllOtherRuns(others), k);
    AllOthersCover(others, k);
    OwnRunsCover(full, own, k);
    assert Queued(ByRound(runs), k) <==> Queued(runs, k);
  }

  lemma OwnRunsCover(full: FullBackup, own: seq<Binlog>, k: FileKey)
    requires WellNamed(own) && full.coordinate.number.Some?
    requires forall b | b in own && b.number == full.coordinate.number :: b == full.coordinate
    ensures Queued(OwnRuns(full, own), k) <==>
      k.0 == full.serverUuid && k.1 in own && k.1.number.Some? && k.1.number.value >= full.coordinate.number.value
  {
    var first := LineageRun(full.serverUuid, Plan(own, full.coordinate).run, Some(full.position), 0);
    PlanCovers(full.serverUuid, own, full.coordinate, first, k);
    if k.1 in own {
      ReplayedFiles(own, full.coordinate, k.1);
    } else if full.coordinate in own {
      ReplayIsAnExactPartition(own, full.coordinate);
    } else {
      ReplayWithoutTheStartFile(own, full.coordinate);
    }
  }

  predicate RoundsAscend(runs: seq<LineageRun>) {
    forall j, k | 0 <= j < k < |runs| :: runs[j].round <= runs[k].round
  }

  lemma {:induction false} InsertKeepsRounds(sorted: seq<LineageRun>, r: LineageRun)
    requires RoundsAscend(sorted)
    ensures RoundsAscend(InsertByRound(sorted, r))
    ensures sorted != [] && sorted[0].round == 0 ==> InsertByRound(sorted, r)[0] == sorted[0]
  {
    if sorted != [] && sorted[|sorted| - 1].round > r.round {
      var front, last := sorted[..|sorted| - 1], sorted[|sorted| - 1];
      InsertKeepsRounds(front, r);
      InsertedRuns(front, r);
      var all := InsertByRound(front, r);
      forall k | 0 <= k < |all|
        ensures all[k].round <= last.round
      {
        assert all[k] in all;
      }
    }
  }

  lemma {:induction false} FirstStaysFirst(runs: seq<LineageRun>)
    requires runs != [] && runs[0].round == 0
    ensures RoundsAscend(ByRound(runs))
    ensures ByRound(runs) != [] && ByRound(runs)[0] == runs[0]
  {
    var front := runs[..|runs| - 1];
    if front != [] {
      FirstStaysFirst(front);
      InsertKeepsRounds(ByRound(front), runs[|runs| - 1]);
    } else {
      assert ByRound(front) == [];
    }
  }

  /** No run past a gap replays before any run that is not, and the selected full's own lineage,
      continuing the dump from its coordinate, replays first of all. */
  lemma OwnLineageReplaysFirst(full: FullBackup, own: seq<Binlog>, others: seq<Listing>)
    ensures var runs := QueuedRuns(full, own, others);
      && RoundsAscend(runs)
      && runs != [] && runs[0] == LineageRun(full.serverUuid, Plan(own, full.coordinate).run, Some(full.position), 0)
  {
    FirstStaysFirst(OwnRuns(full, own) + AllOtherRuns(others));
  }

  // ----- replaying and judging -----

  /** A file that is missing when fetched, or whose head does not parse, is `None`. */
  type Store = FileKey -> Option<Content>

  function Seconds(t: int): int {
    t / NANOS
  }

  /** Only such a file can testify: one opened in the target's own second may name transactions that
      the stop cuts off. */
  predicate OpenedBeforeCutoff(c: Content, target: int) {
    Seconds(c.createdAt) < Seconds(target)
  }

  /** What one file delivers: its events from the start position on, before the target's second. */
  function Applied(c: Content, startPosition: Option<nat>, target: int): GtidSet {
    set e | e in c.events && (startPosition.None? || e.position >= startPosition.value)
      && Seconds(e.at) < Seconds(target) :: e.id
  }

  function StartOf(run: LineageRun, k: nat): Option<nat> {
    if k == 0 then run.startPosition else None
  }

  /** The first `n` files of the run are all there and readable. */
  predicate Readable(store: Store, run: LineageRun, n: nat)
    requires n <= |run.files|
  {
    forall k | 0 <= k < n :: store((run.serverUuid, run.files[k])).Some?
  }

  function DeliveredBy(store: Store, run: LineageRun, n: nat, target: int): GtidSet
    requires n <= |run.files| && Readable(store, run, n)
  {
    if n == 0 then {}
    else DeliveredBy(store, run, n - 1, target)
         + Applied(store((run.serverUuid, run.files[n - 1])).value, StartOf(run, n - 1), target)
  }

  predicate RunsReadable(store: Store, runs: seq<LineageRun>) {
    forall r | r in runs :: Readable(store, r, |r.files|)
  }

  /** The server's executed set once these runs have replayed onto the loaded dump; it applies each
      GTID once, so order does not matter to the set. */
  function Executed(store: Store, loaded: GtidSet, runs: seq<LineageRun>, target: int): GtidSet
    requires RunsReadable(store, runs)
  {
    if runs == [] then loaded
    else
      var front, last := runs[..|runs| - 1], runs[|runs| - 1];
      assert runs == front + [last];
      Executed(store, loaded, front, target) + DeliveredBy(store, last, |last.files|, target)
  }

  function Later(a: int, b: int): (r: int)
    ensures r >= a && r >= b && (r == a || r == b)
  {
    if a >= b then a else b
  }

  function Earlier(a: int, b: int): (r: int)
    ensures r <= a && r <= b && (r == a || r == b)
  {
    if a <= b then a else b
  }

  /** How far a replay got: the last event of each run's last file, capped at the target. */
  function Reached(store: Store, takenAt: int, runs: seq<LineageRun>, target: int): int
    requires RunsReadable(store, runs)
  {
    if runs == [] then takenAt
    else
      var front, last := runs[..|runs| - 1], runs[|runs| - 1];
      assert runs == front + [last];
      var before := Reached(store, takenAt, front, target);
      if last.files == [] then before
      else Later(before, Earlier(store((last.serverUuid, last.files[|last.files| - 1])).value.lastEventAt, target))
  }

  /** A queued file that vouches for something. */
  ghost predicate Vouches(store: Store, runs: seq<LineageRun>, target: int, k: FileKey) {
    && Queued(runs, k) && store(k).Some?
    && OpenedBeforeCutoff(store(k).value, target) && store(k).value.previousGtids != {}
  }

  /** Every queued file vouches only for what the set holds. */
  ghost predicate Complete(store: Store, runs: seq<LineageRun>, target: int, executed: GtidSet) {
    forall k | Vouches(store, runs, target, k) :: store(k).value.previousGtids <= executed
  }

  const U64_MAX: int := 0xFFFF_FFFF_FFFF_FFFF
  const I64_MAX: int := 0x7FFF_FFFF_FFFF_FFFF

  /** Two rotation intervals and a minute, saturating at 64 bits. */
  function LagBound(rotateSeconds: nat): nat {
    var twice := Earlier(2 * rotateSeconds, U64_MAX);
    Earlier(twice + 60, U64_MAX)
  }

  /** Whole seconds of a duration, truncated toward zero. */
  function WholeSeconds(d: int): int {
    if d >= 0 then d / NANOS else -((-d) / NANOS)
  }

  predicate WithinBound(target: int, achieved: int, rotateSeconds: nat) {
    var bound := LagBound(rotateSeconds);
    WholeSeconds(target - achieved) <= if bound <= I64_MAX then bound else I64_MAX
  }

  /** What the gate lets through: less than two rotation intervals, a minute and a second short of the target, where
      the interval does not saturate a signed 64-bit count of seconds. */
  lemma WithinBoundExactly(target: int, achieved: int, rotateSeconds: nat)
    ensures var short :=
        if 2 * rotateSeconds + 60 <= 0x7FFF_FFFF_FFFF_FFFF then 2 * rotateSeconds + 60 else 0x7FFF_FFFF_FFFF_FFFF;
      WithinBound(target, achieved, rotateSeconds) <==> target - achieved < (short + 1) * 1_000_000_000
  {}

  lemma ReadableSoFar(store: Store, runs: seq<LineageRun>, i: nat)
    requires i < |runs|
    requires RunsReadable(store, runs[..i]) && Readable(store, runs[i], |runs[i].files|)
    ensures RunsReadable(store, runs[..i + 1])
  {
    assert forall r | r in runs[..i + 1] :: r in runs[..i] || r == runs[i];
  }

  lemma RunStep(store: Store, loaded: GtidSet, takenAt: int, runs: seq<LineageRun>, i: nat,
      target: int)
    requires i < |runs| && RunsReadable(store, runs[..i]) && RunsReadable(store, runs[..i + 1])
      && Readable(store, runs[i], |runs[i].files|)
    ensures Executed(store, loaded, runs[..i + 1], target)
      == Executed(store, loaded, runs[..i], target) + DeliveredBy(store, runs[i], |runs[i].files|, target)
    ensures Reached(store, takenAt, runs[..i + 1], target) ==
      var before := Reached(store, takenAt, runs[..i], target);
      var files := runs[i].files;
      if files == [] then before
      else Later(before, Earlier(store((runs[i].serverUuid, files[|files| - 1])).value.lastEventAt, target))
  {
    assert runs[..i + 1][..i] == runs[..i];
  }

  predicate IsWitness(store: Store, w: Witness, target: int) {
    var c := store((w.serverUuid, w.file));
    c.Some? && OpenedBeforeCutoff(c.value, target) && c.value.previousGtids != {}
      && w.previousGtids == c.value.previousGtids
  }

  /** The testimony taken from the first `n` files of a run. */
  ghost predicate WitnessesOfRun(store: Store, run: LineageRun, n: nat, target: int, ws: seq<Witness>)
    requires n <= |run.files|
  {
    && (forall w | w in ws :: w.serverUuid == run.serverUuid && w.file in run.files && IsWitness(store, w, target))
    && (forall k | 0 <= k < n && Vouching(store, (run.serverUuid, run.files[k]), target) ::
          Witness(run.serverUuid, run.files[k], store((run.serverUuid, run.files[k])).value.previousGtids) in ws)
  }

  predicate Vouching(store: Store, k: FileKey, target: int) {
    store(k).Some? && OpenedBeforeCutoff(store(k).value, target) && store(k).value.previousGtids != {}
  }

  /** Apply a staged run, and report the last event of its last file. */
  method ReplayDownloaded(store: Store, server: GtidSet, run: LineageRun, target: int) returns (executed: GtidSet,
      lastEvent: int)
    requires Readable(store, run, |run.files|) && run.files != []
    ensures executed == server + DeliveredBy(store, run, |run.files|, target)
    ensures lastEvent == store((run.serverUuid, run.files[|run.files| - 1])).value.lastEventAt
  {
    executed, lastEvent := server, 0;
    for k := 0 to |run.files|
      invariant executed == server + DeliveredBy(store, run, k, target)
      invariant k > 0 ==> lastEvent == store((run.serverUuid, run.files[k - 1])).value.lastEventAt
    {
      var content := store((run.serverUuid, run.files[k])).value;
      executed := executed + Applied(content, StartOf(run, k), target);
      lastEvent := content.lastEventAt;
    }
  }

  /** Stage one run, take every file's testimony, and apply it to the server. */
  method ReplayRun(store: Store, server: GtidSet, run: LineageRun, target: int)
    returns (ok: bool, executed: GtidSet, reached: Option<int>, witnesses: seq<Witness>)
    ensures ok <==> Readable(store, run, |run.files|)
    ensures ok ==> executed == server + DeliveredBy(store, run, |run.files|, target)
    ensures ok ==> reached == if run.files == [] then None
      else Some(Earlier(store((run.serverUuid, run.files[|run.files| - 1])).value.lastEventAt, target))
    ensures ok ==> WitnessesOfRun(store, run, |run.files|, target, witnesses)
  {
    ok, executed, reached, witnesses := true, server, None, [];
    for k := 0 to |run.files|
      invariant Readable(store, run, k)
      invariant WitnessesOfRun(store, run, k, target, witnesses)
    {
      var head := store((run.serverUuid, run.files[k]));
      if head.None? {
        ok := false;
        return;
      }
      if OpenedBeforeCutoff(head.value, target) && head.value.previousGtids != {} {
        witnesses := witnesses + [Witness(run.serverUuid, run.files[k], head.value.previousGtids)];
      }
    }
    if run.files != [] {
      var lastEvent;
      executed, lastEvent := ReplayDownloaded(store, server, run, target);
      reached := Some(Earlier(lastEvent, target));
    }
  }

  /** The testimony taken from all these runs. */
  ghost predicate WitnessesOf(store: Store, runs: seq<LineageRun>, target: int, ws: seq<Witness>) {
    && (forall w | w in ws :: Queued(runs, (w.serverUuid, w.file)) && IsWitness(store, w, target))
    && (forall k | Vouches(store, runs, target, k) :: Witness(k.0, k.1, store(k).value.previousGtids) in ws)
  }

  lemma WitnessesAdd(store: Store, runs: seq<LineageRun>, i: nat, target: int, before: seq<Witness>,
      own: seq<Witness>)
    requires i < |runs| && WitnessesOf(store, runs[..i], target, before)
    requires WitnessesOfRun(store, runs[i], |runs[i].files|, target, own)
    ensures WitnessesOf(store, runs[..i + 1], target, before + own)
  {
    assert runs[..i + 1] == runs[..i] + [runs[i]];
    forall k: FileKey
      ensures Queued(runs[..i + 1], k) <==> Queued(runs[..i], k) || (k.0 == runs[i].serverUuid && k.1 in runs[i].files)
    {
      QueuedSum(runs[..i], [runs[i]], k);
      QueuedOne(runs[i], k);
    }
    forall k | Vouches(store, runs[..i + 1], target, k)
      ensures Witness(k.0, k.1, store(k).value.previousGtids) in before + own
    {
      if Queued(runs[..i], k) {
        assert Vouches(store, runs[..i], target, k);
      } else {
        var j :| 0 <= j < |runs[i].files| && runs[i].files[j] == k.1;
        assert Vouching(store, (runs[i].serverUuid, runs[i].files[j]), target);
      }
    }
  }

  /** Where the replay stands after these runs. */
  ghost predicate ReplayedSoFar(store: Store, loaded: GtidSet, takenAt: int, runs: seq<LineageRun>, target: int,
                                executed: GtidSet, achieved: int, witnesses: seq<Witness>) {
    && RunsReadable(store, runs)
    && executed == Executed(store, loaded, runs, target) && achieved == Reached(store, takenAt, runs, target)
    && WitnessesOf(store, runs, target, witnesses)
  }

  lemma RunAdded(store: Store, loaded: GtidSet, takenAt: int, runs: seq<LineageRun>, i: nat,
      target: int, executed: GtidSet, achieved: int, witnesses: seq<Witness>, own: seq<Witness>)
    requires i < |runs| && ReplayedSoFar(store, loaded, takenAt, runs[..i], target, executed, achieved, witnesses)
    requires Readable(store, runs[i], |runs[i].files|) && WitnessesOfRun(store, runs[i], |runs[i].files|, target, own)
    ensures var files := runs[i].files;
      ReplayedSoFar(store, loaded, takenAt, runs[..i + 1], target,
        executed + DeliveredBy(store, runs[i], |files|, target),
        if files == [] then achieved
        else Later(achieved, Earlier(store((runs[i].serverUuid, files[|files| - 1])).value.lastEventAt, target)),
        witnesses + own)
  {
    ReadableSoFar(store, runs, i);
    RunStep(store, loaded, takenAt, runs, i, target);
    WitnessesAdd(store, runs, i, target, witnesses, own);
  }

  /** Replay every queued run. */
  method ReplayRuns(store: Store, loaded: GtidSet, takenAt: int, runs: seq<LineageRun>, target: int)
    returns (ok: bool, executed: GtidSet, achieved: int, witnesses: seq<Witness>)
    ensures ok <==> RunsReadable(store, runs)
    ensures ok ==> ReplayedSoFar(store, loaded, takenAt, runs, target, executed, achieved, witnesses)
  {
    ok, executed, achieved, witnesses := true, loaded, takenAt, [];
    NothingReplayed(store, loaded, takenAt, target);
    assert runs[..0] == [];
    for i := 0 to |runs|
      invariant ReplayedSoFar(store, loaded, takenAt, runs[..i], target, executed, achieved, witnesses)
    {
      var staged, after, reached, own := ReplayRun(store, executed, runs[i], target);
      if !staged {
        ok := false;
        assert runs[i] in runs;
        return;
      }
      RunAdded(store, loaded, takenAt, runs, i, target, executed, achieved, witnesses, own);
      executed := after;
      achieved := if reached.None? then achieved else Later(achieved, reached.value);
      witnesses := witnesses + own;
    }
    assert runs[..|runs|] == runs;
  }

  lemma NothingReplayed(store: Store, loaded: GtidSet, takenAt: int, target: int)
    ensures ReplayedSoFar(store, loaded, takenAt, [], target, loaded, takenAt, [])
  {}

  lemma NothingLost(a: GtidSet, b: GtidSet)
    ensures a - b == {} <==> a <= b
  {
    if a - b == {} {
      forall x | x in a
        ensures x in b
      {
        assert x !in a - b;
      }
    }
  }

  /** Every witness whose testimony the restored set does not hold. */
  method Holes(witnesses: seq<Witness>, executed: GtidSet) returns (holes: seq<Witness>)
    ensures forall w :: w in holes <==> w in witnesses && !(w.previousGtids <= executed)
  {
    holes := [];
    for i := 0 to |witnesses|
      invariant forall w :: w in holes <==> w in witnesses[..i] && !(w.previousGtids <= executed)
    {
      assert witnesses[..i + 1] == witnesses[..i] + [witnesses[i]];
      var lost := witnesses[i].previousGtids - executed;
      NothingLost(witnesses[i].previousGtids, executed);
      if lost != {} {
        holes := holes + [witnesses[i]];
      }
    }
    assert witnesses[..|witnesses|] == witnesses;
  }

  /** The dump holds what it declared, where it declared anything. */
  predicate DumpLoaded(full: FullBackup, executed: GtidSet) {
    full.gtidPurged.None? || full.gtidPurged.value <= executed
  }

  /** The shared-history restore, from the listing to the verdict. */
  method ReplaySharedHistory(store: Store, full: FullBackup, own: seq<Binlog>, others: seq<Listing>, loaded: GtidSet,
      target: int, rotateSeconds: nat)
    returns (r: Outcome)
    ensures var runs := QueuedRuns(full, own, others);
      if !RunsReadable(store, runs) then r == HeadUnreadable
      else
        var executed := Executed(store, loaded, runs, target);
        var achieved := Reached(store, full.takenAt, runs, target);
        if !Complete(store, runs, target, executed) then
          r.GtidHole? && r.witnesses != []
          && (forall w | w in r.witnesses ::
            Vouches(store, runs, target, (w.serverUuid, w.file)) && !(w.previousGtids <= executed))
        else if !DumpLoaded(full, executed) then r == DumpIncomplete
        else if !WithinBound(target, achieved, rotateSeconds) then r == TargetUnreachable
        else r == Restored(achieved)
    ensures 2 * rotateSeconds + 60 <= 0x7FFF_FFFF_FFFF_FFFF && r.Restored? ==>
      target - r.achieved < (2 * rotateSeconds + 61) * 1_000_000_000
    ensures 2 * rotateSeconds + 60 <= 0x7FFF_FFFF_FFFF_FFFF ==>
      var runs := QueuedRuns(full, own, others);
      RunsReadable(store, runs) ==>
        var executed := Executed(store, loaded, runs, target);
        Complete(store, runs, target, executed) && DumpLoaded(full, executed) ==>
          (r == TargetUnreachable <==>
            target - Reached(store, full.takenAt, runs, target) >= (2 * rotateSeconds + 61) * 1_000_000_000)
  {
    var runs := QueueRuns(full, own, others);
    var ok, executed, achieved, witnesses := ReplayRuns(store, loaded, full.takenAt, runs, target);
    if !ok {
      return HeadUnreadable;
    }
    var holes := Holes(witnesses, executed);
    CompleteExactly(store, runs, target, executed, witnesses, holes);
    if holes != [] {
      return GtidHole(holes);
    }
    if full.gtidPurged.Some? && full.gtidPurged.value != {} && !(full.gtidPurged.value <= executed) {
      return DumpIncomplete;
    }
    WithinBoundExactly(target, achieved, rotateSeconds);
    if !WithinBound(target, achieved, rotateSeconds) {
      return TargetUnreachable;
    }
    r := Restored(achieved);
  }

  lemma CompleteExactly(store: Store, runs: seq<LineageRun>, target: int, executed: GtidSet,
      ws: seq<Witness>, holes: seq<Witness>)
    requires WitnessesOf(store, runs, target, ws)
    requires forall w :: w in holes <==> w in ws && !(w.previousGtids <= executed)
    ensures Complete(store, runs, target, executed) <==> holes == []
    ensures forall w | w in holes ::
      Vouches(store, runs, target, (w.serverUuid, w.file)) && !(w.previousGtids <= executed)
  {
    if holes != [] {
      var w := holes[0];
      assert w in holes;
      assert Vouches(store, runs, target, (w.serverUuid, w.file));
    }
    forall k | Vouches(store, runs, target, k) && !(store(k).value.previousGtids <= executed)
      ensures holes != []
    {
      assert Witness(k.0, k.1, store(k).value.previousGtids) in holes;
    }
  }

  // ----- what acceptance means -----

  /** What the lineages really were: every file each server ever wrote, archived or lost. A file's
      Previous_gtids holds every transaction of its lineage's earlier files. */
  type Written = map<FileKey, Content>

  ghost predicate Truthful(written: Written, store: Store) {
    && (forall k | store(k).Some? :: k in written && written[k] == store(k).value)
    && (forall j, k | j in written && k in written && Precedes(j, k) :: Ids(written[j]) <= written[k].previousGtids)
  }

  predicate Precedes(j: FileKey, k: FileKey) {
    j.0 == k.0 && j.1.number.Some? && k.1.number.Some? && j.1.number.value < k.1.number.value
  }

  function Ids(c: Content): GtidSet {
    set e | e in c.events :: e.id
  }

  ghost predicate Accepted(store: Store, full: FullBackup, own: seq<Binlog>, others: seq<Listing>, loaded: GtidSet,
      target: int, rotateSeconds: nat) {
    var runs := QueuedRuns(full, own, others);
    && RunsReadable(store, runs)
    && Complete(store, runs, target, Executed(store, loaded, runs, target))
    && DumpLoaded(full, Executed(store, loaded, runs, target))
    && WithinBound(target, Reached(store, full.takenAt, runs, target), rotateSeconds)
  }

  /** If the restore is accepted, then for every lineage and every archived file in scope opened
      before the target's second, everything its server had executed by then is in the restored
      set -- including what lay in files missing from the archive. */
  lemma AcceptanceMissesNothing(
      written: Written, store: Store, full: FullBackup, own: seq<Binlog>, others: seq<Listing>, loaded: GtidSet,
      target: int, rotateSeconds: nat, k: FileKey, lost: FileKey)
    requires WellListed(full, own, others) && Truthful(written, store)
    requires Accepted(store, full, own, others, loaded, target, rotateSeconds)
    requires InScope(full, own, others, k) && lost in written && Precedes(lost, k)
    ensures store(k).Some?
    ensures OpenedBeforeCutoff(store(k).value, target) ==>
      Ids(written[lost]) <= store(k).value.previousGtids
        <= Executed(store, loaded, QueuedRuns(full, own, others), target)
  {
    var runs := QueuedRuns(full, own, others);
    RunsCoverTheScope(full, own, others, k);
    var r :| r in runs && r.serverUuid == k.0 && k.1 in r.files;
    var i :| 0 <= i < |r.files| && r.files[i] == k.1;
    assert Readable(store, r, |r.files|);
    assert store((r.serverUuid, r.files[i])).Some?;
    if OpenedBeforeCutoff(store(k).value, target) && store(k).value.previousGtids != {} {
      assert Vouches(store, runs, target, k);
    }
  }

  /** What one run delivers is what its files deliver. */
  lemma {:induction false} RunDelivers(store: Store, run: LineageRun, n: nat, target: int, id: Gtid)
    requires n <= |run.files| && Readable(store, run, n)
    ensures id in DeliveredBy(store, run, n, target) <==>
      exists i :: 0 <= i < n && DeliveredAt(store, run, i, target, id)
  {
    if n > 0 {
      RunDelivers(store, run, n - 1, target, id);
      assert store((run.serverUuid, run.files[n - 1])).Some?;
      assert id in Applied(store((run.serverUuid, run.files[n - 1])).value, StartOf(run, n - 1), target)
        <==> DeliveredAt(store, run, n - 1, target, id);
    }
  }

  predicate DeliveredAt(store: Store, run: LineageRun, i: nat, target: int, id: Gtid)
    requires i < |run.files|
  {
    var c := store((run.serverUuid, run.files[i]));
    c.Some? && id in Applied(c.value, StartOf(run, i), target)
  }

  ghost predicate DeliveredInRuns(store: Store, runs: seq<LineageRun>, target: int, id: Gtid) {
    exists r, i :: r in runs && 0 <= i < |r.files| && DeliveredAt(store, r, i, target, id)
  }

  lemma {:induction false} RunsDeliver(store: Store, loaded: GtidSet, runs: seq<LineageRun>, target: int, id: Gtid)
    requires RunsReadable(store, runs)
    ensures id in Executed(store, loaded, runs, target) <==> id in loaded || DeliveredInRuns(store, runs, target, id)
  {
    if runs != [] {
      var front, last := runs[..|runs| - 1], runs[|runs| - 1];
      assert runs == front + [last];
      RunsDeliver(store, loaded, front, target, id);
      RunDelivers(store, last, |last.files|, target, id);
    }
  }

  /** The dump and every file in scope, each from its start position, up to the target's second. */
  ghost predicate InArchive(store: Store, full: FullBackup, own: seq<Binlog>, others: seq<Listing>, target: int,
      id: Gtid) {
    exists k :: InScope(full, own, others, k) && store(k).Some? && id in Applied(store(k).value, None, target)
  }

  /** Nothing appears in the restored set that the dump or some archived file did not hold, and
      everything a file other than the coordinate file holds up to the target's second appears. */
  lemma RestoredSetIsTheArchives(store: Store, full: FullBackup, own: seq<Binlog>,
      others: seq<Listing>, loaded: GtidSet, target: int, id: Gtid)
    requires WellListed(full, own, others) && RunsReadable(store, QueuedRuns(full, own, others))
    ensures id in Executed(store, loaded, QueuedRuns(full, own, others), target) ==>
      id in loaded || InArchive(store, full, own, others, target, id)
    ensures forall k | InScope(full, own, others, k) && k != (full.serverUuid, full.coordinate) ::
      id in (if store(k).Some? then Applied(store(k).value, None, target) else {}) ==>
      id in Executed(store, loaded, QueuedRuns(full, own, others), target)
  {
    var runs := QueuedRuns(full, own, others);
    RunsDeliver(store, loaded, runs, target, id);
    if DeliveredInRuns(store, runs, target, id) {
      var r, i :| r in runs && 0 <= i < |r.files| && DeliveredAt(store, r, i, target, id);
      var k := (r.serverUuid, r.files[i]);
      assert Queued(runs, k);
      RunsCoverTheScope(full, own, others, k);
      AppliedFromTheStart(store(k).value, StartOf(r, i), target);
    }
    forall k | InScope(full, own, others, k) && k != (full.serverUuid, full.coordinate) && store(k).Some?
      && id in Applied(store(k).value, None, target)
      ensures DeliveredInRuns(store, runs, target, id)
    {
      RunsCoverTheScope(full, own, others, k);
      var r :| r in runs && r.serverUuid == k.0 && k.1 in r.files;
      var i :| 0 <= i < |r.files| && r.files[i] == k.1;
      OnlyTheCoordinateFileIsCut(full, own, others, r);
      assert DeliveredAt(store, r, i, target, id);
    }
  }

  lemma AppliedFromTheStart(c: Content, start: Option<nat>, target: int)
    ensures Applied(c, start, target) <= Applied(c, None, target)
  {}

  /** A start position applies to one file only: the coordinate file of the selected full. */
  lemma OnlyTheCoordinateFileIsCut(full: FullBackup, own: seq<Binlog>, others: seq<Listing>,
      r: LineageRun)
    requires WellListed(full, own, others) && r in QueuedRuns(full, own, others)
    ensures r.startPosition.Some? && r.files != [] ==> r.serverUuid == full.serverUuid && r.files[0] == full.coordinate
  {
    SameRuns(OwnRuns(full, own) + AllOtherRuns(others));
    if r in OwnRuns(full, own) {
      OwnRunIsCut(full, own, r);
    } else {
      OthersAreWhole(others, r);
    }
  }

  lemma OwnRunIsCut(full: FullBackup, own: seq<Binlog>, r: LineageRun)
    requires WellNamed(own) && full.coordinate.number.Some? && r in OwnRuns(full, own)
    ensures r.startPosition.Some? && r.files != [] ==> r.serverUuid == full.serverUuid && r.files[0] == full.coordinate
  {
    var plan := Plan(own, full.coordinate);
    if full.coordinate in own {
      RunIsMaximal(own, full.coordinate);
    } else {
      ReplayWithoutTheStartFile(own, full.coordinate);
    }
    PastGapAreWhole(full.serverUuid, own, plan.gap, r);
  }

  lemma {:induction false} NumberedAreWhole(uuid: string, runs: seq<seq<Binlog>>, r: LineageRun)
    ensures r in Numbered(uuid, runs) ==> r.startPosition.None? && 1 <= r.round <= |runs|
  {
    if runs != [] {
      NumberedAreWhole(uuid, runs[..|runs| - 1], r);
    }
  }

  lemma PastGapAreWhole(uuid: string, files: seq<Binlog>, gap: Option<BinlogGap>, r: LineageRun)
    ensures r in PastGap(uuid, files, gap) ==> r.startPosition.None? && r.round >= 1
  {
    if gap.Some? {
      NumberedAreWhole(uuid, RunsPastGap(files, gap.value.nextPresent), r);
    }
  }

  lemma {:induction false} OthersAreWhole(others: seq<Listing>, r: LineageRun)
    requires r in AllOtherRuns(others)
    ensures r.startPosition.None?
  {
    var front, last := others[..|others| - 1], others[|others| - 1];
    if r in AllOtherRuns(front) {
      OthersAreWhole(front, r);
    } else if last.files != [] {
      var plan := Plan(last.files, Sorted(last.files)[0]);
      PastGapAreWhole(last.serverUuid, last.files, plan.gap, r);
    }
  }

  /** What a loaded dump holds beyond its coordinate file's start: the events before the position. */
  predicate DumpReaches(store: Store, full: FullBackup, loaded: GtidSet) {
    var k := (full.serverUuid, full.coordinate);
    store(k).Some? ==> forall e | e in store(k).value.events && e.position < full.position :: e.id in loaded
  }

  /** The hole check refuses exactly when some transaction is vouched for that neither the dump nor
      any file in scope delivers before the target's second. */
  lemma RefusedExactlyWhenLost(store: Store, full: FullBackup, own: seq<Binlog>,
      others: seq<Listing>, loaded: GtidSet, target: int)
    requires WellListed(full, own, others) && RunsReadable(store, QueuedRuns(full, own, others))
    requires DumpReaches(store, full, loaded)
    ensures var runs := QueuedRuns(full, own, others);
      !Complete(store, runs, target, Executed(store, loaded, runs, target)) <==>
        exists k, id :: InScope(full, own, others, k) && VouchedFor(store, target, k, id)
          && id !in loaded && !InArchive(store, full, own, others, target, id)
  {
    var runs := QueuedRuns(full, own, others);
    var executed := Executed(store, loaded, runs, target);
    forall k
      ensures Queued(runs, k) <==> InScope(full, own, others, k)
    {
      RunsCoverTheScope(full, own, others, k);
    }
    forall id
      ensures id in executed <==> id in loaded || InArchive(store, full, own, others, target, id)
    {
      ExactlyTheArchive(store, full, own, others, loaded, target, id);
    }
    if !Complete(store, runs, target, executed) {
      var k :| Vouches(store, runs, target, k) && !(store(k).value.previousGtids <= executed);
      var id :| id in store(k).value.previousGtids && id !in executed;
      assert VouchedFor(store, target, k, id);
    }
    forall k, id | InScope(full, own, others, k) && VouchedFor(store, target, k, id) && id !in executed
      ensures !Complete(store, runs, target, executed)
    {
      assert Vouches(store, runs, target, k);
    }
  }

  predicate VouchedFor(store: Store, target: int, k: FileKey, id: Gtid) {
    store(k).Some? && OpenedBeforeCutoff(store(k).value, target) && id in store(k).value.previousGtids
  }

  lemma ExactlyTheArchive(store: Store, full: FullBackup, own: seq<Binlog>, others: seq<Listing>,
      loaded: GtidSet, target: int, id: Gtid)
    requires WellListed(full, own, others) && RunsReadable(store, QueuedRuns(full, own, others))
    requires DumpReaches(store, full, loaded)
    ensures id in Executed(store, loaded, QueuedRuns(full, own, others), target) <==>
      id in loaded || InArchive(store, full, own, others, target, id)
  {
    var runs := QueuedRuns(full, own, others);
    RestoredSetIsTheArchives(store, full, own, others, loaded, target, id);
    RunsDeliver(store, loaded, runs, target, id);
    if InArchive(store, full, own, others, target, id) && id !in loaded {
      var k :| InScope(full, own, others, k) && store(k).Some? && id in Applied(store(k).value, None, target);
      if k == (full.serverUuid, full.coordinate) {
        RunsCoverTheScope(full, own, others, k);
        var r :| r in runs && r.serverUuid == k.0 && k.1 in r.files;
        var i :| 0 <= i < |r.files| && r.files[i] == k.1;
        StartPositionIsTheFulls(full, own, others, r);
        assert DeliveredAt(store, r, i, target, id);
      }
    }
  }

  lemma StartPositionIsTheFulls(full: FullBackup, own: seq<Binlog>, others: seq<Listing>,
      r: LineageRun)
    requires r in QueuedRuns(full, own, others)
    ensures r.startPosition.Some? ==> r.startPosition.value == full.position
  {
    SameRuns(OwnRuns(full, own) + AllOtherRuns(others));
    if r in OwnRuns(full, own) {
      PastGapAreWhole(full.serverUuid, own, Plan(own, full.coordinate).gap, r);
    } else {
      OthersAreWhole(others, r);
    }
  }

  // ----- the restored set, event by event -----

  /** The full's own lineage is listed once, apart from the others. */
  predicate OwnIsApart(full: FullBackup, others: seq<Listing>) {
    forall l | l in others :: l.serverUuid != full.serverUuid
  }

  lemma {:induction false} OtherRunsAreElsewhere(full: FullBackup, others: seq<Listing>, r: LineageRun)
    requires OwnIsApart(full, others) && r in AllOtherRuns(others)
    ensures r.serverUuid != full.serverUuid
  {
    var front, last := others[..|others| - 1], others[|others| - 1];
    if r in AllOtherRuns(front) {
      OtherRunsAreElsewhere(full, front, r);
    } else {
      assert last in others;
      PastGapIsOf(last.serverUuid, last.files, Plan(last.files, Sorted(last.files)[0]).gap, r);
    }
  }

  lemma PastGapIsOf(uuid: string, files: seq<Binlog>, gap: Option<BinlogGap>, r: LineageRun)
    ensures r in PastGap(uuid, files, gap) ==>
      r.serverUuid == uuid && gap.Some? && r.files in RunsPastGap(files, gap.value.nextPresent)
  {
    if gap.Some? && r in PastGap(uuid, files, gap) {
      NumberedIsOf(uuid, RunsPastGap(files, gap.value.nextPresent), r);
    }
  }

  lemma {:induction false} NumberedIsOf(uuid: string, runs: seq<seq<Binlog>>, r: LineageRun)
    requires r in Numbered(uuid, runs)
    ensures r.serverUuid == uuid && r.files in runs
  {
    var front := runs[..|runs| - 1];
    if r in Numbered(uuid, front) {
      NumberedIsOf(uuid, front, r);
      assert r.files in front;
    }
  }

  lemma FirstComesOnce(run: seq<Binlog>, past: seq<Binlog>)
    requires Ascending(run + past) && run != []
    ensures run[0] !in past
  {
    forall i | 0 <= i < |past|
      ensures past[i] != run[0]
    {
      assert (run + past)[0] == run[0] && (run + past)[|run| + i] == past[i];
    }
  }

  lemma ReplayedInParts(files: seq<Binlog>, start: Binlog)
    requires Plan(files, start).gap.Some?
    ensures Replayed(files, start) ==
      Plan(files, start).run + Flatten(RunsPastGap(files, Plan(files, start).gap.value.nextPresent))
  {}

  /** Past a gap the start file does not come again. */
  lemma StartIsNotPastTheGap(files: seq<Binlog>, start: Binlog, run: seq<Binlog>)
    requires WellNamed(files) && start.number.Some?
    requires var gap := Plan(files, start).gap; gap.Some? && run in RunsPastGap(files, gap.value.nextPresent)
    ensures start !in run
  {
    var past := RunsPastGap(files, Plan(files, start).gap.value.nextPresent);
    FlattenedFiles(past, start);
    ReplayedInParts(files, start);
    if start in files {
      RunIsMaximal(files, start);
      ReplayIsAnExactPartition(files, start);
      FirstComesOnce(Plan(files, start).run, Flatten(past));
    } else {
      ReplayWithoutTheStartFile(files, start);
      assert start in Flatten(past) ==> start in Replayed(files, start);
    }
  }

  /** Wherever the coordinate file is queued, replay starts in it at the full's position. */
  lemma CoordinateFileIsCut(full: FullBackup, own: seq<Binlog>, others: seq<Listing>, r: LineageRun, i: nat)
    requires WellListed(full, own, others) && OwnIsApart(full, others) && r in QueuedRuns(full, own, others)
    requires i < |r.files| && r.serverUuid == full.serverUuid && r.files[i] == full.coordinate
    ensures StartOf(r, i) == Some(full.position)
  {
    SameRuns(OwnRuns(full, own) + AllOtherRuns(others));
    var plan := Plan(own, full.coordinate);
    if r in AllOtherRuns(others) {
      OtherRunsAreElsewhere(full, others, r);
    }
    PastGapIsOf(full.serverUuid, own, plan.gap, r);
    if plan.gap.Some? && r.files in RunsPastGap(own, plan.gap.value.nextPresent) {
      StartIsNotPastTheGap(own, full.coordinate, r.files);
    }
    assert r in [LineageRun(full.serverUuid, plan.run, Some(full.position), 0)];
    StartComesFirst(own, full.coordinate, i);
  }

  lemma StartComesFirst(files: seq<Binlog>, start: Binlog, i: nat)
    requires WellNamed(files) && start.number.Some?
    requires i < |Plan(files, start).run| && Plan(files, start).run[i] == start
    ensures i == 0
  {
    if start in files {
      RunIsMaximal(files, start);
    } else {
      ReplayWithoutTheStartFile(files, start);
    }
  }

  /** What a file in scope holds of a transaction: an event before the second of the target, and in the coordinate
      file none before the position the dump shows. */
  lemma EventIsDelivered(store: Store, full: FullBackup, own: seq<Binlog>, others: seq<Listing>, target: int,
      k: FileKey, e: Event)
    requires WellListed(full, own, others) && OwnIsApart(full, others)
    requires InScope(full, own, others, k) && store(k).Some? && e in store(k).value.events
    requires e.at / 1_000_000_000 < target / 1_000_000_000
    requires k == (full.serverUuid, full.coordinate) ==> e.position >= full.position
    ensures DeliveredInRuns(store, QueuedRuns(full, own, others), target, e.id)
  {
    RunsCoverTheScope(full, own, others, k);
    var r :| r in QueuedRuns(full, own, others) && r.serverUuid == k.0 && k.1 in r.files;
    var i :| 0 <= i < |r.files| && r.files[i] == k.1;
    OnlyTheCoordinateFileIsCut(full, own, others, r);
    StartPositionIsTheFulls(full, own, others, r);
    assert DeliveredAt(store, r, i, target, e.id);
  }

  lemma DeliveredEvent(store: Store, full: FullBackup, own: seq<Binlog>, others: seq<Listing>, target: int,
      r: LineageRun, i: nat, id: Gtid) returns (k: FileKey, e: Event)
    requires WellListed(full, own, others) && OwnIsApart(full, others) && r in QueuedRuns(full, own, others)
    requires i < |r.files| && DeliveredAt(store, r, i, target, id)
    ensures InScope(full, own, others, k) && store(k).Some? && e in store(k).value.events && e.id == id
    ensures e.at / 1_000_000_000 < target / 1_000_000_000
    ensures k == (full.serverUuid, full.coordinate) ==> e.position >= full.position
  {
    k := (r.serverUuid, r.files[i]);
    assert Queued(QueuedRuns(full, own, others), k);
    RunsCoverTheScope(full, own, others, k);
    var start := StartOf(r, i);
    e :| e in store(k).value.events && (start.None? || e.position >= start.value)
      && Seconds(e.at) < Seconds(target) && e.id == id;
    if k == (full.serverUuid, full.coordinate) {
      CoordinateFileIsCut(full, own, others, r, i);
    }
  }

  /** Some file in scope holds an event of the transaction before the second of the target -- in the coordinate file,
      at or past the position the dump shows. */
  ghost predicate HoldsEvent(store: Store, full: FullBackup, own: seq<Binlog>, others: seq<Listing>, target: int,
      id: Gtid) {
    exists k, e ::
      && InScope(full, own, others, k) && store(k).Some? && e in store(k).value.events && e.id == id
      && e.at / 1_000_000_000 < target / 1_000_000_000
      && (k == (full.serverUuid, full.coordinate) ==> e.position >= full.position)
  }

  /** The restored set, by the fields of the events alone: the dump's transactions, those of which some file in scope
      holds an event the restore may replay, and nothing else. */
  lemma RestoredSetExactly(store: Store, full: FullBackup, own: seq<Binlog>, others: seq<Listing>, loaded: GtidSet,
      target: int, id: Gtid)
    requires WellListed(full, own, others) && OwnIsApart(full, others)
    requires RunsReadable(store, QueuedRuns(full, own, others))
    ensures id in Executed(store, loaded, QueuedRuns(full, own, others), target) <==>
      id in loaded || HoldsEvent(store, full, own, others, target, id)
  {
    var runs := QueuedRuns(full, own, others);
    RunsDeliver(store, loaded, runs, target, id);
    if DeliveredInRuns(store, runs, target, id) {
      var r, i: nat :| r in runs && i < |r.files| && DeliveredAt(store, r, i, target, id);
      var k, e := DeliveredEvent(store, full, own, others, target, r, i, id);
    }
    forall k, e | InScope(full, own, others, k) && store(k).Some? && e in store(k).value.events && e.id == id
        && e.at / 1_000_000_000 < target / 1_000_000_000
        && (k == (full.serverUuid, full.coordinate) ==> e.position >= full.position)
      ensures DeliveredInRuns(store, runs, target, id)
    {
      EventIsDelivered(store, full, own, others, target, k, e);
    }
  }

  /** A file in scope, opened before the second of the target, names the transaction among those before it. */
  ghost predicate TestifiesTo(store: Store, full: FullBackup, own: seq<Binlog>, others: seq<Listing>, target: int,
      k: FileKey, id: Gtid) {
    && InScope(full, own, others, k) && store(k).Some? && id in store(k).value.previousGtids
    && store(k).value.createdAt / 1_000_000_000 < target / 1_000_000_000
  }

  lemma IncompleteByTestimony(store: Store, full: FullBackup, own: seq<Binlog>, others: seq<Listing>, target: int,
      executed: GtidSet)
    requires WellListed(full, own, others)
    ensures !Complete(store, QueuedRuns(full, own, others), target, executed) <==>
      exists k, id :: TestifiesTo(store, full, own, others, target, k, id) && id !in executed
  {
    var runs := QueuedRuns(full, own, others);
    if !Complete(store, runs, target, executed) {
      var k :| Vouches(store, runs, target, k) && !(store(k).value.previousGtids <= executed);
      var id :| id in store(k).value.previousGtids && id !in executed;
      RunsCoverTheScope(full, own, others, k);
      assert TestifiesTo(store, full, own, others, target, k, id);
    }
    forall k, id | TestifiesTo(store, full, own, others, target, k, id) && id !in executed
      ensures !Complete(store, runs, target, executed)
    {
      RunsCoverTheScope(full, own, others, k);
      assert Vouches(store, runs, target, k);
    }
  }

  /** The hole check, by the fields alone: it refuses exactly when a file in scope, opened before the second of the
      target, testifies to a transaction that neither the dump brought nor any event in scope delivers. */
  lemma RefusedByTheFields(store: Store, full: FullBackup, own: seq<Binlog>, others: seq<Listing>, loaded: GtidSet,
      target: int)
    requires WellListed(full, own, others) && OwnIsApart(full, others)
    requires RunsReadable(store, QueuedRuns(full, own, others))
    ensures var runs := QueuedRuns(full, own, others);
      !Complete(store, runs, target, Executed(store, loaded, runs, target)) <==>
        exists k, id :: TestifiesTo(store, full, own, others, target, k, id)
          && id !in loaded && !HoldsEvent(store, full, own, others, target, id)
  {
    var executed := Executed(store, loaded, QueuedRuns(full, own, others), target);
    IncompleteByTestimony(store, full, own, others, target, executed);
    forall id
      ensures id in executed <==> id in loaded || HoldsEvent(store, full, own, others, target, id)
    {
      RestoredSetExactly(store, full, own, others, loaded, target, id);
    }
  }

  // ----- why the runs past a gap must replay -----

  /** A file is lost, the one after it is archived and was opened before the target: cutting the
      lineage at the hole leaves a set that the witnesses consulted find complete, within the
      allowed lag, while the whole queue shows the loss. */
  lemma CuttingAtTheGapAcceptsALoss(store: Store, full: FullBackup, first: Binlog, last: Binlog,
      target: int, id: Gtid)
    requires full.coordinate == first && first.number == Some(1) && last.number == Some(3)
    requires target == 30 * NANOS
    requires store((full.serverUuid, first)) == Some(Content(0, {}, [], 10 * NANOS))
    requires store((full.serverUuid, last)) == Some(Content(20 * NANOS, {id}, [], 21 * NANOS))
    ensures var whole := QueuedRuns(full, [first, last], []);
      var cut := [LineageRun(full.serverUuid, Plan([first, last], first).run, Some(full.position), 0)];
      && RunsReadable(store, cut) && RunsReadable(store, whole)
      && Complete(store, cut, target, Executed(store, {}, cut, target))
      && WithinBound(target, Reached(store, 0, cut, target), 0)
      && !Complete(store, whole, target, Executed(store, {}, whole, target))
  {
    var own := [first, last];
    var whole := QueuedRuns(full, own, []);
    CutRunIsTheFirst(own, first, last);
    CutLooksComplete(store, LineageRun(full.serverUuid, [first], Some(full.position), 0), first, target);
    forall k: FileKey
      ensures Queued(whole, k) <==> k == (full.serverUuid, first) || k == (full.serverUuid, last)
    {
      BothAreQueued(full, own, first, last, k);
    }
    WholeShowsTheLoss(store, full, whole, first, last, target, id);
  }

  lemma BothAreQueued(full: FullBackup, own: seq<Binlog>, first: Binlog, last: Binlog, k: FileKey)
    requires own == [first, last] && full.coordinate == first && first.number == Some(1) && last.number == Some(3)
    ensures Queued(QueuedRuns(full, own, []), k) <==> k == (full.serverUuid, first) || k == (full.serverUuid, last)
  {
    assert own[0] == first && own[1] == last;
    RunsCoverTheScope(full, own, [], k);
  }

  lemma CutLooksComplete(store: Store, run: LineageRun, first: Binlog, target: int)
    requires run.files == [first] && target == 30 * NANOS
    requires store((run.serverUuid, first)) == Some(Content(0, {}, [], 10 * NANOS))
    ensures RunsReadable(store, [run])
    ensures Complete(store, [run], target, Executed(store, {}, [run], target))
    ensures WithinBound(target, Reached(store, 0, [run], target), 0)
  {
    assert run.files[0] == first;
    forall k: FileKey
      ensures Queued([run], k) <==> k == (run.serverUuid, first)
    {
      QueuedOne(run, k);
    }
    assert RunsReadable(store, [run]) && [run][..0] == [];
    assert Reached(store, 0, [], target) == 0;
  }

  lemma WholeShowsTheLoss(store: Store, full: FullBackup, whole: seq<LineageRun>, first: Binlog,
      last: Binlog, target: int, id: Gtid)
    requires forall k :: Queued(whole, k) <==> k == (full.serverUuid, first) || k == (full.serverUuid, last)
    requires target == 30 * NANOS
    requires store((full.serverUuid, first)) == Some(Content(0, {}, [], 10 * NANOS))
    requires store((full.serverUuid, last)) == Some(Content(20 * NANOS, {id}, [], 21 * NANOS))
    ensures RunsReadable(store, whole) && !Complete(store, whole, target, Executed(store, {}, whole, target))
  {
    forall r, i | r in whole && 0 <= i < |r.files|
      ensures store((r.serverUuid, r.files[i])).Some? && store((r.serverUuid, r.files[i])).value.events == []
    {
      assert Queued(whole, (r.serverUuid, r.files[i]));
    }
    assert Vouches(store, whole, target, (full.serverUuid, last));
    RunsDeliver(store, {}, whole, target, id);
  }

  lemma CutRunIsTheFirst(own: seq<Binlog>, first: Binlog, last: Binlog)
    requires own == [first, last] && first.number == Some(1) && last.number == Some(3)
    ensures Plan(own, first).run == [first]
  {
    var run := Plan(own, first).run;
    RunIsMaximal(own, first);
    RunIsListed(own, first);
    assert |run| == 1;
  }
}
