/** A shared-history restore on a swept archive against the same restore on one never swept: the verdict
    and the point reached, not only the transactions, are the same for every target inside the window. */
module SharedAcceptance {
  import opened Common
  import opened BinlogNames
  import opened ReplayPlan
  import opened Archive
  import opened SharedRestore
  import SharedArchive

  /** What each archived binlog carries whose head can be read. */
  type Contents = map<FileKey, Content>

  /** Some transaction of the history bears this identity and was committed by then. */
  ghost predicate CommittedBy(history: set<SharedArchive.Txn>, id: Gtid, at: int) {
    exists t :: t in history && t.id == id && t.at <= at
  }

  /** A binlog holds its file's transactions, was closed before it was uploaded, and its server opened it
      with nothing the history had not committed by then. */
  ghost predicate FitsFile(history: set<SharedArchive.Txn>, file: SharedArchive.File, c: Content) {
    && file.txns == (set e | e in c.events :: SharedArchive.Txn(e.id, e.at))
    && c.createdAt <= c.lastEventAt <= file.uploadedAt
    && forall id | id in c.previousGtids :: CommittedBy(history, id, c.createdAt)
  }

  /** Contents a lineage's server could have written: a later file ends no earlier, and a file below a
      full's coordinate was closed by its snapshot. */
  ghost predicate Carries(history: set<SharedArchive.Txn>, s: SharedArchive.State, contents: Contents) {
    && contents.Keys <= s.files.Keys
    && (forall k | k in contents :: FitsFile(history, s.files[k], contents[k]))
    && EndsAscend(contents)
    && (forall k, l {:trigger k in contents, l in s.landed} | k in contents && l in s.landed
          && k.0 == l.full.serverUuid && SharedArchive.Superseded(k, s.files[k], l) ::
            contents[k].lastEventAt <= l.snapshotAt)
  }

  predicate EndsAscend(contents: Contents) {
    forall j, k {:trigger j in contents, k in contents} | j in contents && k in contents && Precedes(j, k) ::
      contents[j].lastEventAt <= contents[k].lastEventAt
  }

  /** No full was named before the snapshot of an earlier one was taken. */
  predicate DumpsDoNotOverlap(landed: seq<SharedArchive.Landed>) {
    forall m, l {:trigger m in landed, l in landed} | m in landed && l in landed && m.full.takenAt < l.full.takenAt ::
      m.snapshotAt <= l.full.takenAt
  }

  function StoreOf(contents: Contents): Store {
    (k: FileKey) => if k in contents then Some(contents[k]) else None
  }

  /** What a restore finds of an archive: the files there, what the readable ones carry, and the listing of the
      full's own lineage and of every other. */
  datatype View = View(files: set<FileKey>, contents: Contents, own: seq<Binlog>, others: seq<Listing>)

  ghost predicate Lists(v: View, full: FullBackup) {
    && WellListed(full, v.own, v.others) && v.contents.Keys <= v.files
    && (forall b :: b in v.own <==> (full.serverUuid, b) in v.files)
    && (forall k: FileKey :: k in v.files && k.0 != full.serverUuid <==> ListedIn(v.others, k))
  }

  ghost predicate ListedIn(others: seq<Listing>, k: FileKey) {
    exists l :: l in others && k.0 == l.serverUuid && k.1 in l.files
  }

  function Runs(v: View, full: FullBackup): seq<LineageRun> {
    QueuedRuns(full, v.own, v.others)
  }

  /** Every file the restore fetches is readable. */
  predicate IsReadable(v: View, full: FullBackup) {
    RunsReadable(StoreOf(v.contents), Runs(v, full))
  }

  // ----- a restore looks at what it lists -----

  lemma ScopeIsTheArchive(v: View, full: FullBackup, k: FileKey)
    requires Lists(v, full)
    ensures InScope(full, v.own, v.others, k) <==> k in v.files && SharedArchive.Replays(full, k)
    ensures Queued(Runs(v, full), k) <==> InScope(full, v.own, v.others, k)
  {
    assert k == (k.0, k.1);
    assert InScope(full, v.own, v.others, k) ==> (k.0 == full.serverUuid && k.1 in v.own) || ListedIn(v.others, k);
    assert ListedIn(v.others, k) ==> InScope(full, v.own, v.others, k);
    RunsCoverTheScope(full, v.own, v.others, k);
  }

  lemma QueuedIsInScope(v: View, full: FullBackup, r: LineageRun, f: Binlog)
    requires Lists(v, full) && r in Runs(v, full) && f in r.files
    ensures (r.serverUuid, f) in v.files && SharedArchive.Replays(full, (r.serverUuid, f))
  {
    assert Queued(Runs(v, full), (r.serverUuid, f));
    ScopeIsTheArchive(v, full, (r.serverUuid, f));
  }

  /** A restore can read all it fetches exactly when every file in scope is readable. */
  lemma ReadableExactly(v: View, full: FullBackup)
    requires Lists(v, full)
    ensures IsReadable(v, full) <==> forall k | k in v.files && SharedArchive.Replays(full, k) :: k in v.contents
  {
    if forall k | k in v.files && SharedArchive.Replays(full, k) :: k in v.contents {
      forall r, i | r in Runs(v, full) && 0 <= i < |r.files|
        ensures StoreOf(v.contents)((r.serverUuid, r.files[i])).Some?
      {
        QueuedIsInScope(v, full, r, r.files[i]);
      }
    }
    if IsReadable(v, full) {
      forall k | k in v.files && SharedArchive.Replays(full, k)
        ensures k in v.contents
      {
        ScopeIsTheArchive(v, full, k);
        var r :| r in Runs(v, full) && r.serverUuid == k.0 && k.1 in r.files;
        var i :| 0 <= i < |r.files| && r.files[i] == k.1;
        assert Readable(StoreOf(v.contents), r, |r.files|);
        assert StoreOf(v.contents)((r.serverUuid, r.files[i])).Some?;
      }
    }
  }

  // ----- how far a replay gets -----

  /** What the last file of a run adds to the point reached. */
  function EndOf(store: Store, r: LineageRun, target: int): int
    requires r.files != [] && Readable(store, r, |r.files|)
  {
    Earlier(store((r.serverUuid, r.files[|r.files| - 1])).value.lastEventAt, target)
  }

  lemma {:induction false} ReachedByItsRuns(store: Store, takenAt: int, runs: seq<LineageRun>, target: int)
    requires RunsReadable(store, runs)
    ensures Reached(store, takenAt, runs, target) >= takenAt
    ensures forall r | r in runs && r.files != [] :: EndOf(store, r, target) <= Reached(store, takenAt, runs, target)
    ensures Reached(store, takenAt, runs, target) == takenAt
      || exists r :: r in runs && r.files != [] && EndOf(store, r, target) == Reached(store, takenAt, runs, target)
  {
    if runs != [] {
      var front, last := runs[..|runs| - 1], runs[|runs| - 1];
      assert runs == front + [last];
      ReachedByItsRuns(store, takenAt, front, target);
    }
  }

  lemma PastGapIsConsecutive(uuid: string, files: seq<Binlog>, gap: Option<BinlogGap>, r: LineageRun)
    requires WellNamed(files) && r in PastGap(uuid, files, gap)
    ensures Consecutive(r.files)
  {
    RunsPastGapAreConsecutive(files, gap.value.nextPresent);
    PastGapIsOf(uuid, files, gap, r);
  }

  predicate InSequence(r: LineageRun) {
    r.files == [] || Consecutive(r.files)
  }

  lemma OwnRunsInSequence(full: FullBackup, own: seq<Binlog>, r: LineageRun)
    requires WellNamed(own) && full.coordinate.number.Some? && r in OwnRuns(full, own)
    ensures InSequence(r)
  {
    var plan := Plan(own, full.coordinate);
    if r in PastGap(full.serverUuid, own, plan.gap) {
      PastGapIsConsecutive(full.serverUuid, own, plan.gap, r);
    } else if full.coordinate in own {
      RunIsMaximal(own, full.coordinate);
    } else {
      ReplayWithoutTheStartFile(own, full.coordinate);
    }
  }

  lemma {:induction false} OtherRunsInSequence(others: seq<Listing>, r: LineageRun)
    requires (forall l | l in others :: WellNamed(l.files)) && r in AllOtherRuns(others)
    ensures InSequence(r)
  {
    var front, last := others[..|others| - 1], others[|others| - 1];
    if r in AllOtherRuns(front) {
      OtherRunsInSequence(front, r);
    } else {
      var plan := Plan(last.files, Sorted(last.files)[0]);
      FirstIsLeast(last.files);
      if r in PastGap(last.serverUuid, last.files, plan.gap) {
        PastGapIsConsecutive(last.serverUuid, last.files, plan.gap, r);
      } else {
        RunIsMaximal(last.files, Sorted(last.files)[0]);
      }
    }
  }

  lemma QueuedInSequence(full: FullBackup, own: seq<Binlog>, others: seq<Listing>, r: LineageRun)
    requires WellListed(full, own, others) && r in QueuedRuns(full, own, others)
    ensures InSequence(r)
  {
    SameRuns(OwnRuns(full, own) + AllOtherRuns(others));
    if r in OwnRuns(full, own) {
      OwnRunsInSequence(full, own, r);
    } else {
      OtherRunsInSequence(others, r);
    }
  }

  /** Within a run the last file ends last. */
  lemma LastEndsLast(contents: Contents, r: LineageRun, i: nat)
    requires EndsAscend(contents) && Consecutive(r.files) && i < |r.files|
    requires forall f | f in r.files :: (r.serverUuid, f) in contents
    ensures var last := r.files[|r.files| - 1];
      contents[(r.serverUuid, r.files[i])].lastEventAt <= contents[(r.serverUuid, last)].lastEventAt
  {
    var last := |r.files| - 1;
    assert r.files[i] in r.files && r.files[last] in r.files;
    assert i < last ==> Precedes((r.serverUuid, r.files[i]), (r.serverUuid, r.files[last]));
  }

  /** The point reached is where the dump was named, or the end of the latest file in scope. */
  predicate ReachesExactly(contents: Contents, full: FullBackup, target: int, reached: int) {
    && reached >= full.takenAt
    && (forall k | k in contents && SharedArchive.Replays(full, k) ::
      Earlier(contents[k].lastEventAt, target) <= reached)
    && (reached == full.takenAt
        || exists k ::
             k in contents && SharedArchive.Replays(full, k) && Earlier(contents[k].lastEventAt, target) == reached)
  }

  lemma RunReaches(contents: Contents, full: FullBackup, runs: seq<LineageRun>, r: LineageRun, i: nat, target: int)
    requires EndsAscend(contents) && RunsReadable(StoreOf(contents), runs) && r in runs && InSequence(r)
      && i < |r.files|
    requires forall f | f in r.files :: (r.serverUuid, f) in contents
    ensures Earlier(contents[(r.serverUuid, r.files[i])].lastEventAt, target)
      <= Reached(StoreOf(contents), full.takenAt, runs, target)
  {
    LastEndsLast(contents, r, i);
    ReachedByItsRuns(StoreOf(contents), full.takenAt, runs, target);
    assert EndOf(StoreOf(contents), r, target)
      == Earlier(contents[(r.serverUuid, r.files[|r.files| - 1])].lastEventAt, target);
  }

  function ReachedOn(v: View, full: FullBackup, target: int): int
    requires IsReadable(v, full)
  {
    Reached(StoreOf(v.contents), full.takenAt, Runs(v, full), target)
  }

  lemma FileIsReached(v: View, full: FullBackup, target: int, k: FileKey)
    requires Lists(v, full) && EndsAscend(v.contents) && IsReadable(v, full)
    requires k in v.contents && SharedArchive.Replays(full, k)
    ensures Earlier(v.contents[k].lastEventAt, target) <= ReachedOn(v, full, target)
  {
    ScopeIsTheArchive(v, full, k);
    var r :| r in Runs(v, full) && r.serverUuid == k.0 && k.1 in r.files;
    var i :| 0 <= i < |r.files| && r.files[i] == k.1;
    QueuedInSequence(full, v.own, v.others, r);
    ReadableExactly(v, full);
    forall f | f in r.files
      ensures (r.serverUuid, f) in v.contents
    {
      QueuedIsInScope(v, full, r, f);
    }
    RunReaches(v.contents, full, Runs(v, full), r, i, target);
  }

  lemma ReachedFromTheScope(v: View, full: FullBackup, target: int)
    requires Lists(v, full) && EndsAscend(v.contents) && IsReadable(v, full)
    ensures ReachesExactly(v.contents, full, target, ReachedOn(v, full, target))
  {
    var reached := ReachedOn(v, full, target);
    ReachedByItsRuns(StoreOf(v.contents), full.takenAt, Runs(v, full), target);
    ReadableExactly(v, full);
    forall k | k in v.contents && SharedArchive.Replays(full, k)
      ensures Earlier(v.contents[k].lastEventAt, target) <= reached
    {
      FileIsReached(v, full, target, k);
    }
    if reached != full.takenAt {
      var r :| r in Runs(v, full) && r.files != [] && EndOf(StoreOf(v.contents), r, target) == reached;
      var f := r.files[|r.files| - 1];
      QueuedIsInScope(v, full, r, f);
      assert Earlier(v.contents[(r.serverUuid, f)].lastEventAt, target) == reached;
    }
  }

  // ----- what is gone changes nothing -----

  /** A full that was never planned away, and the archive around it. */
  ghost predicate Around(history: set<SharedArchive.Txn>, s: SharedArchive.State, contents: Contents,
      l: SharedArchive.Landed) {
    && SharedArchive.Inv(history, s) && Carries(history, s, contents)
    && l in s.landed && l.full !in s.plannedFulls
  }

  lemma SameInstantSameFull(landed: seq<SharedArchive.Landed>, l: SharedArchive.Landed, m: SharedArchive.Landed)
    requires SharedArchive.InOrder(landed) && l in landed && m in landed && m.full.takenAt <= l.full.takenAt
    ensures m == l || (m.full.takenAt < l.full.takenAt && m.snapshotAt <= l.snapshotAt)
  {
    var i :| 0 <= i < |landed| && landed[i] == l;
    var j :| 0 <= j < |landed| && landed[j] == m;
  }

  /** Whatever is gone was closed by the snapshot; and where the restore would have replayed it, by the
      instant the dump was named. */
  lemma GoneIsOlder(history: set<SharedArchive.Txn>, s: SharedArchive.State, contents: Contents,
      l: SharedArchive.Landed, k: FileKey)
    requires Around(history, s, contents, l) && k in s.goneFiles && k in contents
    ensures contents[k].lastEventAt <= l.snapshotAt
    ensures DumpsDoNotOverlap(s.landed) && SharedArchive.Replays(l.full, k) ==>
      contents[k].lastEventAt <= l.full.takenAt
  {
    var m :| SharedArchive.CoveredBy(s, k, m);
    SameInstantSameFull(s.landed, l, m);
    assert FitsFile(history, s.files[k], contents[k]);
    assert k.0 == m.full.serverUuid ==> contents[k].lastEventAt <= m.snapshotAt;
    assert m.full.takenAt <= m.snapshotAt by {
      var j :| 0 <= j < |s.landed| && s.landed[j] == m;
    }
  }

  function LoadedFrom(history: set<SharedArchive.Txn>, l: SharedArchive.Landed): GtidSet {
    set t | t in SharedArchive.DumpOf(history, l) :: t.id
  }

  /** The dump brings everything a file that is gone carried, and everything it vouched for. */
  lemma GoneIsLoaded(history: set<SharedArchive.Txn>, s: SharedArchive.State, contents: Contents,
      l: SharedArchive.Landed, k: FileKey)
    requires Around(history, s, contents, l) && k in s.goneFiles && k in contents
    ensures Ids(contents[k]) <= LoadedFrom(history, l) && contents[k].previousGtids <= LoadedFrom(history, l)
  {
    GoneIsOlder(history, s, contents, l, k);
    SharedArchive.GoneIsShown(history, s, l, k);
    var c := contents[k];
    assert FitsFile(history, s.files[k], c);
    forall e | e in c.events
      ensures e.id in LoadedFrom(history, l)
    {
      assert SharedArchive.Txn(e.id, e.at) in s.files[k].txns;
      assert SharedArchive.Txn(e.id, e.at) in SharedArchive.DumpOf(history, l);
    }
    forall id | id in c.previousGtids
      ensures id in LoadedFrom(history, l)
    {
      assert CommittedBy(history, id, c.createdAt);
      var t :| t in history && t.id == id && t.at <= c.createdAt;
      assert t in SharedArchive.DumpOf(history, l);
    }
  }

  /** One archive never swept, and the same one with these files gone. */
  ghost predicate Swept(v: View, left: View, gone: set<FileKey>) {
    && left.files == v.files - gone
    && left.contents.Keys == v.contents.Keys - gone
    && forall k | k in left.contents :: left.contents[k] == v.contents[k]
  }

  /** One restore, as the two archives show it. */
  ghost predicate BothList(s: SharedArchive.State, v: View, left: View, full: FullBackup) {
    v.files == s.files.Keys && Swept(v, left, s.goneFiles) && Lists(v, full) && Lists(left, full)
  }

  lemma SameArchiveTransactions(history: set<SharedArchive.Txn>, s: SharedArchive.State, v: View, left: View,
      l: SharedArchive.Landed, target: int, id: Gtid)
    requires Around(history, s, v.contents, l) && BothList(s, v, left, l.full) && id !in LoadedFrom(history, l)
    ensures InArchive(StoreOf(v.contents), l.full, v.own, v.others, target, id)
      <==> InArchive(StoreOf(left.contents), l.full, left.own, left.others, target, id)
  {
    var all, some := StoreOf(v.contents), StoreOf(left.contents);
    if InArchive(all, l.full, v.own, v.others, target, id) {
      var k :| InScope(l.full, v.own, v.others, k) && all(k).Some? && id in Applied(all(k).value, None, target);
      ScopeIsTheArchive(v, l.full, k);
      ScopeIsTheArchive(left, l.full, k);
      if k in s.goneFiles { GoneIsLoaded(history, s, v.contents, l, k); }
      assert some(k) == all(k);
    }
    if InArchive(some, l.full, left.own, left.others, target, id) {
      var k :| InScope(l.full, left.own, left.others, k) && some(k).Some? && id in Applied(some(k).value, None, target);
      ScopeIsTheArchive(v, l.full, k);
      ScopeIsTheArchive(left, l.full, k);
      assert some(k) == all(k);
    }
  }

  function ExecutedOn(history: set<SharedArchive.Txn>, v: View, l: SharedArchive.Landed, target: int): GtidSet
    requires IsReadable(v, l.full)
  {
    Executed(StoreOf(v.contents), LoadedFrom(history, l), Runs(v, l.full), target)
  }

  /** The dump shows the coordinate file up to the position replay picks up from. */
  predicate DumpMeetsReplay(history: set<SharedArchive.Txn>, contents: Contents, l: SharedArchive.Landed) {
    DumpReaches(StoreOf(contents), l.full, LoadedFrom(history, l))
  }

  lemma ExecutedExactly(history: set<SharedArchive.Txn>, v: View, l: SharedArchive.Landed, target: int, id: Gtid)
    requires Lists(v, l.full) && DumpMeetsReplay(history, v.contents, l) && IsReadable(v, l.full)
    ensures id in ExecutedOn(history, v, l, target) <==>
      id in LoadedFrom(history, l) || InArchive(StoreOf(v.contents), l.full, v.own, v.others, target, id)
  {
    ExactlyTheArchive(StoreOf(v.contents), l.full, v.own, v.others, LoadedFrom(history, l), target, id);
  }

  /** Both restores end with one executed set. */
  lemma SameExecuted(history: set<SharedArchive.Txn>, s: SharedArchive.State, v: View, left: View,
      l: SharedArchive.Landed, target: int)
    requires Around(history, s, v.contents, l) && BothList(s, v, left, l.full)
    requires DumpMeetsReplay(history, v.contents, l) && IsReadable(v, l.full) && IsReadable(left, l.full)
    ensures ExecutedOn(history, v, l, target) == ExecutedOn(history, left, l, target)
  {
    forall id
      ensures id in ExecutedOn(history, v, l, target) <==> id in ExecutedOn(history, left, l, target)
    {
      ExecutedExactly(history, v, l, target, id);
      ExecutedExactly(history, left, l, target, id);
      if id !in LoadedFrom(history, l) {
        SameArchiveTransactions(history, s, v, left, l, target, id);
      }
    }
  }

  /** Whether every readable file in scope vouches only for what the set holds. */
  ghost predicate ScopeComplete(contents: Contents, full: FullBackup, target: int, executed: GtidSet) {
    forall k | k in contents && SharedArchive.Replays(full, k) && OpenedBeforeCutoff(contents[k], target) ::
      contents[k].previousGtids <= executed
  }

  ghost predicate CompleteOn(v: View, full: FullBackup, target: int, executed: GtidSet) {
    Complete(StoreOf(v.contents), Runs(v, full), target, executed)
  }

  lemma CompleteByScope(v: View, full: FullBackup, target: int, executed: GtidSet)
    requires Lists(v, full)
    ensures CompleteOn(v, full, target, executed) <==> ScopeComplete(v.contents, full, target, executed)
  {
    forall k: FileKey
      ensures Queued(Runs(v, full), k) <==> k in v.files && SharedArchive.Replays(full, k)
    {
      ScopeIsTheArchive(v, full, k);
    }
    if CompleteOn(v, full, target, executed) {
      forall k | k in v.contents && SharedArchive.Replays(full, k) && OpenedBeforeCutoff(v.contents[k], target)
        ensures v.contents[k].previousGtids <= executed
      {
        if v.contents[k].previousGtids != {} { assert Vouches(StoreOf(v.contents), Runs(v, full), target, k); }
      }
    }
  }

  /** A witness that is gone vouched only for what the dump brings, so its absence hides no hole. */
  lemma SameCompleteness(history: set<SharedArchive.Txn>, s: SharedArchive.State, v: View, left: View,
      l: SharedArchive.Landed, target: int, executed: GtidSet)
    requires Around(history, s, v.contents, l) && Swept(v, left, s.goneFiles) && LoadedFrom(history, l) <= executed
    ensures ScopeComplete(v.contents, l.full, target, executed)
      <==> ScopeComplete(left.contents, l.full, target, executed)
  {
    if ScopeComplete(left.contents, l.full, target, executed) {
      forall k | k in v.contents && SharedArchive.Replays(l.full, k) && OpenedBeforeCutoff(v.contents[k], target)
        ensures v.contents[k].previousGtids <= executed
      {
        if k in s.goneFiles { GoneIsLoaded(history, s, v.contents, l, k); }
        assert k !in s.goneFiles ==> k in left.contents;
      }
    }
  }

  /** Files that end before the dump was named do not move the point reached. */
  lemma OlderFilesDoNotMove(contents: Contents, left: Contents, full: FullBackup, target: int, reached: int,
      reachedLeft: int)
    requires ReachesExactly(contents, full, target, reached) && ReachesExactly(left, full, target, reachedLeft)
    requires forall k | k in left :: k in contents && left[k] == contents[k]
    requires forall k | k in contents && k !in left && SharedArchive.Replays(full, k) ::
      contents[k].lastEventAt <= full.takenAt
    ensures reachedLeft == reached
  {
    if reached != full.takenAt {
      var k :| k in contents && SharedArchive.Replays(full, k) && Earlier(contents[k].lastEventAt, target) == reached;
      assert k in left;
    }
  }

  lemma SameReached(history: set<SharedArchive.Txn>, s: SharedArchive.State, v: View, left: View,
      l: SharedArchive.Landed, target: int)
    requires Around(history, s, v.contents, l) && BothList(s, v, left, l.full) && DumpsDoNotOverlap(s.landed)
    requires IsReadable(v, l.full) && IsReadable(left, l.full)
    ensures ReachedOn(v, l.full, target) == ReachedOn(left, l.full, target)
  {
    ReachedFromTheScope(v, l.full, target);
    ReachedFromTheScope(left, l.full, target);
    forall k | k in v.contents && k !in left.contents && SharedArchive.Replays(l.full, k)
      ensures v.contents[k].lastEventAt <= l.full.takenAt
    {
      GoneIsOlder(history, s, v.contents, l, k);
    }
    OlderFilesDoNotMove(v.contents, left.contents, l.full, target, ReachedOn(v, l.full, target),
      ReachedOn(left, l.full, target));
  }

  lemma LoadedIsExecuted(store: Store, loaded: GtidSet, runs: seq<LineageRun>, target: int)
    requires RunsReadable(store, runs)
    ensures loaded <= Executed(store, loaded, runs, target)
  {
    forall id | id in loaded
      ensures id in Executed(store, loaded, runs, target)
    {
      RunsDeliver(store, loaded, runs, target, id);
    }
  }

  /** Every deleted file the restore would have fetched could be read. */
  predicate GoneReadable(s: SharedArchive.State, v: View, full: FullBackup) {
    forall k | k in s.goneFiles && k in v.files && SharedArchive.Replays(full, k) :: k in v.contents
  }

  lemma SameReadability(s: SharedArchive.State, v: View, left: View, full: FullBackup)
    requires BothList(s, v, left, full)
    ensures IsReadable(v, full) <==> IsReadable(left, full) && GoneReadable(s, v, full)
  {
    ReadableExactly(v, full);
    ReadableExactly(left, full);
  }

  lemma SameVerdicts(history: set<SharedArchive.Txn>, s: SharedArchive.State, v: View, left: View,
      l: SharedArchive.Landed, target: int)
    requires Around(history, s, v.contents, l) && BothList(s, v, left, l.full)
    requires DumpMeetsReplay(history, v.contents, l) && IsReadable(v, l.full) && IsReadable(left, l.full)
    ensures var executed := ExecutedOn(history, v, l, target);
      && executed == ExecutedOn(history, left, l, target)
      && (CompleteOn(v, l.full, target, executed) <==> CompleteOn(left, l.full, target, executed))
  {
    var executed := ExecutedOn(history, v, l, target);
    SameExecuted(history, s, v, left, l, target);
    LoadedIsExecuted(StoreOf(v.contents), LoadedFrom(history, l), Runs(v, l.full), target);
    CompleteByScope(v, l.full, target, executed);
    CompleteByScope(left, l.full, target, executed);
    SameCompleteness(history, s, v, left, l, target, executed);
  }

  ghost predicate AcceptedOn(history: set<SharedArchive.Txn>, v: View, l: SharedArchive.Landed, target: int,
      rotateSeconds: nat) {
    Accepted(StoreOf(v.contents), l.full, v.own, v.others, LoadedFrom(history, l), target, rotateSeconds)
  }

  /** In every run, for every target at or after the latest cutoff any pass used, unreadable files or none: a
      restore from the full it selects can read all it fetches on the never-swept archive exactly when it
      can on the swept one and the deleted files in scope were readable too; it then ends with the same
      executed set and the same completeness; and where no two dumps overlapped it reaches the same
      point, and is accepted on the one exactly when on the other. */
  lemma AcceptanceIsUnchanged(history: set<SharedArchive.Txn>, run: seq<SharedArchive.State>, s: SharedArchive.State,
      v: View, left: View, l: SharedArchive.Landed, target: int, rotateSeconds: nat)
    requires SharedArchive.IsRun(history, run) && s == run[|run| - 1] && target >= s.cutoff
    requires l in s.landed && NewestQualifying(SharedArchive.Fulls(s.landed), target) == Some(l.full)
    requires Carries(history, s, v.contents) && DumpMeetsReplay(history, v.contents, l) && BothList(s, v, left, l.full)
    ensures IsReadable(v, l.full) <==> IsReadable(left, l.full) && GoneReadable(s, v, l.full)
    ensures IsReadable(v, l.full) ==>
      var executed := ExecutedOn(history, v, l, target);
      && executed == ExecutedOn(history, left, l, target)
      && (CompleteOn(v, l.full, target, executed) <==> CompleteOn(left, l.full, target, executed))
    ensures IsReadable(v, l.full) && DumpsDoNotOverlap(s.landed) ==>
      ReachedOn(v, l.full, target) == ReachedOn(left, l.full, target)
    ensures DumpsDoNotOverlap(s.landed) ==>
      (AcceptedOn(history, v, l, target, rotateSeconds) <==>
        AcceptedOn(history, left, l, target, rotateSeconds) && GoneReadable(s, v, l.full))
  {
    SharedArchive.RunsKeepInv(history, run);
    SharedArchive.SelectedIsNeverPlanned(history, s, target, l.full);
    SameReadability(s, v, left, l.full);
    if IsReadable(v, l.full) {
      SameVerdicts(history, s, v, left, l, target);
      if DumpsDoNotOverlap(s.landed) {
        SameReached(history, s, v, left, l, target);
      }
    }
  }
}
