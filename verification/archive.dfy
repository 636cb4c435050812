/** What the archive holds: full backups, the rule that selects one for a restore target, and
    the rule that decides how many of them a horizon keeps. Instants are nanoseconds. */
module Archive {
  import opened Common
  import opened BinlogNames

  /** A complete full backup: where it lies, when it was taken, and the binlog coordinate its
      replay starts from. Only a dump of a server with GTIDs on declares a set. */
  datatype FullBackup = FullBackup(
    serverUuid: string, dumpKey: string, takenAt: int, coordinate: Binlog, position: nat,
    gtidPurged: Option<GtidSet>)

  /** An archived binlog: its lineage and its name. */
  type FileKey = (string, Binlog)

  const MILLI: int := 1_000_000

  /** An instant at the precision an object name carries. */
  function FloorToMillis(t: int): (r: int)
    ensures r <= t < r + 1_000_000
    ensures r % 1_000_000 == 0
  {
    t - t % 1_000_000
  }

  predicate Qualifies(f: FullBackup, target: int) {
    FloorToMillis(f.takenAt) <= target
  }

  /** Older, or as old with the smaller server identity. */
  predicate RanksBelow(a: FullBackup, b: FullBackup) {
    a.takenAt < b.takenAt || (a.takenAt == b.takenAt && StringLess(a.serverUuid, b.serverUuid))
  }

  /** The last greatest of the fulls taken at or before the target. */
  function NewestQualifying(fulls: seq<FullBackup>, target: int): (r: Option<FullBackup>)
    ensures r.Some? ==> r.value in fulls && Qualifies(r.value, target)
    ensures r.Some? ==> forall f | f in fulls && Qualifies(f, target) :: f.takenAt <= r.value.takenAt
    ensures r.None? ==> forall f | f in fulls :: !Qualifies(f, target)
  {
    if fulls == [] then None
    else
      var last := fulls[|fulls| - 1];
      var best := NewestQualifying(fulls[..|fulls| - 1], target);
      assert forall f | f in fulls :: f == last || f in fulls[..|fulls| - 1];
      if Qualifies(last, target) && (best.None? || !RanksBelow(last, best.value)) then Some(last) else best
  }

  predicate DistinctTimes(fulls: seq<FullBackup>) {
    forall f, g {:trigger f in fulls, g in fulls} | f in fulls && g in fulls && f != g :: f.takenAt != g.takenAt
  }

  /** Newest first. */
  predicate Descending(fulls: seq<FullBackup>) {
    forall j, k | 0 <= j < k < |fulls| :: fulls[j].takenAt >= fulls[k].takenAt
  }

  function InsertByAge(sorted: seq<FullBackup>, f: FullBackup): seq<FullBackup> {
    if sorted == [] then [f]
    else
      var last := sorted[|sorted| - 1];
      if f.takenAt > last.takenAt || (f.takenAt == last.takenAt && StringLess(f.dumpKey, last.dumpKey)) then
        InsertByAge(sorted[..|sorted| - 1], f) + [last]
      else sorted + [f]
  }

  lemma {:induction false} InsertedFulls(sorted: seq<FullBackup>, f: FullBackup)
    ensures |InsertByAge(sorted, f)| == |sorted| + 1
    ensures multiset(InsertByAge(sorted, f)) == multiset(sorted) + multiset{f}
  {
    if sorted != [] {
      InsertedFulls(sorted[..|sorted| - 1], f);
      assert sorted == sorted[..|sorted| - 1] + [sorted[|sorted| - 1]];
    }
  }

  predicate NoneOlderThan(fulls: seq<FullBackup>, t: int) {
    forall k | 0 <= k < |fulls| :: fulls[k].takenAt >= t
  }

  lemma AppendDescends(front: seq<FullBackup>, last: FullBackup)
    requires Descending(front) && NoneOlderThan(front, last.takenAt)
    ensures Descending(front + [last])
  {}

  lemma LastIsOldest(sorted: seq<FullBackup>)
    requires Descending(sorted) && sorted != []
    ensures Descending(sorted[..|sorted| - 1])
    ensures NoneOlderThan(sorted, sorted[|sorted| - 1].takenAt)
  {}

  lemma {:induction false} InsertKeepsFloor(sorted: seq<FullBackup>, f: FullBackup, t: int)
    requires NoneOlderThan(sorted, t) && f.takenAt >= t
    ensures NoneOlderThan(InsertByAge(sorted, f), t)
  {
    if sorted != [] {
      InsertKeepsFloor(sorted[..|sorted| - 1], f, t);
    }
  }

  lemma {:induction false} InsertDescends(sorted: seq<FullBackup>, f: FullBackup)
    requires Descending(sorted)
    ensures Descending(InsertByAge(sorted, f))
  {
    if sorted != [] {
      var front, last := sorted[..|sorted| - 1], sorted[|sorted| - 1];
      LastIsOldest(sorted);
      if f.takenAt > last.takenAt || (f.takenAt == last.takenAt && StringLess(f.dumpKey, last.dumpKey)) {
        InsertDescends(front, f);
        InsertKeepsFloor(front, f, last.takenAt);
        AppendDescends(InsertByAge(front, f), last);
      } else {
        AppendDescends(sorted, f);
      }
    }
  }

  /** Newest first; of one instant, the smaller dump key first. */
  function ByAge(fulls: seq<FullBackup>): seq<FullBackup> {
    if fulls == [] then [] else InsertByAge(ByAge(fulls[..|fulls| - 1]), fulls[|fulls| - 1])
  }

  lemma {:induction false} ByAgeSorts(fulls: seq<FullBackup>)
    ensures Descending(ByAge(fulls))
    ensures multiset(ByAge(fulls)) == multiset(fulls)
    ensures |ByAge(fulls)| == |fulls|
    ensures forall f :: f in ByAge(fulls) <==> f in fulls
  {
    if fulls != [] {
      var front, last := fulls[..|fulls| - 1], fulls[|fulls| - 1];
      ByAgeSorts(front);
      InsertDescends(ByAge(front), last);
      InsertedFulls(ByAge(front), last);
      assert fulls == front + [last];
    }
    assert forall f :: f in ByAge(fulls) <==> f in multiset(ByAge(fulls));
    assert forall f :: f in fulls <==> f in multiset(fulls);
  }

  function CountSince(fulls: seq<FullBackup>, cutoff: int): (n: nat)
    ensures n <= |fulls|
  {
    if fulls == [] then 0
    else CountSince(fulls[..|fulls| - 1], cutoff) + (if fulls[|fulls| - 1].takenAt >= cutoff then 1 else 0)
  }

  function Max(a: nat, b: nat): nat { if a >= b then a else b }

  function Min(a: nat, b: nat): nat { if a <= b then a else b }

  /** How many of the newest are kept: everything inside the horizon, at least `minKept` and at
      least one, and one more when the oldest of those is still newer than the cutoff. */
  function KeepCount(sorted: seq<FullBackup>, cutoff: int, minKept: nat): (n: nat)
    ensures n <= |sorted|
  {
    var keep := Min(Max(Max(CountSince(sorted, cutoff), minKept), 1), |sorted|);
    if keep < |sorted| && sorted[keep - 1].takenAt > cutoff then keep + 1 else keep
  }

  function FullsToKeep(fulls: seq<FullBackup>, cutoff: int, minKept: nat): seq<FullBackup> {
    ByAge(fulls)[..KeepCount(ByAge(fulls), cutoff, minKept)]
  }

  lemma KeptAreNewest(fulls: seq<FullBackup>, cutoff: int, minKept: nat)
    ensures var kept := FullsToKeep(fulls, cutoff, minKept);
      && Descending(kept)
      && |kept| <= |fulls| && |kept| >= Min(minKept, |fulls|)
      && (fulls != [] ==> kept != [])
    ensures forall f | f in FullsToKeep(fulls, cutoff, minKept) :: f in fulls
  {
    ByAgeSorts(fulls);
    assert forall f | f in FullsToKeep(fulls, cutoff, minKept) :: f in ByAge(fulls);
  }

  lemma {:induction false} CountOfDescending(sorted: seq<FullBackup>, cutoff: int)
    requires Descending(sorted)
    ensures forall k | 0 <= k < |sorted| :: sorted[k].takenAt >= cutoff <==> k < CountSince(sorted, cutoff)
  {
    if sorted != [] {
      var front := sorted[..|sorted| - 1];
      CountOfDescending(front, cutoff);
      forall k | 0 <= k < |sorted|
        ensures sorted[k].takenAt >= cutoff <==> k < CountSince(sorted, cutoff)
      {
        if k < |front| {
          assert sorted[k] == front[k];
        } else if front != [] {
          assert sorted[|front| - 1] == front[|front| - 1];
        }
      }
    }
  }

  /** When anything is left out, the oldest kept full is not newer than the cutoff. */
  lemma OldestKeptReachesTheCutoff(sorted: seq<FullBackup>, cutoff: int, minKept: nat)
    requires Descending(sorted)
    requires KeepCount(sorted, cutoff, minKept) < |sorted|
    ensures KeepCount(sorted, cutoff, minKept) > 0
    ensures sorted[KeepCount(sorted, cutoff, minKept) - 1].takenAt <= cutoff
  {
    CountOfDescending(sorted, cutoff);
  }

  lemma PastThePrefix(sorted: seq<FullBackup>, keep: nat, f: FullBackup)
    requires Descending(sorted) && keep <= |sorted| && f in sorted && f !in sorted[..keep]
    ensures keep < |sorted|
    ensures keep > 0 ==> sorted[..keep][keep - 1] == sorted[keep - 1] && f.takenAt <= sorted[keep - 1].takenAt
  {
    assert forall h | 0 <= h < keep :: sorted[h] == sorted[..keep][h];
    var k :| 0 <= k < |sorted| && sorted[k] == f;
  }

  /** A full left out is no newer than every kept one, the oldest of which reaches the cutoff. */
  lemma LeftOutIsCovered(fulls: seq<FullBackup>, cutoff: int, minKept: nat, f: FullBackup)
    requires f in fulls && f !in FullsToKeep(fulls, cutoff, minKept)
    ensures var kept := FullsToKeep(fulls, cutoff, minKept);
      && |kept| < |fulls| && kept != []
      && f.takenAt <= kept[|kept| - 1].takenAt <= cutoff
  {
    var sorted, keep := ByAge(fulls), KeepCount(ByAge(fulls), cutoff, minKept);
    ByAgeSorts(fulls);
    PastThePrefix(sorted, keep, f);
    OldestKeptReachesTheCutoff(sorted, cutoff, minKept);
  }

  /** Whatever qualifies at a target past the cutoff, something left qualifies and is as new. */
  lemma AsNewIsLeft(fulls: seq<FullBackup>, left: seq<FullBackup>, cutoff: int, minKept: nat,
      target: int, f: FullBackup)
    returns (g: FullBackup)
    requires target >= cutoff && f in fulls && Qualifies(f, target)
    requires forall f | f in FullsToKeep(fulls, cutoff, minKept) :: f in left
    ensures g in left && Qualifies(g, target) && g.takenAt >= f.takenAt
  {
    if f in left { return f; }
    LeftOutIsCovered(fulls, cutoff, minKept, f);
    var kept := FullsToKeep(fulls, cutoff, minKept);
    g := kept[|kept| - 1];
    assert g in kept;
  }

  /** For every target at or after the cutoff, the newest qualifying full among any fulls that
      still include the kept ones is as new as before; with distinct instants it is the same. */
  lemma SelectionSurvives(fulls: seq<FullBackup>, left: seq<FullBackup>, cutoff: int, minKept: nat,
      target: int)
    requires target >= cutoff
    requires forall f | f in left :: f in fulls
    requires forall f | f in FullsToKeep(fulls, cutoff, minKept) :: f in left
    ensures NewestQualifying(left, target).Some? <==> NewestQualifying(fulls, target).Some?
    ensures NewestQualifying(fulls, target).Some? ==>
      NewestQualifying(left, target).value.takenAt == NewestQualifying(fulls, target).value.takenAt
    ensures DistinctTimes(fulls) ==> NewestQualifying(left, target) == NewestQualifying(fulls, target)
  {
    var before, after := NewestQualifying(fulls, target), NewestQualifying(left, target);
    assert after.Some? ==> after.value in fulls;
    if before.Some? {
      var g := AsNewIsLeft(fulls, left, cutoff, minKept, target, before.value);
    }
  }

  /** A full no other qualifying full is as new as is the one selected. */
  lemma NewestIs(fulls: seq<FullBackup>, target: int, f: FullBackup)
    requires f in fulls && Qualifies(f, target)
    requires forall g | g in fulls && Qualifies(g, target) && g != f :: g.takenAt < f.takenAt
    ensures NewestQualifying(fulls, target) == Some(f)
  {}

  lemma CountOfPrefix(sorted: seq<FullBackup>, n: nat, cutoff: int)
    requires Descending(sorted) && n <= |sorted|
    ensures CountSince(sorted[..n], cutoff) == Min(n, CountSince(sorted, cutoff))
  {
    CountOfDescending(sorted, cutoff);
    CountOfDescending(sorted[..n], cutoff);
    var count, part := CountSince(sorted, cutoff), CountSince(sorted[..n], cutoff);
    assert part < n ==> sorted[..n][part].takenAt < cutoff;
    assert part > 0 ==> sorted[..n][part - 1].takenAt >= cutoff;
  }

  /** Choosing again among what was kept keeps all of it. */
  lemma KeepingIsStable(sorted: seq<FullBackup>, cutoff: int, minKept: nat)
    requires Descending(sorted)
    ensures var n := KeepCount(sorted, cutoff, minKept); KeepCount(sorted[..n], cutoff, minKept) == n
  {
    CountOfPrefix(sorted, KeepCount(sorted, cutoff, minKept), cutoff);
  }

  // ----- fulls at pairwise different instants sort in one way -----

  predicate Strict(fulls: seq<FullBackup>) {
    forall j, k | 0 <= j < k < |fulls| :: fulls[j].takenAt > fulls[k].takenAt
  }

  lemma {:induction false} OnceInMultiset(fulls: seq<FullBackup>, f: FullBackup)
    requires NoTwice(fulls)
    ensures multiset(fulls)[f] <= 1
  {
    if fulls != [] {
      var front, last := fulls[..|fulls| - 1], fulls[|fulls| - 1];
      OnceInMultiset(front, f);
      assert fulls == front + [last];
      assert last !in front;
    }
  }

  lemma TwiceInMultiset(fulls: seq<FullBackup>, j: nat, k: nat)
    requires j < k < |fulls| && fulls[j] == fulls[k]
    ensures multiset(fulls)[fulls[j]] >= 2
  {
    assert fulls == fulls[..k] + fulls[k..];
    assert fulls[j] == fulls[..k][j] && fulls[k] == fulls[k..][0];
  }

  lemma ByAgeIsStrict(fulls: seq<FullBackup>)
    requires NoTwice(fulls) && DistinctTimes(fulls)
    ensures Strict(ByAge(fulls))
  {
    var s := ByAge(fulls);
    ByAgeSorts(fulls);
    forall j, k | 0 <= j < k < |s|
      ensures s[j].takenAt > s[k].takenAt
    {
      assert s[j] in fulls && s[k] in fulls;
      if s[j] == s[k] {
        TwiceInMultiset(s, j, k);
        OnceInMultiset(fulls, s[j]);
        assert false;
      }
    }
  }

  lemma StrictHeadAndTail(a: seq<FullBackup>)
    requires a != [] && Strict(a)
    ensures forall f | f in a :: f.takenAt <= a[0].takenAt
    ensures forall f :: f in a[1..] <==> f in a && f != a[0]
    ensures Strict(a[1..])
  {
    forall f | f in a && f != a[0]
      ensures f in a[1..]
    {
      var k :| 0 <= k < |a| && a[k] == f;
      assert a[1..][k - 1] == f;
    }
    forall f | f in a[1..]
      ensures f in a && f != a[0]
    {
      var k :| 0 <= k < |a[1..]| && a[1..][k] == f;
      assert a[k + 1] == f;
    }
  }

  lemma StrictSameHead(a: seq<FullBackup>, b: seq<FullBackup>)
    requires a != [] && b != [] && Strict(a) && Strict(b)
    requires a[0] in b && b[0] in a
    ensures a[0] == b[0]
  {
    StrictHeadAndTail(a);
    StrictHeadAndTail(b);
    var k :| 0 <= k < |b| && b[k] == a[0];
  }

  lemma {:induction false} StrictIsUnique(a: seq<FullBackup>, b: seq<FullBackup>)
    requires Strict(a) && Strict(b)
    requires forall f :: f in a <==> f in b
    ensures a == b
  {
    assert a != [] ==> a[0] in b;
    assert b != [] ==> b[0] in a;
    if a != [] {
      StrictSameHead(a, b);
      StrictHeadAndTail(a);
      StrictHeadAndTail(b);
      StrictIsUnique(a[1..], b[1..]);
    }
  }

  /** Choosing again when exactly the kept fulls are left keeps them all. */
  lemma KeptAgain(fulls: seq<FullBackup>, left: seq<FullBackup>, cutoff: int, minKept: nat)
    requires NoTwice(fulls) && DistinctTimes(fulls) && NoTwice(left)
    requires forall f :: f in left <==> f in FullsToKeep(fulls, cutoff, minKept)
    ensures FullsToKeep(left, cutoff, minKept) == FullsToKeep(fulls, cutoff, minKept)
  {
    var sorted, kept := ByAge(fulls), FullsToKeep(fulls, cutoff, minKept);
    KeptAreNewest(fulls, cutoff, minKept);
    assert DistinctTimes(left) by {
      assert forall f | f in left :: f in fulls;
    }
    ByAgeIsStrict(fulls);
    ByAgeIsStrict(left);
    ByAgeSorts(left);
    StrictIsUnique(ByAge(left), kept);
    ByAgeSorts(fulls);
    KeepingIsStable(sorted, cutoff, minKept);
  }

  function NewerThan(fulls: seq<FullBackup>, f: FullBackup): set<FullBackup> {
    set g | g in fulls && g.takenAt > f.takenAt
  }

  function Elements(fulls: seq<FullBackup>): set<FullBackup> {
    set f | f in fulls
  }

  lemma OneLonger(sorted: seq<FullBackup>, k: nat)
    requires Strict(sorted) && k < |sorted|
    ensures Elements(sorted[..k + 1]) == Elements(sorted[..k]) + {sorted[k]}
    ensures sorted[k] !in Elements(sorted[..k])
  {
    assert sorted[..k + 1] == sorted[..k] + [sorted[k]];
  }

  lemma {:induction false} PrefixSize(sorted: seq<FullBackup>, k: nat)
    requires Strict(sorted) && k <= |sorted|
    ensures |Elements(sorted[..k])| == k
  {
    if k > 0 {
      PrefixSize(sorted, k - 1);
      OneLonger(sorted, k - 1);
    }
  }

  lemma NewerAreBefore(sorted: seq<FullBackup>, k: nat)
    requires Strict(sorted) && k < |sorted|
    ensures NewerThan(sorted, sorted[k]) == Elements(sorted[..k])
    ensures |NewerThan(sorted, sorted[k])| == k
  {
    forall g | g in sorted && g.takenAt > sorted[k].takenAt
      ensures g in sorted[..k]
    {
      var j :| 0 <= j < |sorted| && sorted[j] == g;
      assert sorted[..k][j] == g;
    }
    PrefixSize(sorted, k);
  }

  lemma InPrefix(sorted: seq<FullBackup>, k: nat, n: nat)
    requires Strict(sorted) && k < |sorted| && n <= |sorted|
    ensures sorted[k] in sorted[..n] <==> k < n
  {
    if k < n {
      assert sorted[..n][k] == sorted[k];
    }
  }

  lemma AllBeforeAreInside(sorted: seq<FullBackup>, k: nat, cutoff: int)
    requires Strict(sorted) && 0 < k < |sorted|
    ensures sorted[k - 1].takenAt > cutoff <==> forall g | g in Elements(sorted[..k]) :: g.takenAt > cutoff
  {
    assert sorted[..k][k - 1] == sorted[k - 1];
    assert sorted[k - 1] in Elements(sorted[..k]);
  }

  /** What is kept, said without sorting: what lies inside the horizon, the newest few, and a full
      every newer one of which is still inside it. Everything else is left out. */
  lemma KeptExactly(fulls: seq<FullBackup>, cutoff: int, minKept: nat, f: FullBackup)
    requires NoTwice(fulls) && DistinctTimes(fulls) && f in fulls
    ensures f in FullsToKeep(fulls, cutoff, minKept) <==>
      || f.takenAt >= cutoff
      || |NewerThan(fulls, f)| < Max(minKept, 1)
      || forall g | g in NewerThan(fulls, f) :: g.takenAt > cutoff
  {
    var sorted := ByAge(fulls);
    ByAgeSorts(fulls);
    ByAgeIsStrict(fulls);
    var k :| 0 <= k < |sorted| && sorted[k] == f;
    assert NewerThan(sorted, f) == NewerThan(fulls, f);
    KeptOfSorted(sorted, cutoff, minKept, k);
  }

  lemma KeptOfSorted(sorted: seq<FullBackup>, cutoff: int, minKept: nat, k: nat)
    requires Strict(sorted) && Descending(sorted) && k < |sorted|
    ensures sorted[k] in sorted[..KeepCount(sorted, cutoff, minKept)] <==>
      || sorted[k].takenAt >= cutoff
      || |NewerThan(sorted, sorted[k])| < Max(minKept, 1)
      || forall g | g in NewerThan(sorted, sorted[k]) :: g.takenAt > cutoff
  {
    InPrefix(sorted, k, KeepCount(sorted, cutoff, minKept));
    NewerAreBefore(sorted, k);
    KeptByRank(sorted, cutoff, minKept, k);
    if k > 0 {
      AllBeforeAreInside(sorted, k, cutoff);
    }
  }

  lemma KeptByRank(sorted: seq<FullBackup>, cutoff: int, minKept: nat, k: nat)
    requires Descending(sorted) && k < |sorted|
    ensures k < KeepCount(sorted, cutoff, minKept) <==>
      || sorted[k].takenAt >= cutoff
      || k < Max(minKept, 1)
      || (k > 0 && sorted[k - 1].takenAt > cutoff)
  {
    CountOfDescending(sorted, cutoff);
    var inside := CountSince(sorted, cutoff);
    assert inside < |sorted| ==> sorted[inside].takenAt < cutoff;
  }

  lemma TwoFulls(a: FullBackup, b: FullBackup, target: int)
    requires a.takenAt == b.takenAt
    ensures ByAge([a, b]) == if StringLess(b.dumpKey, a.dumpKey) then [b, a] else [a, b]
    ensures Qualifies(a, target) ==>
      NewestQualifying([a, b], target) == Some(if StringLess(b.serverUuid, a.serverUuid) then a else b)
    ensures Qualifies(a, target) ==> NewestQualifying([a], target) == Some(a)
  {
    assert [a, b][..1] == [a] && [a][..0] == [];
    assert ByAge([a]) == [a];
    assert ByAge([a, b]) == InsertByAge([a], b);
    assert InsertByAge([], b) == [b];
    assert NewestQualifying([], target) == None;
    assert Qualifies(a, target) ==> NewestQualifying([a], target) == Some(a);
  }

  /** Why instants must differ: of two fulls taken at the same instant the selection prefers the
      larger server identity while the horizon keeps the smaller dump key. */
  lemma TiedInstantsCanSwapTheSelection(a: FullBackup, b: FullBackup)
    requires a.takenAt == b.takenAt && FloorToMillis(a.takenAt) == a.takenAt
    requires StringLess(a.serverUuid, b.serverUuid) && StringLess(a.dumpKey, b.dumpKey)
    requires !StringLess(b.dumpKey, a.dumpKey) && !StringLess(b.serverUuid, a.serverUuid)
    ensures var cutoff := a.takenAt + 1;
      && FullsToKeep([a, b], cutoff, 1) == [a]
      && NewestQualifying([a, b], cutoff) == Some(b)
      && NewestQualifying([a], cutoff) == Some(a)
  {
    TwoFulls(a, b, a.takenAt + 1);
    assert [a, b][..1] == [a] && [a][..0] == [];
    assert CountSince([a], a.takenAt + 1) == 0;
  }

  // ----- what a retention pass sees and says -----

  const MIN_ACTIVE_FULLS_KEPT: nat := 2
  const NANOS: int := 1_000_000_000
  const ORPHAN_DUMP_GRACE: int := 6 * 3600 * NANOS

  /** One lineage's objects. `fullObjectsSeen` counts the metas the bucket holds, readable or
      not; `binlogAges` has the upload times the listing reported. */
  datatype Lineage = Lineage(
    serverUuid: string, fulls: seq<FullBackup>, fullObjectsSeen: nat,
    orphanDumps: seq<(string, int)>, binlogs: seq<Binlog>, binlogAges: map<string, int>)

  datatype RetentionInput = RetentionInput(
    lineages: seq<Lineage>, activeUuid: Option<string>, now: int, horizon: int, sharedHistoryMarker: bool)

  /** One object of a full backup, named by its dump: the dump, or the meta beside it. */
  datatype Object = Dump(key: string) | Meta(dumpKey: string)

  datatype RetentionPlan = RetentionPlan(
    expiredFullKeys: seq<Object>, expiredBinlogs: seq<(string, Binlog)>,
    orphanDumpKeys: seq<string>, retiredLineages: seq<string>)

  const NOTHING: RetentionPlan := RetentionPlan([], [], [], [])

  predicate EndsWith(s: string, suffix: string) {
    |s| >= |suffix| && s[|s| - |suffix|..] == suffix
  }

  function MetaKeyForDump(dumpKey: string): string {
    if EndsWith(dumpKey, ".sql.gz") then dumpKey[..|dumpKey| - 7] + ".meta.json" else dumpKey + ".meta.json"
  }

  /** Why a meta may be named by its dump: on dump names the key of the meta beside it is its own,
      and no dump's. */
  lemma MetaKeysAreApart(a: string, b: string)
    requires EndsWith(a, ".sql.gz") && EndsWith(b, ".sql.gz")
    ensures MetaKeyForDump(a) != b
    ensures MetaKeyForDump(a) == MetaKeyForDump(b) ==> a == b
  {
    var m := MetaKeyForDump(a);
    assert m[|m| - 1] == 'n' && b[|b| - 1] == 'z' by {
      assert b[|b| - 1] == b[|b| - 7..][6];
      assert m[|m| - 1] == ".meta.json"[9];
    }
    if MetaKeyForDump(a) == MetaKeyForDump(b) {
      var n := MetaKeyForDump(b);
      assert a[..|a| - 7] == m[..|m| - 10] && b[..|b| - 7] == n[..|n| - 10];
      assert a == a[..|a| - 7] + a[|a| - 7..] && b == b[..|b| - 7] + b[|b| - 7..];
    }
  }

  predicate IsObjectOf(k: Object, f: FullBackup) {
    k == Dump(f.dumpKey) || k == Meta(f.dumpKey)
  }

  /** Every object of a list of fulls: each dump and the meta beside it. */
  function FullKeys(fulls: seq<FullBackup>): (r: seq<Object>)
    ensures |r| == 2 * |fulls|
  {
    if fulls == [] then []
    else
      var last := fulls[|fulls| - 1];
      FullKeys(fulls[..|fulls| - 1]) + [Dump(last.dumpKey), Meta(last.dumpKey)]
  }

  lemma {:induction false} FullKeysNames(fulls: seq<FullBackup>, k: Object)
    ensures k in FullKeys(fulls) <==> exists f :: f in fulls && IsObjectOf(k, f)
  {
    if fulls != [] {
      var front, last := fulls[..|fulls| - 1], fulls[|fulls| - 1];
      assert fulls == front + [last];
      FullKeysNames(front, k);
      assert IsObjectOf(k, last) ==> last in fulls;
    }
  }

  function Tagged(uuid: string, files: seq<Binlog>): (r: seq<(string, Binlog)>)
    ensures |r| == |files|
  {
    if files == [] then [] else Tagged(uuid, files[..|files| - 1]) + [(uuid, files[|files| - 1])]
  }

  lemma {:induction false} TaggedFiles(uuid: string, files: seq<Binlog>, x: (string, Binlog))
    ensures x in Tagged(uuid, files) <==> x.0 == uuid && x.1 in files
  {
    if files != [] {
      var front, last := files[..|files| - 1], files[|files| - 1];
      assert files == front + [last];
      TaggedFiles(uuid, front, x);
    }
  }

  /** The orphan dumps old enough that no dump still in flight can own them. */
  function OverdueOrphans(orphans: seq<(string, int)>, now: int): seq<string> {
    if orphans == [] then []
    else
      var last := orphans[|orphans| - 1];
      OverdueOrphans(orphans[..|orphans| - 1], now) + if now - last.1 > ORPHAN_DUMP_GRACE then [last.0] else []
  }

  lemma {:induction false} OverdueNames(orphans: seq<(string, int)>, now: int, k: string)
    ensures k in OverdueOrphans(orphans, now) <==>
      exists o :: o in orphans && o.0 == k && now - o.1 > 6 * 3600 * 1_000_000_000
  {
    if orphans != [] {
      var front, last := orphans[..|orphans| - 1], orphans[|orphans| - 1];
      assert orphans == front + [last];
      OverdueNames(front, now, k);
    }
  }

  // One step of each collecting loop.

  lemma FilterSnoc<T(!new)>(xs: seq<T>, k: nat, p: T -> bool)
    requires k < |xs|
    ensures Filter(xs[..k + 1], p) == if p(xs[k]) then Filter(xs[..k], p) + [xs[k]] else Filter(xs[..k], p)
  {
    assert xs[..k + 1][..k] == xs[..k];
  }

  lemma KeysSnoc(fulls: seq<FullBackup>, f: FullBackup)
    ensures FullKeys(fulls + [f]) == FullKeys(fulls) + [Dump(f.dumpKey), Meta(f.dumpKey)]
  {
    assert (fulls + [f])[..|fulls|] == fulls;
  }

  lemma TaggedSnoc(uuid: string, files: seq<Binlog>, b: Binlog)
    ensures Tagged(uuid, files + [b]) == Tagged(uuid, files) + [(uuid, b)]
  {
    assert (files + [b])[..|files|] == files;
  }

  lemma OrphansSnoc(orphans: seq<(string, int)>, k: nat, now: int)
    requires k < |orphans|
    ensures OverdueOrphans(orphans[..k + 1], now) == OverdueOrphans(orphans[..k], now)
      + if now - orphans[k].1 > ORPHAN_DUMP_GRACE then [orphans[k].0] else []
  {
    assert orphans[..k + 1][..k] == orphans[..k];
  }

  /** The orphan loop of one lineage. */
  method CollectOverdue(orphans: seq<(string, int)>, now: int) returns (keys: seq<string>)
    ensures keys == OverdueOrphans(orphans, now)
    ensures forall k :: k in keys <==> exists o :: o in orphans && o.0 == k && now - o.1 > 6 * 3600 * 1_000_000_000
  {
    keys := [];
    for k := 0 to |orphans|
      invariant keys == OverdueOrphans(orphans[..k], now)
    {
      OrphansSnoc(orphans, k, now);
      if now - orphans[k].1 > ORPHAN_DUMP_GRACE {
        keys := keys + [orphans[k].0];
      }
    }
    assert orphans[..|orphans|] == orphans;
    forall k { OverdueNames(orphans, now, k); }
  }

  lemma FullStep(fulls: seq<FullBackup>, k: nat, drops: FullBackup -> bool)
    requires k < |fulls|
    ensures var front, f := Filter(fulls[..k], drops), fulls[k];
      && |Filter(fulls[..k + 1], drops)| == |front| + (if drops(f) then 1 else 0)
      && FullKeys(Filter(fulls[..k + 1], drops)) ==
           if drops(f) then FullKeys(front) + [Dump(f.dumpKey), Meta(f.dumpKey)] else FullKeys(front)
  {
    FilterSnoc(fulls, k, drops);
    KeysSnoc(Filter(fulls[..k], drops), fulls[k]);
  }

  /** The loop over one lineage's fulls: both objects of each full that is dropped. */
  method CollectFulls(fulls: seq<FullBackup>, drops: FullBackup -> bool) returns (keys: seq<Object>, kept: nat)
    ensures keys == FullKeys(Filter(fulls, drops))
    ensures kept == |fulls| - |Filter(fulls, drops)|
  {
    keys, kept := [], 0;
    for k := 0 to |fulls|
      invariant keys == FullKeys(Filter(fulls[..k], drops))
      invariant kept == k - |Filter(fulls[..k], drops)|
    {
      FullStep(fulls, k, drops);
      if drops(fulls[k]) {
        keys := keys + [Dump(fulls[k].dumpKey), Meta(fulls[k].dumpKey)];
      } else {
        kept := kept + 1;
      }
    }
    assert fulls[..|fulls|] == fulls;
  }

  lemma BinlogStep(uuid: string, binlogs: seq<Binlog>, k: nat, drops: Binlog -> bool)
    requires k < |binlogs|
    ensures var front, b := Filter(binlogs[..k], drops), binlogs[k];
      && |Filter(binlogs[..k + 1], drops)| == |front| + (if drops(b) then 1 else 0)
      && Tagged(uuid, Filter(binlogs[..k + 1], drops)) ==
        if drops(b) then Tagged(uuid, front) + [(uuid, b)] else Tagged(uuid, front)
  {
    FilterSnoc(binlogs, k, drops);
    TaggedSnoc(uuid, Filter(binlogs[..k], drops), binlogs[k]);
  }

  /** The loop over one lineage's binlogs. */
  method CollectBinlogs(uuid: string, binlogs: seq<Binlog>, drops: Binlog -> bool)
      returns (files: seq<(string, Binlog)>, kept: nat)
    ensures files == Tagged(uuid, Filter(binlogs, drops))
    ensures kept == |binlogs| - |Filter(binlogs, drops)|
  {
    files, kept := [], 0;
    for k := 0 to |binlogs|
      invariant files == Tagged(uuid, Filter(binlogs[..k], drops))
      invariant kept == k - |Filter(binlogs[..k], drops)|
    {
      BinlogStep(uuid, binlogs, k, drops);
      if drops(binlogs[k]) {
        files := files + [(uuid, binlogs[k])];
      } else {
        kept := kept + 1;
      }
    }
    assert binlogs[..|binlogs|] == binlogs;
  }

  function DumpKeys(fulls: seq<FullBackup>): set<string> {
    set f | f in fulls :: f.dumpKey
  }

  function AllFulls(lineages: seq<Lineage>): seq<FullBackup> {
    if lineages == [] then [] else AllFulls(lineages[..|lineages| - 1]) + lineages[|lineages| - 1].fulls
  }

  lemma {:induction false} FullsOfLineages(lineages: seq<Lineage>)
    ensures forall f :: f in AllFulls(lineages) <==> exists l :: l in lineages && f in l.fulls
  {
    if lineages != [] {
      var front, last := lineages[..|lineages| - 1], lineages[|lineages| - 1];
      assert lineages == front + [last];
      FullsOfLineages(front);
    }
  }

  predicate SharesHistory(lineages: seq<Lineage>) {
    exists f :: f in AllFulls(lineages) && f.gtidPurged.Some?
  }

  /** Object names as a bucket listing gives them: one lineage per identity, one dump per key,
      no orphan that is a full's dump. */
  ghost predicate WellKeyed(lineages: seq<Lineage>) {
    && (forall l, m {:trigger l in lineages, m in lineages} |
          l in lineages && m in lineages && l.serverUuid == m.serverUuid :: l == m)
    && (forall l, f {:trigger l in lineages, f in l.fulls} |
          l in lineages && f in l.fulls :: f.serverUuid == l.serverUuid)
    && (forall f, g {:trigger f in AllFulls(lineages), g in AllFulls(lineages)} |
          f in AllFulls(lineages) && g in AllFulls(lineages) && f.dumpKey == g.dumpKey :: f == g)
    && (forall l, o, f {:trigger l in lineages, o in l.orphanDumps, f in AllFulls(lineages)} |
          l in lineages && o in l.orphanDumps && f in AllFulls(lineages) :: o.0 != f.dumpKey)
  }
}
