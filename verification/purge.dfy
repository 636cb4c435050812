/** How far local binlogs may be reclaimed: the two purge cuts. */
module PurgeRules {
  import opened Common
  import opened BinlogNames

  const GR_BINLOG_EXPIRE_SECONDS: nat := 259_200

  /** What a boundary leaves to reclaim; a cut at the very first file reclaims nothing. */
  function CutBefore(files: seq<Binlog>, boundary: Option<Binlog>): Option<Binlog> {
    if boundary.Some? && files != [] && files[0] == boundary.value then None else boundary
  }

  /** The first file that is active, or neither uploaded nor recorded lost. */
  function PurgeCut(files: seq<Binlog>, active: Binlog, uploaded: set<Binlog>, lost: set<Binlog>): Option<Binlog> {
    CutBefore(files, Find(files, (f: Binlog) => f == active || (f !in uploaded && f !in lost)))
  }

  /** A group primary also keeps an uploaded file that is young, or whose age cannot be read. */
  function PurgeCutRetainingRecent(files: seq<Binlog>, active: Binlog, uploaded: set<Binlog>, lost: set<Binlog>,
                                   ageOf: Binlog -> Option<nat>, minAge: nat): Option<Binlog> {
    CutBefore(files, Find(files, (f: Binlog) =>
      if f == active then true
      else if f in lost then false
      else if f !in uploaded then true
      else match ageOf(f) case None => true case Some(age) => age < minAge))
  }

  /** What a standalone server may reclaim. */
  predicate Reclaimable(f: Binlog, active: Binlog, uploaded: set<Binlog>, lost: set<Binlog>) {
    f != active && (f in uploaded || f in lost)
  }

  /** What a group primary may reclaim. */
  predicate GroupReclaimable(f: Binlog, active: Binlog, uploaded: set<Binlog>, lost: set<Binlog>,
      ageOf: Binlog -> Option<nat>, minAge: nat) {
    && Reclaimable(f, active, uploaded, lost)
    && (f in lost || (ageOf(f).Some? && ageOf(f).value >= minAge))
  }

  /** The files a purge up to the cut removes: those strictly before it. */
  function BelowCut(files: seq<Binlog>, cut: Option<Binlog>): (r: seq<Binlog>)
    ensures r <= files
  {
    if cut.None? || files == [] || files[0] == cut.value then []
    else [files[0]] + BelowCut(files[1..], cut)
  }

  /** `n` is the length of the largest prefix a rule allows; a rule that allows every file, or not
      the first, reclaims nothing. */
  ghost predicate LargestPrefix(files: seq<Binlog>, n: nat, rule: Binlog -> bool) {
    && n <= |files|
    && (forall k | 0 <= k < n :: rule(files[k]))
    && (n < |files| ==> !rule(files[n]))
  }

  lemma {:induction false} CutAtTheFirstStop(files: seq<Binlog>, n: nat)
    requires n < |files| && forall k | 0 <= k < n :: files[k] != files[n]
    ensures BelowCut(files, Some(files[n])) == files[..n]
  {
    if n > 0 {
      CutAtTheFirstStop(files[1..], n - 1);
      assert files[..n] == [files[0]] + files[1..][..n - 1];
    }
  }

  lemma FindEndsThePrefix(files: seq<Binlog>, stops: Binlog -> bool) returns (n: nat)
    ensures LargestPrefix(files, n, (f: Binlog) => !stops(f))
    ensures Find(files, stops) == if n < |files| then Some(files[n]) else None
    ensures n < |files| ==> BelowCut(files, Some(files[n])) == files[..n]
  {
    n := FirstStop(files, stops);
    if n < |files| {
      CutAtTheFirstStop(files, n);
    }
  }

  lemma {:induction false} FirstStop(files: seq<Binlog>, stops: Binlog -> bool) returns (n: nat)
    ensures n <= |files| && forall k | 0 <= k < n :: !stops(files[k])
    ensures Find(files, stops) == if n < |files| then Some(files[n]) else None
  {
    if files == [] || stops(files[0]) {
      n := 0;
    } else {
      n := FirstStop(files[1..], stops);
      n := n + 1;
      assert forall k | 0 < k < n :: files[k] == files[1..][k - 1];
    }
  }

  /** A standalone cut reclaims the largest prefix that holds neither the active file nor one that
      is neither uploaded nor lost -- and nothing when there is no file left to stop at. */
  lemma PurgeCutIsExact(files: seq<Binlog>, active: Binlog, uploaded: set<Binlog>, lost: set<Binlog>)
    returns (n: nat)
    ensures LargestPrefix(files, n, (f: Binlog) => Reclaimable(f, active, uploaded, lost))
    ensures n < |files| ==> BelowCut(files, PurgeCut(files, active, uploaded, lost)) == files[..n]
    ensures PurgeCut(files, active, uploaded, lost) == if 0 < n < |files| then Some(files[n]) else None
  {
    n := FindEndsThePrefix(files, (f: Binlog) => f == active || (f !in uploaded && f !in lost));
    assert n > 0 ==> Reclaimable(files[0], active, uploaded, lost);
  }

  /** A group cut is exact for its own, stricter rule. */
  lemma GroupCutIsExact(files: seq<Binlog>, active: Binlog, uploaded: set<Binlog>, lost: set<Binlog>,
      ageOf: Binlog -> Option<nat>, minAge: nat)
    returns (n: nat)
    ensures LargestPrefix(files, n, (f: Binlog) => GroupReclaimable(f, active, uploaded, lost, ageOf, minAge))
    ensures n < |files| ==>
      BelowCut(files, PurgeCutRetainingRecent(files, active, uploaded, lost, ageOf, minAge)) == files[..n]
    ensures PurgeCutRetainingRecent(files, active, uploaded, lost, ageOf, minAge) ==
      if 0 < n < |files| then Some(files[n]) else None
  {
    n := FindEndsThePrefix(files, (f: Binlog) =>
      if f == active then true
      else if f in lost then false
      else if f !in uploaded then true
      else match ageOf(f) case None => true case Some(age) => age < minAge);
    assert n > 0 ==> GroupReclaimable(files[0], active, uploaded, lost, ageOf, minAge);
  }

  /** With the active file among them, the group cut never reclaims a file the standalone cut keeps. */
  lemma GroupCutIsNoDeeper(files: seq<Binlog>, active: Binlog, uploaded: set<Binlog>,
      lost: set<Binlog>, ageOf: Binlog -> Option<nat>, minAge: nat)
    requires active in files
    ensures BelowCut(files, PurgeCutRetainingRecent(files, active, uploaded, lost, ageOf, minAge))
      <= BelowCut(files, PurgeCut(files, active, uploaded, lost))
  {
    var n := PurgeCutIsExact(files, active, uploaded, lost);
    var m := GroupCutIsExact(files, active, uploaded, lost, ageOf, minAge);
    var k :| 0 <= k < |files| && files[k] == active;
    assert forall j | 0 <= j < m :: Reclaimable(files[j], active, uploaded, lost);
    assert files[..m] <= files[..n];
  }
}
