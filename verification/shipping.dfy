/** The shipping loop over a volume that can crash, a bucket, and files that vanish. */
module Shipping {
  import opened Common
  import opened BinlogNames
  import opened PurgeRules

  datatype Mode = Standalone | GroupPrimary

  /** What a HEAD of an uploaded file answers. */
  datatype Presence = Exists | Missing | CouldNotTell

  datatype PassEnd =
    | Interrupted                  // a crash, a refused PUT, a state file that could not be written
    | Shipped(requestsFull: bool)  // everything closed is accounted for; reclaim was deferred or empty
    | Reclaimed(requestsFull: bool, cut: Binlog)

  /** What a mode's rule lets the archiver reclaim. */
  predicate MayReclaim(mode: Mode, f: Binlog, active: Binlog, uploaded: set<Binlog>, lost: set<Binlog>,
      ageOf: Binlog -> Option<nat>) {
    if mode.Standalone? then Reclaimable(f, active, uploaded, lost)
    else GroupReclaimable(f, active, uploaded, lost, ageOf, 259_200)
  }

  function CutFor(mode: Mode, files: seq<Binlog>, active: Binlog, uploaded: set<Binlog>, lost: set<Binlog>,
      ageOf: Binlog -> Option<nat>): Option<Binlog> {
    if mode.Standalone? then PurgeCut(files, active, uploaded, lost)
    else PurgeCutRetainingRecent(files, active, uploaded, lost, ageOf, GR_BINLOG_EXPIRE_SECONDS)
  }

  /** The file being written is the last of the index, everything before it is closed, and what is
      recorded uploaded is in the bucket or has been taken out of it by someone else. */
  ghost predicate ValidOver(index: seq<Binlog>, onDisk: set<Binlog>, uploaded: set<Binlog>, bucket: set<Binlog>,
      closedEver: set<Binlog>, vanished: set<Binlog>) {
    && index != [] && Ascending(index)
    && (forall f | f in onDisk :: f in index)
    && (forall f | f in closedEver :: f.number.Some? && f.number.value < index[|index| - 1].number.value)
    && (forall f | f in index :: f == index[|index| - 1] || f in closedEver)
    && (forall f | f in uploaded :: f in bucket || f in vanished)
  }

  /** Dropping a prefix of the index, and from disk what it held, keeps all of that. */
  lemma PurgedStaysValid(index: seq<Binlog>, onDisk: set<Binlog>, uploaded: set<Binlog>,
      bucket: set<Binlog>, closedEver: set<Binlog>, vanished: set<Binlog>, gone: seq<Binlog>, rest: seq<Binlog>,
      left: set<Binlog>)
    requires ValidOver(index, onDisk, uploaded, bucket, closedEver, vanished)
    requires index == gone + rest && rest != [] && left == set f | f in onDisk && f !in gone
    ensures ValidOver(rest, left, uploaded, bucket, closedEver, vanished)
    ensures rest[|rest| - 1] == index[|index| - 1]
  {
    SuffixOf(index, gone, rest);
  }

  /** Durable steps for a whole pass over these files: an upload and its record each, and two more. */
  predicate Enough(stops: nat, files: seq<Binlog>) {
    stops >= 2 * |files| + 2
  }

  class Archiver {
    const mode: Mode
    // mysqld's side of the volume.
    var index: seq<Binlog>
    var onDisk: set<Binlog>
    // The state file.
    var uploaded: set<Binlog>
    var lost: set<Binlog>
    var gapAnchorPending: bool
    // The bucket.
    var bucket: set<Binlog>
    // Every file mysqld ever closed, and every object someone else took out of the bucket.
    ghost var closedEver: set<Binlog>
    ghost var vanished: set<Binlog>

    ghost predicate Valid()
      reads this
    {
      ValidOver(index, onDisk, uploaded, bucket, closedEver, vanished)
    }

    function Active(): Binlog
      requires index != []
      reads this
    {
      index[|index| - 1]
    }

    /** Every binlog ever closed is in the bucket or was taken out of it, is recorded lost, or is still
        indexed: on disk, or gone and awaiting detection. */
    ghost predicate Conserved()
      reads this
    {
      forall f | f in closedEver :: f in bucket || f in vanished || f in lost || f in index
    }

    /** Nothing closed is unaccounted for. */
    ghost predicate Accounted()
      reads this
    {
      forall f | f in closedEver :: f in bucket || f in vanished || f in lost
    }

    constructor (m: Mode, first: Binlog)
      requires first.number.Some?
      ensures Valid() && Conserved() && mode == m
      ensures index == [first] && onDisk == {first} && uploaded == {} && lost == {} && !gapAnchorPending
      ensures bucket == {} && vanished == {} && closedEver == {}
    {
      mode, index, onDisk := m, [first], {first};
      uploaded, lost, gapAnchorPending, bucket := {}, {}, false, {};
      closedEver, vanished := {}, {};
    }

    /** mysqld closes the active file and opens the next, numbered one higher. */
    method Rotate(next: Binlog)
      requires Valid() && Conserved()
      requires next.number == Some(Active().number.value + 1)
      requires forall f | f in index :: f.name != next.name
      modifies this`index, this`onDisk, this`closedEver
      ensures Valid() && Conserved()
      ensures index == old(index) + [next] && Active() == next
      ensures onDisk == old(onDisk) + {next} && closedEver == old(closedEver) + {old(Active())}
    {
      closedEver := closedEver + {Active()};
      AppendAscends(index, next);
      onDisk := onDisk + {next};
      index := index + [next];
    }

    /** A file disappears from the volume; its index entry stays. */
    method RemoveOutOfBand(f: Binlog)
      requires Valid() && Conserved()
      modifies this`onDisk
      ensures Valid() && Conserved() && onDisk == old(onDisk) - {f}
    {
      onDisk := onDisk - {f};
    }

    /** Someone else takes an object out of the bucket. */
    method LoseFromBucket(f: Binlog)
      requires Valid() && Conserved()
      modifies this`bucket, this`vanished
      ensures Valid() && Conserved() && bucket == old(bucket) - {f}
      ensures vanished == old(vanished) + (if f in old(bucket) then {f} else {})
    {
      vanished := vanished + (if f in bucket then {f} else {});
      bucket := bucket - {f};
    }

    /** A full that anchors the gap landed. */
    method ClearGapAnchor()
      requires Valid() && Conserved()
      modifies this`gapAnchorPending
      ensures Valid() && Conserved() && !gapAnchorPending
    {
      gapAnchorPending := false;
    }

    /** What a HEAD of an uploaded file answers. */
    function Head(f: Binlog, unanswered: set<Binlog>): Presence
      reads this
    {
      if f in unanswered then CouldNotTell else if f in bucket then Exists else Missing
    }

    /** At startup: an upload the bucket denies is forgotten, so it is uploaded again; one that could
        not be checked is trusted. */
    method ReconcileUploadState(unanswered: set<Binlog>)
      requires Valid() && Conserved()
      modifies this`uploaded
      ensures Valid() && Conserved()
      ensures uploaded == set f | f in old(uploaded) && (f in bucket || f in unanswered)
    {
      var names := uploaded;
      var kept: set<Binlog> := {};
      while names != {}
        invariant names <= uploaded
        invariant kept == set f | f in uploaded - names && (f in bucket || f in unanswered)
        decreases |names|
      {
        var f :| f in names;
        if Head(f, unanswered) != Missing {
          kept := kept + {f};
        }
        names := names - {f};
      }
      uploaded := kept;
    }

    /** What one pass may do to the records and the bucket: whatever it adds is a closed file, recorded
        lost only when gone from disk and never uploaded, in the bucket only from disk, and
        recorded uploaded only once in the bucket. */
    twostate predicate Recorded(active: Binlog)
      reads this
    {
      && old(uploaded) <= uploaded && old(lost) <= lost && old(bucket) <= bucket
      && (forall f | f in lost && f !in old(lost) :: f != active && f in index && f !in onDisk && f !in old(uploaded))
      && (forall f | f in uploaded && f !in old(uploaded) :: f != active && f in bucket && f in onDisk)
      && (forall f | f in bucket && f !in old(bucket) :: f != active && f in onDisk)
      && gapAnchorPending == (old(gapAnchorPending) || lost != old(lost))
    }

    /** One closed file: gone from disk it is recorded lost, otherwise it is uploaded and then
        recorded. `None` when the pass was cut short. */
    method ShipFile(name: Binlog, active: Binlog, rest: nat) returns (left: Option<nat>)
      requires Valid() && Conserved() && active == Active()
      requires name in index && name != active && name !in uploaded && name !in lost
      modifies this`uploaded, this`lost, this`gapAnchorPending, this`bucket
      ensures Valid() && Conserved() && Recorded(active)
      ensures left.Some? ==> (name in uploaded || name in lost) && left.value + 2 >= rest
      ensures rest >= 2 ==> left.Some?
    {
      if rest == 0 {
        return None;
      }
      if name !in onDisk {
        lost, gapAnchorPending := lost + {name}, true;
        return Some(rest - 1);
      }
      bucket := bucket + {name};
      if rest == 1 {
        return None;
      }
      uploaded := uploaded + {name};
      left := Some(rest - 2);
    }

    /** A pass over the closed files, oldest first. Every durable step may be the last: `stops` says
        after how many the pass is cut short. */
    method ShipClosed(files: seq<Binlog>, active: Binlog, stops: nat) returns (left: Option<nat>)
      requires Valid() && Conserved() && files == index && active == Active()
      modifies this`uploaded, this`lost, this`gapAnchorPending, this`bucket
      ensures Valid() && Conserved() && Recorded(active)
      ensures left.Some? ==> forall f | f in files && f != active :: f in uploaded || f in lost
      ensures Enough(stops, files) ==> left.Some? && left.value >= 2
    {
      var rest: nat := stops;
      ClosedBeforeActive(files);
      for k := 0 to |files|
        invariant Valid() && Conserved() && Recorded(active) && rest + 2 * k >= stops
        invariant forall j | 0 <= j < k && files[j] != active :: files[j] in uploaded || files[j] in lost
      {
        var name := files[k];
        assert IsClosed(name, active) <==> name != active;
        if IsClosed(name, active) && name !in uploaded && name !in lost {
          left := ShipFile(name, active, rest);
          if left.None? {
            return;
          }
          rest := left.value;
        }
      }
      left := Some(rest);
    }

    /** What this archiver removes from disk was recorded lost, or recorded uploaded and in the bucket
        unless someone else took it out; it was never the active file; and on a group primary it
        was lost or has outlived the recovery window. */
    twostate predicate RemovedSafely(ageOf: Binlog -> Option<nat>)
      requires old(index) != []
      reads this
    {
      && onDisk <= old(onDisk)
      && forall f | f in old(onDisk) && f !in onDisk ::
           && f != old(Active())
           && (f in old(lost) || (f in old(uploaded) && (f in bucket || f in vanished)))
           && (mode.GroupPrimary? ==> f in old(lost) || (ageOf(f).Some? && ageOf(f).value >= 259_200))
    }

    /** The same over a whole pass, which may itself have recorded the loss or made the upload. */
    twostate predicate PassedSafely(ageOf: Binlog -> Option<nat>)
      requires old(index) != []
      reads this
    {
      && onDisk <= old(onDisk) && old(bucket) <= bucket && old(lost) <= lost
      && (forall f | f in bucket && f !in old(bucket) :: f in old(onDisk) && f != old(Active()))
      && (forall f | f in lost && f !in old(lost) ::
            f in old(index) && f !in old(onDisk) && f !in old(uploaded) && f != old(Active()))
      && forall f | f in old(onDisk) && f !in onDisk ::
           && f != old(Active()) && (f in bucket || f in old(lost) || (f in old(uploaded) && f in vanished))
           && (mode.GroupPrimary? ==> f in old(lost) || (ageOf(f).Some? && ageOf(f).value >= 259_200))
    }

    /** One shipping pass: account for every closed file, then reclaim by the mode's rule. A pass that
        is not cut short and finds no lock leaves nothing at the front that it may reclaim. */
    method ShipOnce(stops: nat, ownLock: bool, foreignLock: bool, ageOf: Binlog -> Option<nat>)
      returns (r: PassEnd, gone: seq<Binlog>)
      requires Valid() && Conserved()
      modifies this`index, this`onDisk, this`uploaded, this`lost, this`gapAnchorPending, this`bucket
      ensures Valid() && Conserved() && PassedSafely(ageOf)
      ensures gapAnchorPending == (old(gapAnchorPending) || lost != old(lost))
      ensures old(index) == gone + index && (ownLock || foreignLock ==> gone == [] && onDisk == old(onDisk))
      ensures r.Reclaimed? ==> gone != [] && index[0] == r.cut
      ensures r.Shipped? ==> gone == []
      ensures !r.Interrupted? ==> Accounted() && r.requestsFull == gapAnchorPending
      ensures Enough(stops, old(index)) ==> !r.Interrupted?
      ensures !r.Interrupted? && !ownLock && !foreignLock ==>
        !MayReclaim(mode, index[0], Active(), uploaded, lost, ageOf)
    {
      var files, active := index, Active();
      r, gone := Interrupted, [];
      var left := ShipClosed(files, active, stops);
      if left.Some? {
        assert Accounted();
        r, gone := ReclaimIfAllowed(files, active, left.value, ownLock, foreignLock, ageOf);
      }
    }

    /** The end of a pass: reclaim up to the cut, unless there is none or a backup lock forbids it. */
    method ReclaimIfAllowed(files: seq<Binlog>, active: Binlog, stops: nat, ownLock: bool, foreignLock: bool,
        ageOf: Binlog -> Option<nat>) returns (r: PassEnd, gone: seq<Binlog>)
      requires Valid() && Accounted() && files == index && active == Active()
      modifies this`index, this`onDisk, this`uploaded
      ensures Valid() && Accounted() && RemovedSafely(ageOf)
      ensures files == gone + index && (ownLock || foreignLock ==> gone == [] && onDisk == old(onDisk))
      ensures uploaded == old(uploaded) || uploaded == old(uploaded) - (set f | f in gone)
      ensures r.Reclaimed? ==> gone != [] && index[0] == r.cut
      ensures r.Shipped? ==> gone == []
      ensures !r.Interrupted? ==> r.requestsFull == gapAnchorPending
      ensures stops >= 2 ==> !r.Interrupted?
      ensures !r.Interrupted? && !ownLock && !foreignLock ==>
        !MayReclaim(mode, index[0], Active(), uploaded, lost, ageOf)
    {
      gone := [];
      var cut := CutFor(mode, files, active, uploaded, lost, ageOf);
      if cut.None? || ownLock || foreignLock {
        NothingToReclaim(mode, files, active, uploaded, lost, ageOf, cut);
        return Shipped(gapAnchorPending), gone;
      }
      if stops == 0 {
        return Interrupted, gone;
      }
      gone := Reclaim(files, active, cut.value, ageOf);
      if stops == 1 {
        return Interrupted, gone;
      }
      ForgetUploads(gone);
      r := Reclaimed(gapAnchorPending, cut.value);
    }

    /** Purge up to the cut. */
    method Reclaim(files: seq<Binlog>, active: Binlog, cut: Binlog, ageOf: Binlog -> Option<nat>)
      returns (gone: seq<Binlog>)
      requires Valid() && files == index && active == Active()
      requires Some(cut) == CutFor(mode, files, active, uploaded, lost, ageOf)
      modifies this`index, this`onDisk
      ensures Valid() && RemovedSafely(ageOf) && Active() == active
      ensures files == gone + index && gone != [] && index[0] == cut
      ensures forall f | f in old(onDisk) :: f in onDisk <==> f !in gone
      ensures !MayReclaim(mode, cut, active, uploaded, lost, ageOf)
    {
      gone := BelowCut(files, Some(cut));
      var rest := files[|gone|..];
      CutIsSafe(mode, files, active, uploaded, lost, ageOf, cut, gone, rest);
      PurgeBinaryLogs(gone, rest);
    }

    method ForgetUploads(gone: seq<Binlog>)
      requires Valid()
      modifies this`uploaded
      ensures Valid()
      ensures uploaded == old(uploaded) - (set f | f in gone)
    {
      uploaded := uploaded - (set f | f in gone);
    }

    /** PURGE BINARY LOGS TO the first of `rest`: everything before it goes, from disk and index. */
    method PurgeBinaryLogs(gone: seq<Binlog>, rest: seq<Binlog>)
      requires Valid() && index == gone + rest && rest != []
      modifies this`index, this`onDisk
      ensures Valid() && index == rest && Active() == old(Active())
      ensures onDisk <= old(onDisk) && forall f | f in old(onDisk) :: f in onDisk <==> f !in gone
    {
      var left := set f | f in onDisk && f !in gone;
      PurgedStaysValid(index, onDisk, uploaded, bucket, closedEver, vanished, gone, rest, left);
      index, onDisk := rest, left;
    }
  }

  // ----- whole runs -----

  /** Anything that can happen to the volume and the bucket; a file is rotated in by name. */
  datatype Command =
    | DoRotate(name: string)
    | DoRemove(f: Binlog)
    | DoLose(f: Binlog)
    | DoAnchor
    | DoReconcile(unanswered: set<Binlog>)
    | DoShip(stops: nat, ownLock: bool, foreignLock: bool, ageOf: Binlog -> Option<nat>)

  /** Any run of rotations, removals, bucket losses, anchorings, restarts and passes, each pass cut
      short anywhere: every binlog ever closed is in the bucket, recorded lost or still indexed,
      except what the run itself took out of the bucket. */
  method RunAll(a: Archiver, commands: seq<Command>)
    requires a.Valid() && a.Conserved()
    modifies a
    ensures a.Valid() && a.Conserved()
    ensures old(a.closedEver) <= a.closedEver && old(a.lost) <= a.lost
    ensures forall f | f in a.vanished && f !in old(a.vanished) :: DoLose(f) in commands
    ensures forall f | f in a.closedEver && f !in old(a.vanished) && DoLose(f) !in commands ::
      f in a.bucket || f in a.lost || f in a.index
  {
    for i := 0 to |commands|
      invariant a.Valid() && a.Conserved()
      invariant old(a.closedEver) <= a.closedEver && old(a.lost) <= a.lost
      invariant forall f | f in a.vanished && f !in old(a.vanished) :: DoLose(f) in commands
    {
      RunOne(a, commands[i]);
    }
  }

  method RunOne(a: Archiver, c: Command)
    requires a.Valid() && a.Conserved()
    modifies a
    ensures a.Valid() && a.Conserved()
    ensures old(a.closedEver) <= a.closedEver && old(a.lost) <= a.lost
    ensures a.vanished == old(a.vanished) || (c.DoLose? && a.vanished == old(a.vanished) + {c.f})
  {
    match c {
      case DoRotate(name) =>
        if forall f | f in a.index :: f.name != name {
          a.Rotate(Binlog(name, Some(a.Active().number.value + 1)));
        }
      case DoRemove(f) => a.RemoveOutOfBand(f);
      case DoLose(f) => a.LoseFromBucket(f);
      case DoAnchor => a.ClearGapAnchor();
      case DoReconcile(unanswered) => a.ReconcileUploadState(unanswered);
      case DoShip(stops, ownLock, foreignLock, ageOf) =>
        var r, gone := a.ShipOnce(stops, ownLock, foreignLock, ageOf);
    }
  }

  /** From a new volume: a file is closed, a pass completes, and the file is in the bucket. */
  method CloseThenShip(mode: Mode, first: Binlog, second: Binlog, ageOf: Binlog -> Option<nat>)
    returns (a: Archiver)
    requires first.number.Some? && second.number == Some(first.number.value + 1) && second.name != first.name
    ensures fresh(a) && a.Valid() && a.Conserved()
    ensures first in a.bucket && a.lost == {} && a.Active() == second
  {
    a := new Archiver(mode, first);
    a.Rotate(second);
    var r, gone := a.ShipOnce(6, false, false, ageOf);
    assert forall f | f in a.lost :: f in [first, second];
  }

  lemma SuffixOf(files: seq<Binlog>, gone: seq<Binlog>, rest: seq<Binlog>)
    requires Ascending(files) && files == gone + rest && rest != []
    ensures Ascending(rest) && rest[|rest| - 1] == files[|files| - 1]
    ensures forall f | f in rest :: f in files
    ensures forall f | f in files :: f in gone || f in rest
  {
    forall j, k | 0 <= j < k < |rest|
      ensures rest[j].number.Some? && rest[k].number.Some? && rest[j].number.value < rest[k].number.value
    {
      assert rest[j] == files[|gone| + j] && rest[k] == files[|gone| + k];
    }
    assert forall k | 0 <= k < |rest| :: rest[k] == files[|gone| + k];
  }

  lemma ClosedBeforeActive(files: seq<Binlog>)
    requires files != [] && Ascending(files)
    ensures forall f | f in files :: IsClosed(f, files[|files| - 1]) <==> f != files[|files| - 1]
  {}

  /** Either mode's cut stops before anything unsafe for it, and not before that. */
  lemma CutIsSafe(mode: Mode, files: seq<Binlog>, active: Binlog, uploaded: set<Binlog>, lost: set<Binlog>,
      ageOf: Binlog -> Option<nat>, cut: Binlog, gone: seq<Binlog>, rest: seq<Binlog>)
    requires Some(cut) == CutFor(mode, files, active, uploaded, lost, ageOf)
    requires gone == BelowCut(files, Some(cut)) && rest == files[|gone|..]
    ensures files == gone + rest && gone != [] && rest != [] && rest[0] == cut
    ensures forall f | f in gone :: MayReclaim(mode, f, active, uploaded, lost, ageOf)
    ensures !MayReclaim(mode, cut, active, uploaded, lost, ageOf)
  {
    if mode.Standalone? {
      var n := PurgeCutIsExact(files, active, uploaded, lost);
    } else {
      var n := GroupCutIsExact(files, active, uploaded, lost, ageOf, GR_BINLOG_EXPIRE_SECONDS);
    }
  }

  /** Without a cut, the first file may not be reclaimed. */
  lemma NothingToReclaim(mode: Mode, files: seq<Binlog>, active: Binlog, uploaded: set<Binlog>, lost: set<Binlog>,
      ageOf: Binlog -> Option<nat>, cut: Option<Binlog>)
    requires files != [] && active in files && cut == CutFor(mode, files, active, uploaded, lost, ageOf)
    ensures cut == None ==> !MayReclaim(mode, files[0], active, uploaded, lost, ageOf)
  {
    var k :| 0 <= k < |files| && files[k] == active;
    if mode.Standalone? {
      var n := PurgeCutIsExact(files, active, uploaded, lost);
      assert !Reclaimable(files[k], active, uploaded, lost);
    } else {
      var n := GroupCutIsExact(files, active, uploaded, lost, ageOf, GR_BINLOG_EXPIRE_SECONDS);
      assert !GroupReclaimable(files[k], active, uploaded, lost, ageOf, 259_200);
    }
  }
}
