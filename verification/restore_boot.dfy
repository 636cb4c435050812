/** Restore-on-boot: the marker on the volume, the bounded wipe-and-retry, and what may be served. */
module RestoreBoot {
  import opened Common

  datatype Status = InProgress | Completed | Refused | Failed

  /** No marker says nothing ever restored here; one that cannot be read says something may have. */
  datatype MarkerFile = Absent | Unparseable | Present(status: Status, attempts: nat)

  const MAX_RESTORE_ATTEMPTS: nat := 3

  function RecordedAttempts(m: MarkerFile): nat {
    if m.Present? then m.attempts else 0
  }

  /** A restore began here and never reached completion; a marker that cannot be read counts as one. */
  predicate CrashedMidRestore(m: MarkerFile) {
    match m
    case Absent => false
    case Unparseable => true
    case Present(status, _) => status != Completed
  }

  /** What lies directly in the data directory. */
  datatype Entry = VolumeLock | MarkerEntry | MysqlDir | Other(name: string)

  /** Whose data the directory holds: nothing of consequence, part of a restore, all of one that has
      not been served, or a database that has been. */
  datatype Holding = Nothing | PartOfRestore | WholeRestore | ServedDatabase

  /** Where an attempt breaks, if it does, and whether its verdict reaches the marker. */
  datatype Trouble = NoTrouble | BeforeInit(refused: bool, recorded: bool) | DuringInit(refused: bool, recorded: bool)
                   | DuringLoad(refused: bool, recorded: bool) | AfterLoad(refused: bool, recorded: bool)

  datatype BootEnd =
    | Serves(from: Holding)   // what the directory held when the serving mysqld started
    | GaveUp                  // the attempts are spent
    | NothingToRetryWith      // crashed before, and no standalone recovery configuration now
    | AttemptEnded            // this boot's attempt was refused or failed
    | Died                    // the process went away

  /** What a boot that gets as far as serving has to serve: a whole restore of its own making after a
      crashed one, or when asked to restore onto an uninitialized volume; what was there otherwise. */
  function ToServe(m: MarkerFile, content: Holding, initialized: bool, restores: bool): Holding {
    if CrashedMidRestore(m) || (restores && !initialized) then WholeRestore else content
  }

  datatype AttemptEnd = Finished(left: nat) | Broke | Killed

  class Volume {
    var marker: MarkerFile
    var entries: set<Entry>
    var content: Holding
    // Attempts that wrote the marker; times the marker file rotted; whether a wipe took a database
    // that had been served.
    ghost var marked: nat
    ghost var decays: nat
    ghost var lostServed: bool

    predicate Initialized()
      reads this
    {
      MysqlDir in entries
    }

    ghost predicate Served()
      reads this
    {
      content == ServedDatabase
    }

    /** Half-restored data always lies under a marker that says so; a served database never does,
        unless its marker rotted; and the marker counts the attempts that wrote it. */
    ghost predicate Valid()
      reads this
    {
      && (MarkerEntry in entries <==> marker != Absent)
      && (Initialized() ==> content != Nothing)
      && (content == PartOfRestore || content == WholeRestore ==> marker != Absent)
      && (content == PartOfRestore ==> CrashedMidRestore(marker))
      && (marker.Present? && marker.status == Completed ==> Initialized() && (content == WholeRestore || Served()))
      && (Served() ==> Initialized() && (marker.Present? ==> marker.status == Completed))
      && RecordedAttempts(marker) <= MAX_RESTORE_ATTEMPTS
      && marked <= MAX_RESTORE_ATTEMPTS * decays + RecordedAttempts(marker)
      && (lostServed || marker == Unparseable ==> decays > 0)
    }

    constructor Fresh()
      ensures Valid() && marker == Absent && entries == {} && !Served()
      ensures marked == 0 && decays == 0 && !lostServed
    {
      marker, entries, content, marked, decays, lostServed := Absent, {}, Nothing, 0, 0, false;
    }

    /** The marker file rots on disk. */
    method Decay()
      requires Valid() && marker.Present?
      modifies this`marker, this`decays
      ensures Valid() && marker == Unparseable && decays == old(decays) + 1
    {
      marker, decays := Unparseable, decays + 1;
    }

    method RemoveEntry(name: Entry)
      requires Valid() && CrashedMidRestore(marker) && name != MarkerEntry
      modifies this`entries, this`content, this`lostServed
      ensures Valid() && entries == old(entries) - {name}
      ensures content == PartOfRestore && lostServed == (old(lostServed) || old(Served()))
    {
      lostServed := lostServed || Served();
      content := PartOfRestore;
      entries := entries - {name};
    }

    /** The directory's entries, in some order. */
    method ListEntries() returns (names: seq<Entry>)
      ensures forall e :: e in names <==> e in entries
      ensures |names| == |entries|
    {
      names := [];
      var rest := entries;
      while rest != {}
        invariant rest <= entries && |names| + |rest| == |entries|
        invariant forall e :: e in entries <==> e in names || e in rest
        invariant forall e | e in names :: e in entries
        decreases |rest|
      {
        var e :| e in rest;
        names, rest := names + [e], rest - {e};
      }
    }

    /** Whether the sweep has begun to remove, and what that means. */
    twostate predicate SweptSome(some: bool)
      reads this
    {
      if some then content == PartOfRestore && lostServed == (old(lostServed) || old(Served()))
      else content == old(content) && lostServed == old(lostServed) && entries == old(entries)
    }

    /** Removes every entry but the live volume lock and the marker, which is what bounds the retries. */
    method SweepEntries(names: seq<Entry>, stops: nat) returns (left: Option<nat>, ghost some: bool)
      requires Valid() && CrashedMidRestore(marker)
      modifies this`entries, this`content, this`lostServed
      ensures Valid() && CrashedMidRestore(marker) && SweptSome(some)
      ensures old(entries) * {VolumeLock, MarkerEntry} <= entries <= old(entries)
      ensures left.Some? ==> forall e | e in entries :: e !in names || e == VolumeLock || e == MarkerEntry
      ensures some ==> stops > 0
      ensures stops > 0 && MysqlDir in old(entries) && MysqlDir in names ==> some
      ensures stops >= |names| ==> left.Some? && left.value >= stops - |names|
    {
      var rest: nat := stops;
      some := false;
      for k := 0 to |names|
        invariant Valid() && CrashedMidRestore(marker) && SweptSome(some)
        invariant old(entries) * {VolumeLock, MarkerEntry} <= entries <= old(entries)
        invariant forall e | e in entries :: e !in names[..k] || e == VolumeLock || e == MarkerEntry
        invariant rest <= stops <= rest + k && (some ==> stops > 0) && (!some ==> rest == stops)
      {
        var name := names[k];
        if name == VolumeLock || name == MarkerEntry || name !in entries {
          continue;
        }
        if rest == 0 {
          return None, some;
        }
        RemoveEntry(name);
        some := true;
        rest := rest - 1;
      }
      left := Some(rest);
    }

    /** Empties the directory around marker and lock; a process killed half-way leaves some of it. */
    method ResetPartialRestore(stops: nat) returns (left: Option<nat>)
      requires Valid() && CrashedMidRestore(marker)
      modifies this`entries, this`content, this`lostServed
      ensures Valid() && CrashedMidRestore(marker)
      ensures old(entries) * {VolumeLock, MarkerEntry} <= entries <= old(entries)
      ensures left.Some? ==> entries <= {VolumeLock, MarkerEntry} && content == Nothing
      ensures lostServed == (old(lostServed) || (old(Served()) && stops > 0))
      ensures !old(Served()) || left.Some? ==> !Served()
      ensures old(Served()) && stops == 0 ==> content == old(content)
      ensures stops >= |old(entries)| ==> left.Some? && left.value >= stops - |old(entries)|
    {
      var names := ListEntries();
      ghost var some;
      left, some := SweepEntries(names, stops);
      if left.Some? {
        content := Nothing;
      }
    }

    method WriteMarker(status: Status, attempt: nat)
      modifies this`marker, this`entries
      ensures marker == Present(status, attempt) && entries == old(entries) + {MarkerEntry}
    {
      marker, entries := Present(status, attempt), entries + {MarkerEntry};
    }

    /** A refusal or failure leaves its verdict in the marker, when that write succeeds. */
    method EndAttempt(trouble: Trouble, attempt: nat)
      requires Valid() && !Served() && trouble != NoTrouble
      requires !(marker.Present? && marker.status == Completed)
      requires RecordedAttempts(marker) <= attempt <= RecordedAttempts(marker) + 1 && attempt <= MAX_RESTORE_ATTEMPTS
      modifies this`marker, this`entries, this`marked
      ensures Valid() && !Served() && Initialized() == old(Initialized())
      ensures old(marked) <= marked && RecordedAttempts(marker) <= attempt
      ensures marked - old(marked) == RecordedAttempts(marker) - old(RecordedAttempts(marker))
      ensures trouble.recorded ==> marker == Present(if trouble.refused then Refused else Failed, attempt)
      ensures !trouble.recorded ==> marker == old(marker)
    {
      if trouble.recorded {
        marked := marked + (attempt - RecordedAttempts(marker));
        WriteMarker(if trouble.refused then Refused else Failed, attempt);
      }
    }

    /** One attempt. The number it carries is fixed before it runs; the InProgress marker lands once
        mysqld has begun to write and before the system schema's directory exists. `stops` says after
        how many durable steps the process is killed. */
    method Attempt(stops: nat, trouble: Trouble) returns (r: AttemptEnd)
      requires Valid() && !Initialized() && content == Nothing
      requires RecordedAttempts(marker) < MAX_RESTORE_ATTEMPTS
      modifies this`marker, this`entries, this`content, this`marked
      ensures Valid() && !Served()
      ensures (marker == old(marker) && marked == old(marked))
        || (RecordedAttempts(marker) == old(RecordedAttempts(marker)) + 1 && marked == old(marked) + 1)
      ensures r.Finished? ==>
        content == WholeRestore && Initialized() && marker == Present(Completed, old(RecordedAttempts(marker)) + 1)
      ensures !r.Finished? ==> !(marker.Present? && marker.status == Completed)
      ensures trouble == NoTrouble && stops >= 5 ==> r == Finished(stops - 5)
    {
      var attempt := RecordedAttempts(marker) + 1;
      if trouble.BeforeInit? {
        EndAttempt(trouble, attempt);
        return Broke;
      }
      if stops == 0 {
        return Killed;
      }
      entries := entries + {Other("ibdata1")};
      if trouble.DuringInit? {
        EndAttempt(trouble, attempt);
        return Broke;
      }
      if stops == 1 {
        return Killed;
      }
      WriteMarker(InProgress, attempt);
      marked := marked + 1;
      if stops == 2 {
        return Killed;
      }
      entries, content := entries + {MysqlDir}, PartOfRestore;
      if trouble.DuringLoad? {
        EndAttempt(trouble, attempt);
        return Broke;
      }
      if stops == 3 {
        return Killed;
      }
      content := WholeRestore;
      if trouble.AfterLoad? {
        EndAttempt(trouble, attempt);
        return Broke;
      }
      if stops == 4 {
        return Killed;
      }
      WriteMarker(Completed, attempt);
      r := Finished(stops - 5);
    }

    /** The boot gate: judge the marker, wipe and retry within bounds, restore onto an uninitialized
        volume, then serve. */
    method Boot(recover: bool, seeds: bool, stops: nat, trouble: Trouble) returns (r: BootEnd)
      requires Valid()
      modifies this
      ensures Valid() && decays == old(decays)
      // What is served is a whole restore made by this boot, or what the directory held before it; after
      // a crashed restore only the former, under a marker that reads completed.
      ensures r.Serves? ==> Served() && !CrashedMidRestore(marker) && r.from != PartOfRestore
      ensures r.Serves? ==> r.from == ToServe(old(marker), old(content), old(Initialized()), recover && !seeds)
      ensures r.Serves? && r.from == WholeRestore ==> marker.Present? && marker.status == Completed
      ensures r.Serves? && r.from == ServedDatabase ==> old(Served())
      // A boot asked to restore never serves an empty database instead, and left alone it serves.
      ensures r.Serves? && r.from == Nothing ==> old(content) == Nothing && !(recover && !seeds)
      ensures trouble == NoTrouble && stops > |old(entries)| + 5 ==> r.Serves? || r.GaveUp? || r.NothingToRetryWith?
      ensures !r.Serves? && !old(Served()) ==> !Served()
      // A volume that served, its marker readable, is never wiped or restored onto.
      ensures old(Served()) && old(marker) != Unparseable ==>
        Served() && entries == old(entries) && marker == old(marker)
      // A wipe takes a served database exactly when its marker has rotted and this boot may retry.
      ensures lostServed ==
        (old(lostServed) || (old(Served()) && old(marker) == Unparseable && recover && !seeds && stops > 0))
      // Attempts are counted and capped.
      ensures (marker == old(marker) && marked == old(marked))
        || (RecordedAttempts(marker) == old(RecordedAttempts(marker)) + 1 && marked == old(marked) + 1)
      ensures old(RecordedAttempts(marker)) >= 3 ==> marked == old(marked)
      ensures marked <= 3 * (decays + 1)
      ensures r.GaveUp? <==>
        old(CrashedMidRestore(marker)) && recover && !seeds && old(RecordedAttempts(marker)) >= 3
      ensures r.NothingToRetryWith? <==> old(CrashedMidRestore(marker)) && !(recover && !seeds)
      ensures r.GaveUp? || r.NothingToRetryWith? ==>
        entries == old(entries) && marker == old(marker) && content == old(content)
    {
      var rest := stops;
      if CrashedMidRestore(marker) {
        if !(recover && !seeds) {
          return NothingToRetryWith;
        }
        if RecordedAttempts(marker) >= MAX_RESTORE_ATTEMPTS {
          return GaveUp;
        }
        var left := ResetPartialRestore(rest);
        if left.None? {
          return Died;
        }
        rest := left.value;
      }
      if recover && !seeds && !Initialized() {
        var end := Attempt(rest, trouble);
        match end {
          case Broke => return AttemptEnded;
          case Killed => return Died;
          case Finished(left) => rest := left;
        }
      }
      if rest == 0 {
        return Died;
      }
      r := Serves(content);
      Serve();
    }

    /** The serving mysqld: on an empty directory a new database, otherwise what is there. */
    method Serve()
      requires Valid() && !CrashedMidRestore(marker)
      modifies this`entries, this`content
      ensures Valid() && Served() && Initialized()
      ensures old(Initialized()) ==> entries == old(entries)
    {
      entries, content := entries + {MysqlDir}, ServedDatabase;
    }
  }

  // ----- whole runs -----

  /** Anything that can happen to the volume: a boot under some configuration, killed anywhere, or the marker
      file rotting. */
  datatype Command =
    | DoBoot(recover: bool, seeds: bool, stops: nat, trouble: Trouble)
    | DoDecay

  predicate ServesAt(ends: seq<Option<BootEnd>>, i: nat) {
    i < |ends| && ends[i].Some? && ends[i].value.Serves?
  }

  /** The marker does not rot from the command at `i` on. */
  predicate NoDecayFrom(commands: seq<Command>, i: nat, n: nat)
    requires n <= |commands|
  {
    forall k | i <= k < n :: !commands[k].DoDecay?
  }

  /** A boot asked to restore serves something. */
  predicate AnswersItsRequest(c: Command, end: BootEnd) {
    end.Serves? && end.from == Nothing ==> c.DoBoot? && !(c.recover && !c.seeds)
  }

  /** Any run of boots, kills, decays and changes of configuration: no boot serves part of a restore, or nothing
      where it was asked to restore; what one boot served every later one serves again, unless the marker
      rotted between them; a served database is only ever lost to a rotted marker; and the attempts
      are bounded by three for every time it rotted, and three more. */
  method RunAll(v: Volume, commands: seq<Command>) returns (ends: seq<Option<BootEnd>>)
    requires v.Valid()
    modifies v
    ensures v.Valid() && |ends| == |commands|
    ensures forall i | 0 <= i < |ends| && ends[i].Some? :: AnswersItsRequest(commands[i], ends[i].value)
    ensures forall i | 0 <= i < |ends| && ServesAt(ends, i) :: ends[i].value.from != PartOfRestore
    ensures forall i, j |
      0 <= i < j < |ends| && ServesAt(ends, i) && ServesAt(ends, j) && NoDecayFrom(commands, i, j) ::
      ends[j].value.from == ServedDatabase
    ensures forall i | 0 <= i < |ends| && ServesAt(ends, i) && NoDecayFrom(commands, i, |commands|) :: v.Served()
    ensures v.lostServed && !old(v.lostServed) ==> DoDecay in commands || old(v.marker) == Unparseable
    ensures v.marked <= 3 * (v.decays + 1) && v.decays <= old(v.decays) + |commands|
  {
    ends := [];
    for n := 0 to |commands|
      invariant v.Valid() && |ends| == n
      invariant forall i | 0 <= i < n && ends[i].Some? :: AnswersItsRequest(commands[i], ends[i].value)
      invariant forall i | 0 <= i < |ends| && ServesAt(ends, i) :: ends[i].value.from != PartOfRestore
      invariant forall i, j | 0 <= i < j < n && ServesAt(ends, i) && ServesAt(ends, j) && NoDecayFrom(commands, i, j) ::
        ends[j].value.from == ServedDatabase
      invariant forall i | 0 <= i < |ends| && ServesAt(ends, i) && NoDecayFrom(commands, i, n) ::
        v.Served() && v.marker != Unparseable
      invariant v.marker == Unparseable || (v.lostServed && !old(v.lostServed)) ==>
        DoDecay in commands[..n] || old(v.marker) == Unparseable
      invariant v.decays <= old(v.decays) + n
    {
      var end := RunOne(v, commands[n]);
      forall i | 0 <= i < n && NoDecayFrom(commands, i, n + 1)
        ensures NoDecayFrom(commands, i, n) && !commands[n].DoDecay?
      {
        var k := n;
        assert !commands[k].DoDecay?;
      }
      ghost var before := ends;
      ends := ends + [end];
      assert forall i | 0 <= i < n :: ServesAt(ends, i) <==> ServesAt(before, i);
    }
  }

  method RunOne(v: Volume, c: Command) returns (end: Option<BootEnd>)
    requires v.Valid()
    modifies v
    ensures v.Valid() && (end.Some? <==> c.DoBoot?)
    ensures end.Some? ==> AnswersItsRequest(c, end.value)
    ensures end.Some? && end.value.Serves? ==>
      end.value.from != PartOfRestore && v.Served() && v.marker != Unparseable
    ensures c.DoBoot? && old(v.Served()) && old(v.marker) != Unparseable ==> v.Served() && v.marker != Unparseable
    ensures c.DoBoot? && old(v.Served()) && old(v.marker) != Unparseable && end.value.Serves? ==>
      end.value.from == ServedDatabase
    ensures v.marker == Unparseable ==> c.DoDecay? || old(v.marker) == Unparseable
    ensures v.lostServed ==> old(v.lostServed) || old(v.marker) == Unparseable
    ensures v.decays <= old(v.decays) + (if c.DoDecay? then 1 else 0)
  {
    end := None;
    match c {
      case DoBoot(recover, seeds, stops, trouble) =>
        var r := v.Boot(recover, seeds, stops, trouble);
        end := Some(r);
      case DoDecay =>
        if v.marker.Present? {
          v.Decay();
        }
    }
  }

  /** From a new volume: a boot asked to restore and killed anywhere, then one left alone. The second serves the
      whole restore, or what the first got as far as serving. */
  method KillThenRetry(stops: nat) returns (v: Volume, first: BootEnd, second: BootEnd)
    ensures fresh(v) && v.Valid() && v.Served() && second.Serves?
    ensures second.from == if first.Serves? then ServedDatabase else WholeRestore
  {
    v := new Volume.Fresh();
    first := v.Boot(true, false, stops, NoTrouble);
    second := v.Boot(true, false, |v.entries| + 6, NoTrouble);
  }
}
