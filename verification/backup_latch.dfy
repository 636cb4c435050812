/** The full-backup latch: requests from the endpoint and the shipping loop, the backup loops that
    consume them, and the supervisor that stops and starts archiver tasks, in every interleaving. */
module BackupLatch {
  import opened Common

  datatype Latch = Idle | Queued | Running

  /** A live archiver task's backup loop: between dumps, or inside the run numbered `run`. */
  datatype Loop = Waiting | Dumping(run: nat)

  /** The supervisor: watching the role, having aborted a task it no longer holds, or at one of the
      three stores of stopping. */
  datatype Supervisor = Watching | Aborting(task: nat) | ClearingLatch | ClearingReason | ClearingFlag

  /** `tasks` are the archiver tasks alive, `handle` the one the supervisor holds; `callers` are request
      calls past the check and not yet at the compare-exchange. */
  datatype State = State(
    latch: Latch, archiving: bool, gapRecovery: bool,
    tasks: map<nat, Loop>, handle: Option<nat>, started: nat, supervisor: Supervisor,
    callers: map<nat, bool>, calls: nat, runs: nat,
    queued: Option<nat>, accepted: set<nat>, consumed: map<nat, nat>, discarded: set<nat>)

  datatype Event =
    | Check(gap: bool)             // archiving is configured and on: the call goes ahead
    | Arm(caller: nat)             // a gap recovery publishes its reason before the latch
    | Exchange(caller: nat)        // idle to queued, or refused
    | BeginRequested(task: nat) | BeginScheduled(task: nat) | BeginFails(task: nat)
    | RunEnds(task: nat)
    | TaskEnds(task: nat)          // cancelled, or ended on its own: a live run is dropped with it
    | Abort | Awaited | ClearLatch | ClearReason | ClearFlag
    | NoticeEnd | Start

  predicate IsWaiting(s: State, t: nat) {
    t in s.tasks && s.tasks[t].Waiting?
  }

  predicate IsDumping(s: State, t: nat) {
    t in s.tasks && s.tasks[t].Dumping?
  }

  /** `awaits`: the supervisor waits for the aborted task before it stops the latch. */
  predicate Enabled(s: State, e: Event, awaits: bool) {
    match e
    case Check(_) => s.archiving
    case Arm(c) => c in s.callers && s.callers[c]
    case Exchange(c) => c in s.callers
    case BeginRequested(t) => IsWaiting(s, t) && s.latch == Queued
    case BeginScheduled(t) => IsWaiting(s, t) && s.latch == Idle
    case BeginFails(t) => IsWaiting(s, t)
    case RunEnds(t) => IsDumping(s, t)
    case TaskEnds(t) => t in s.tasks
    case Abort => s.supervisor == Watching && s.handle.Some?
    case Awaited => s.supervisor.Aborting? && (s.supervisor.task !in s.tasks || !awaits)
    case ClearLatch => s.supervisor == ClearingLatch
    case ClearReason => s.supervisor == ClearingReason
    case ClearFlag => s.supervisor == ClearingFlag
    case NoticeEnd => s.supervisor == Watching && s.handle.Some? && s.handle.value !in s.tasks
    case Start => s.supervisor == Watching && s.handle.None?
  }

  /** Dropping a live run stores idle, whatever the latch says by then. */
  function LatchAfterDrop(s: State, t: nat): Latch
    requires t in s.tasks
  {
    if s.tasks[t].Dumping? then Idle else s.latch
  }

  function Next(s: State, e: Event): State
    requires Enabled(s, e, false)
  {
    match e
    case Check(gap) => s.(callers := s.callers[s.calls := gap], calls := s.calls + 1)
    case Arm(_) => s.(gapRecovery := true)
    case Exchange(c) =>
      var t := s.(callers := s.callers - {c});
      if s.latch == Idle then t.(latch := Queued, queued := Some(c), accepted := s.accepted + {c}) else t
    case BeginRequested(t) =>
      var u := s.(latch := Running, tasks := s.tasks[t := Dumping(s.runs)], runs := s.runs + 1,
                  gapRecovery := false, queued := None);
      if s.queued.Some? then u.(consumed := s.consumed[s.queued.value := s.runs]) else u
    case BeginScheduled(t) => s.(latch := Running, tasks := s.tasks[t := Dumping(s.runs)], runs := s.runs + 1)
    case BeginFails(_) => s
    case RunEnds(t) => s.(latch := LatchAfterDrop(s, t), tasks := s.tasks[t := Waiting])
    case TaskEnds(t) => s.(latch := LatchAfterDrop(s, t), tasks := s.tasks - {t})
    case Abort => s.(supervisor := Aborting(s.handle.value), handle := None)
    case Awaited => s.(supervisor := ClearingLatch)
    case ClearLatch =>
      s.(latch := Idle, supervisor := ClearingReason, queued := None,
         discarded := if s.queued.Some? then s.discarded + {s.queued.value} else s.discarded)
    case ClearReason => s.(gapRecovery := false, supervisor := ClearingFlag)
    case ClearFlag => s.(archiving := false, supervisor := Watching)
    case NoticeEnd => s.(archiving := false, handle := None)
    case Start =>
      s.(archiving := true, tasks := s.tasks[s.started := Waiting], handle := Some(s.started), started := s.started + 1)
  }

  predicate Initial(s: State) {
    && s.latch == Idle && s.tasks == map[] && s.handle == None && s.supervisor == Watching && s.callers == map[]
    && s.queued == None && s.accepted == {} && s.consumed == map[] && s.discarded == {}
  }

  /** Every task alive is the one the supervisor holds, or the one it aborted and still waits for; from
      then until it watches again there is none. */
  predicate Supervised(s: State) {
    match s.supervisor
    case Watching => forall t | t in s.tasks :: s.handle == Some(t) && t < s.started
    case Aborting(a) => s.handle.None? && forall t | t in s.tasks :: t == a && t < s.started
    case _ => s.handle.None? && s.tasks == map[]
  }

  /** The latch reads running exactly while some run is alive. */
  ghost predicate LatchFollowsRuns(s: State) {
    s.latch == Running <==> exists t :: IsDumping(s, t)
  }

  /** Every accepted request is queued, was consumed by a run of its own, or was discarded by a stop,
      and only one of these. */
  predicate Accounted(s: State) {
    && (s.queued.Some? <==> s.latch == Queued)
    && s.accepted == (if s.queued.Some? then {s.queued.value} else {}) + s.consumed.Keys + s.discarded
    && (s.queued.Some? ==> s.queued.value !in s.consumed && s.queued.value !in s.discarded)
    && s.consumed.Keys !! s.discarded
  }

  predicate OwnRuns(s: State) {
    && (forall r | r in s.consumed :: s.consumed[r] < s.runs)
    && (forall r, q | r in s.consumed && q in s.consumed && s.consumed[r] == s.consumed[q] :: r == q)
  }

  predicate FreshCallers(s: State) {
    && (forall c | c in s.callers :: c < s.calls && c !in s.accepted)
    && (forall r | r in s.accepted :: r < s.calls)
  }

  ghost predicate Inv(s: State) {
    Supervised(s) && LatchFollowsRuns(s) && Accounted(s) && OwnRuns(s) && FreshCallers(s)
  }

  lemma OneTask(s: State, t: nat, u: nat)
    requires Supervised(s) && t in s.tasks && u in s.tasks
    ensures t == u
  {}

  lemma RunsStep(s: State, e: Event)
    requires Inv(s) && Enabled(s, e, true)
    ensures Supervised(Next(s, e)) && LatchFollowsRuns(Next(s, e))
  {
    var n := Next(s, e);
    match e
    case BeginRequested(t) => assert IsDumping(n, t);
    case BeginScheduled(t) => assert IsDumping(n, t);
    case RunEnds(t) => assert IsDumping(s, t) && forall u :: !IsDumping(n, u);
    case TaskEnds(t) => assert IsDumping(s, t) <==> s.latch == Running;
    case Start => assert forall u :: !IsDumping(n, u) && !IsDumping(s, u);
    case ClearLatch => assert forall u :: !IsDumping(n, u);
    case _ => assert forall u :: IsDumping(n, u) <==> IsDumping(s, u);
  }

  lemma RequestsStep(s: State, e: Event)
    requires Inv(s) && Enabled(s, e, true)
    ensures Accounted(Next(s, e)) && FreshCallers(Next(s, e))
  {
    if e.RunEnds? || e.TaskEnds? {
      assert IsDumping(s, e.task) ==> s.latch == Running;
    }
  }

  lemma OwnRunsStep(s: State, e: Event)
    requires Inv(s) && Enabled(s, e, true)
    ensures OwnRuns(Next(s, e))
  {}

  lemma StepKeepsInv(s: State, e: Event)
    requires Inv(s) && Enabled(s, e, true)
    ensures Inv(Next(s, e))
  {
    RunsStep(s, e);
    RequestsStep(s, e);
    OwnRunsStep(s, e);
  }

  ghost predicate IsRun(states: seq<State>, events: seq<Event>, awaits: bool) {
    && |states| == |events| + 1 && Initial(states[0])
    && forall i | 0 <= i < |events| :: StepsTo(states, events, i, awaits)
  }

  predicate StepsTo(states: seq<State>, events: seq<Event>, i: nat, awaits: bool)
    requires i < |events| && |states| == |events| + 1
  {
    Enabled(states[i], events[i], awaits) && states[i + 1] == Next(states[i], events[i])
  }

  lemma {:induction false} RunsKeepInv(states: seq<State>, events: seq<Event>, i: nat)
    requires IsRun(states, events, true) && i < |states|
    ensures Inv(states[i])
  {
    if i > 0 {
      RunsKeepInv(states, events, i - 1);
      assert StepsTo(states, events, i - 1, true);
      StepKeepsInv(states[i - 1], events[i - 1]);
    }
  }

  /** In every interleaving: at most one run is alive, the latch reads running exactly while one is, and
      every accepted request is in exactly one place -- queued, consumed by a run no other request
      got, or discarded. */
  lemma LatchIsExact(states: seq<State>, events: seq<Event>, i: nat, t: nat, u: nat, r: nat)
    requires IsRun(states, events, true) && i < |states|
    ensures IsDumping(states[i], t) && IsDumping(states[i], u) ==> t == u
    ensures states[i].latch == Running <==> exists k :: IsDumping(states[i], k)
    ensures r in states[i].accepted
      <==> states[i].queued == Some(r) || r in states[i].consumed || r in states[i].discarded
    ensures !(r in states[i].consumed && r in states[i].discarded)
    ensures states[i].queued == Some(r) ==> r !in states[i].consumed && r !in states[i].discarded
    ensures r in states[i].consumed ==>
      forall q | q in states[i].consumed && q != r :: states[i].consumed[q] != states[i].consumed[r]
  {
    RunsKeepInv(states, events, i);
    if IsDumping(states[i], t) && IsDumping(states[i], u) {
      OneTask(states[i], t, u);
    }
  }

  /** A queued request leaves the queue in two ways only: a run takes it, or the supervisor's stop
      discards it -- and by then no archiver task is left to run it. */
  lemma QueuedLeavesTwoWays(s: State, e: Event, r: nat)
    requires Inv(s) && Enabled(s, e, true) && s.queued == Some(r) && Next(s, e).queued != Some(r)
    ensures e.BeginRequested? || e == ClearLatch
    ensures e.BeginRequested? ==>
      r in Next(s, e).consumed && e.task in Next(s, e).tasks
      && Next(s, e).tasks[e.task] == Dumping(Next(s, e).consumed[r])
    ensures e == ClearLatch ==> r in Next(s, e).discarded && s.tasks == map[]
  {}

  function Trace(s: State, events: seq<Event>, awaits: bool): (r: Option<State>)
    decreases |events|
  {
    if events == [] then Some(s)
    else if Enabled(s, events[0], awaits) then Trace(Next(s, events[0]), events[1..], awaits)
    else None
  }

  /** The aborted task still holds a live run. */
  predicate AbortedMidDump(s: State, t: nat) {
    s.latch == Running && IsDumping(s, t) && s.supervisor == Aborting(t) && s.archiving && s.queued == None
  }

  lemma TraceFollows(s: State, e: Event, rest: seq<Event>, awaits: bool)
    requires Enabled(s, e, awaits)
    ensures Trace(s, [e] + rest, awaits) == Trace(Next(s, e), rest, awaits)
  {
    assert ([e] + rest)[1..] == rest;
  }

  /** Why the stop awaits the aborted archiver: without that, a request accepted after the stop cleared the latch is
      erased by the late drop of the old run, and ends up nowhere. */
  lemma LateDropErasesRequest(s: State, t: nat)
    requires AbortedMidDump(s, t) && Inv(s)
    ensures !Enabled(s, Awaited, true)
    ensures var end := Trace(s,
      [Awaited] + ([ClearLatch] + ([Check(false)] + ([Exchange(s.calls)] + ([TaskEnds(t)] + [])))), false);
      && end.Some? && s.calls in end.value.accepted && end.value.latch == Idle
      && s.calls !in end.value.consumed && s.calls !in end.value.discarded
  {
    var s1 := Next(s, Awaited);
    var s2 := Next(s1, ClearLatch);
    var s3 := Next(s2, Check(false));
    var s4 := Next(s3, Exchange(s.calls));
    TraceFollows(s, Awaited, [ClearLatch] + ([Check(false)] + ([Exchange(s.calls)] + ([TaskEnds(t)] + []))), false);
    TraceFollows(s1, ClearLatch, [Check(false)] + ([Exchange(s.calls)] + ([TaskEnds(t)] + [])), false);
    TraceFollows(s2, Check(false), [Exchange(s.calls)] + ([TaskEnds(t)] + []), false);
    TraceFollows(s3, Exchange(s.calls), [TaskEnds(t)] + [], false);
    TraceFollows(s4, TaskEnds(t), [], false);
    assert s.calls !in s.accepted;
  }

  /** A stop that does not wait for the aborted task ends with that task's run still alive. */
  lemma StopsUnawaited(s: State, t: nat, rest: seq<Event>) returns (stopped: State)
    requires AbortedMidDump(s, t) && Inv(s)
    ensures Trace(s, [Awaited] + ([ClearLatch] + ([ClearReason] + ([ClearFlag] + rest))), false)
      == Trace(stopped, rest, false)
    ensures IsDumping(stopped, t) && t < stopped.started && stopped.started == s.started
    ensures stopped.supervisor == Watching && stopped.handle.None? && stopped.latch == Idle
  {
    var s1 := Next(s, Awaited);
    var s2 := Next(s1, ClearLatch);
    var s3 := Next(s2, ClearReason);
    stopped := Next(s3, ClearFlag);
    TraceFollows(s, Awaited, [ClearLatch] + ([ClearReason] + ([ClearFlag] + rest)), false);
    TraceFollows(s1, ClearLatch, [ClearReason] + ([ClearFlag] + rest), false);
    TraceFollows(s2, ClearReason, [ClearFlag] + rest, false);
    TraceFollows(s3, ClearFlag, rest, false);
  }

  /** And without it a restarted archiver can begin a second run beside the first. */
  lemma NotAwaitingAllowsTwoRuns(s: State, t: nat)
    requires AbortedMidDump(s, t) && Inv(s)
    ensures var end := Trace(s, [Awaited] + ([ClearLatch] + ([ClearReason] + ([ClearFlag]
        + ([Start] + ([BeginScheduled(s.started)] + []))))), false);
      end.Some? && t != s.started && IsDumping(end.value, t) && IsDumping(end.value, s.started)
  {
    var stopped := StopsUnawaited(s, t, [Start] + ([BeginScheduled(s.started)] + []));
    var restarted := Next(stopped, Start);
    TraceFollows(stopped, Start, [BeginScheduled(s.started)] + [], false);
    TraceFollows(restarted, BeginScheduled(s.started), [], false);
    var end := Next(restarted, BeginScheduled(s.started));
    assert Trace(end, [], false) == Some(end);
  }

  /** The three stores of a stop, the aborted task being gone. */
  lemma StopsInOrder(s: State) returns (stopped: State)
    requires Inv(s) && s.supervisor.Aborting? && s.supervisor.task !in s.tasks
    ensures Trace(s, [Awaited] + ([ClearLatch] + ([ClearReason] + ([ClearFlag] + []))), true) == Some(stopped)
    ensures Inv(stopped)
    ensures stopped == s.(latch := Idle, gapRecovery := false, archiving := false, supervisor := Watching,
        queued := None, discarded := if s.queued.Some? then s.discarded + {s.queued.value} else s.discarded)
  {
    var s1 := Next(s, Awaited);
    var s2 := Next(s1, ClearLatch);
    var s3 := Next(s2, ClearReason);
    stopped := Next(s3, ClearFlag);
    StepKeepsInv(s, Awaited);
    StepKeepsInv(s1, ClearLatch);
    StepKeepsInv(s2, ClearReason);
    StepKeepsInv(s3, ClearFlag);
    TraceFollows(s, Awaited, [ClearLatch] + ([ClearReason] + ([ClearFlag] + [])), true);
    TraceFollows(s1, ClearLatch, [ClearReason] + ([ClearFlag] + []), true);
    TraceFollows(s2, ClearReason, [ClearFlag] + [], true);
    TraceFollows(s3, ClearFlag, [], true);
  }

  /** The shared status, whose atomics the calls below act on; each ghost step is one of the events. */
  class PitrStatus {
    const archiveConfigured: bool
    var archiving: bool
    var fullBackupState: Latch
    var fullBackupGapRecovery: bool
    ghost var world: State

    ghost predicate Valid()
      reads this
    {
      && Inv(world) && world.latch == fullBackupState
      && world.archiving == archiving && world.gapRecovery == fullBackupGapRecovery
    }

    /** Refused when not archiving, or when a full is already queued or running; otherwise queued. */
    method QueueFullBackup(gapRecovery: bool) returns (accepted: bool)
      requires Valid()
      modifies this
      ensures Valid() && archiving == old(archiving)
      ensures accepted <==> archiveConfigured && old(archiving) && old(fullBackupState) == Idle
      ensures fullBackupState == if accepted then Queued else old(fullBackupState)
      ensures accepted ==>
        world.queued.Some? && world.accepted == old(world.accepted) + {world.queued.value}
        && world.queued.value !in old(world.accepted)
      ensures !accepted ==> world.accepted == old(world.accepted)
      ensures world.consumed == old(world.consumed) && world.discarded == old(world.discarded)
      ensures fullBackupGapRecovery == (old(fullBackupGapRecovery) || (gapRecovery && archiveConfigured && archiving))
    {
      if !archiveConfigured || !archiving {
        return false;
      }
      ghost var caller := world.calls;
      StepKeepsInv(world, Check(gapRecovery));
      world := Next(world, Check(gapRecovery));
      if gapRecovery {
        fullBackupGapRecovery := true;
        StepKeepsInv(world, Arm(caller));
        world := Next(world, Arm(caller));
      }
      accepted := fullBackupState == Idle;
      if accepted {
        fullBackupState := Queued;
      }
      StepKeepsInv(world, Exchange(caller));
      world := Next(world, Exchange(caller));
    }

    /** Takes the queued request, if there is one; `gapRecovery` tells whose it was. */
    method BeginRequestedFullBackup(ghost task: nat) returns (began: bool, gapRecovery: bool)
      requires Valid() && IsWaiting(world, task)
      modifies this
      ensures Valid() && archiving == old(archiving)
      ensures began <==> old(fullBackupState) == Queued
      ensures began ==>
        fullBackupState == Running && gapRecovery == old(fullBackupGapRecovery) && !fullBackupGapRecovery
      ensures began ==>
        world.consumed.Keys == old(world.consumed.Keys) + {old(world.queued.value)} && world.queued == None
      ensures !began ==> fullBackupState == old(fullBackupState) && world == old(world)
    {
      began, gapRecovery := false, false;
      if fullBackupState == Queued {
        fullBackupState := Running;
        began, gapRecovery, fullBackupGapRecovery := true, fullBackupGapRecovery, false;
        StepKeepsInv(world, BeginRequested(task));
        world := Next(world, BeginRequested(task));
      }
    }

    method BeginScheduledFullBackup(ghost task: nat) returns (began: bool)
      requires Valid() && IsWaiting(world, task)
      modifies this
      ensures Valid() && archiving == old(archiving) && fullBackupGapRecovery == old(fullBackupGapRecovery)
      ensures began <==> old(fullBackupState) == Idle
      ensures fullBackupState == if began then Running else old(fullBackupState)
      ensures world.accepted == old(world.accepted) && world.consumed == old(world.consumed)
    {
      began := fullBackupState == Idle;
      if began {
        fullBackupState := Running;
        StepKeepsInv(world, BeginScheduled(task));
        world := Next(world, BeginScheduled(task));
      }
    }

    /** The run object is dropped: the latch is released, and no request is touched by it. */
    method DropFullBackupRun(ghost task: nat)
      requires Valid() && IsDumping(world, task)
      modifies this
      ensures Valid() && fullBackupState == Idle && archiving == old(archiving)
      ensures world.accepted == old(world.accepted) && world.consumed == old(world.consumed)
        && world.discarded == old(world.discarded)
    {
      fullBackupState := Idle;
      StepKeepsInv(world, RunEnds(task));
      world := Next(world, RunEnds(task));
    }

    /** Only once the aborted task is gone: discards a queued request and its reason. */
    method StopArchiving()
      requires Valid() && world.supervisor.Aborting? && world.supervisor.task !in world.tasks
      modifies this
      ensures Valid() && fullBackupState == Idle && !fullBackupGapRecovery && !archiving
      ensures world.consumed == old(world.consumed) && world.accepted == old(world.accepted)
      ensures world.discarded == old(world.discarded)
        + (if old(world.queued).Some? then {old(world.queued).value} else {})
    {
      fullBackupState := Idle;
      fullBackupGapRecovery := false;
      archiving := false;
      world := StopsInOrder(world);
    }
  }
}
