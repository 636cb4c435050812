/** Re-anchoring the archive past a lost binlog: the persisted flag, the shipping pass that sets it,
    and the full backup that clears it, interleaved with crashes. */
module GapAnchor {
  import opened Common

  /** A full backup being dumped: whether it read the flag as set, the losses recorded since, and
      its coordinate once the snapshot is open. */
  datatype Dump = Dump(anchors: bool, during: set<nat>, coordinate: Option<nat>)

  /** Binlogs are numbered; `active` is the one being written. `pass` is a running shipping pass's
      own copy of the flag, which its next state write publishes. */
  datatype State = State(
    active: nat, lost: set<nat>, pending: bool, pass: Option<bool>,
    dump: Option<Dump>, landed: set<nat>)

  datatype Event =
    | Rotate
    | BeginPass | EndPass
    | RecordLoss(file: nat)
    | RecordUpload
    | BeginDump | OpenSnapshot | DumpFails | DumpLands
    | Crash

  predicate Enabled(s: State, e: Event) {
    match e
    case Rotate => true
    case BeginPass => s.pass.None?
    case EndPass => s.pass.Some?
    case RecordLoss(n) => s.pass.Some? && n < s.active && n !in s.lost
    case RecordUpload => s.pass.Some?
    case BeginDump => s.dump.None?
    case OpenSnapshot => s.dump.Some? && s.dump.value.coordinate.None?
    case DumpFails => s.dump.Some?
    case DumpLands => s.dump.Some? && s.dump.value.coordinate.Some?
    case Crash => true
  }

  function Next(s: State, e: Event): State
    requires Enabled(s, e)
  {
    match e
    case Rotate => s.(active := s.active + 1)
    case BeginPass => s.(pass := Some(s.pending))
    case EndPass => s.(pass := None)
    case RecordLoss(n) =>
      s.(lost := s.lost + {n}, pending := true, pass := Some(true),
         dump := if s.dump.Some? then Some(s.dump.value.(during := s.dump.value.during + {n})) else None)
    case RecordUpload => s.(pending := s.pass.value)
    case BeginDump => s.(dump := Some(Dump(s.pending, {}, None)))
    case OpenSnapshot => s.(dump := Some(s.dump.value.(coordinate := Some(s.active))))
    case DumpFails => s.(dump := None)
    case DumpLands =>
      s.(dump := None, landed := s.landed + {s.dump.value.coordinate.value},
         pending := if s.dump.value.anchors then false else s.pending)
    case Crash => s.(pass := None, dump := None)
  }

  /** Every recorded hole lies below the coordinate of some full, so a replay from the newest full
      never meets it. */
  ghost predicate Covered(s: State) {
    forall n | n in s.lost :: Below(n, s.landed)
  }

  ghost predicate Below(n: nat, coordinates: set<nat>) {
    exists c :: c in coordinates && n < c
  }

  /** Every loss recorded while this dump ran lies below a coordinate the dump's landing leaves. */
  ghost predicate LateLossesBelow(s: State)
    requires s.dump.Some? && s.dump.value.coordinate.Some?
  {
    forall n | n in s.dump.value.during :: Below(n, s.landed + {s.dump.value.coordinate.value})
  }

  ghost predicate Inv(s: State) {
    && (forall n | n in s.lost :: n < s.active)
    && (!s.pending ==> Covered(s))
    && (s.pass == Some(false) ==> Covered(s))
    && (s.dump.Some? ==> DumpInv(s, s.dump.value))
  }

  /** A dump that read the flag as clear clears nothing; one that read it as set has a coordinate past
      every loss recorded before it began. */
  ghost predicate DumpInv(s: State, d: Dump) {
    && d.during <= s.lost
    && (forall c | c == d.coordinate && c.Some? :: c.value <= s.active
          && forall n | n in s.lost && n !in d.during :: n < c.value)
  }

  /** The one step that can break the promise is the landing of an anchoring dump with a late loss at
      or past its coordinate. */
  predicate Clears(s: State, e: Event) {
    e.DumpLands? && s.dump.Some? && s.dump.value.anchors
  }

  lemma CoveredStays(s: State, t: State)
    requires Covered(s) && t.lost == s.lost && s.landed <= t.landed
    ensures Covered(t)
  {
    forall n | n in t.lost
      ensures Below(n, t.landed)
    {
      assert Below(n, s.landed);
      var c :| c in s.landed && n < c;
      assert c in t.landed;
    }
  }

  lemma QuietStepKeepsInv(s: State, e: Event)
    requires Inv(s) && Enabled(s, e) && !Clears(s, e)
    ensures Inv(Next(s, e))
  {
    var t := Next(s, e);
    if Covered(s) && t.lost == s.lost {
      CoveredStays(s, t);
    }
  }

  /** Landing an anchoring dump keeps the promise exactly when every loss recorded while it ran lies
      below a landed coordinate: the flag is one boolean, and it is cleared for those too. */
  lemma LandingKeepsThePromiseExactly(s: State)
    requires Inv(s) && Enabled(s, DumpLands) && Clears(s, DumpLands)
    ensures !Next(s, DumpLands).pending
    ensures Covered(Next(s, DumpLands)) <==> LateLossesBelow(s)
  {
    var t, d := Next(s, DumpLands), s.dump.value;
    forall n | n in s.lost && n !in d.during
      ensures Below(n, t.landed)
    {
      assert d.coordinate.value in t.landed && n < d.coordinate.value;
    }
  }

  lemma StepKeepsInv(s: State, e: Event)
    requires Inv(s) && Enabled(s, e)
    requires Clears(s, e) ==> LateLossesBelow(s)
    ensures Inv(Next(s, e))
  {
    if Clears(s, e) {
      LandingKeepsThePromiseExactly(s);
    } else {
      QuietStepKeepsInv(s, e);
    }
  }

  ghost predicate IsRun(states: seq<State>, events: seq<Event>) {
    && |states| == |events| + 1
    && states[0].lost == {} && !states[0].pending && states[0].pass.None? && states[0].dump.None?
    && forall i | 0 <= i < |events| :: StepsTo(states, events, i)
  }

  predicate StepsTo(states: seq<State>, events: seq<Event>, i: nat)
    requires i < |events| && |states| == |events| + 1
  {
    Enabled(states[i], events[i]) && states[i + 1] == Next(states[i], events[i])
  }

  /** No anchoring dump lands with a late loss at or past every landed coordinate. */
  ghost predicate NoLateLoss(states: seq<State>, events: seq<Event>)
    requires |states| == |events| + 1
  {
    forall i | 0 <= i < |events| && Clears(states[i], events[i]) && states[i].dump.value.coordinate.Some? ::
      LateLossesBelow(states[i])
  }

  lemma {:induction false} RunsKeepInv(states: seq<State>, events: seq<Event>, i: nat)
    requires IsRun(states, events) && NoLateLoss(states, events) && i < |states|
    ensures Inv(states[i])
  {
    if i > 0 {
      RunsKeepInv(states, events, i - 1);
      assert StepsTo(states, events, i - 1);
      StepKeepsInv(states[i - 1], events[i - 1]);
    }
  }

  /** In every run, across crashes and failed dumps: whenever the flag is clear, every recorded lost
      file is below the coordinate of some landed full -- unless an anchoring dump landed over a
      loss recorded while it ran. */
  lemma ClearFlagMeansAnchored(states: seq<State>, events: seq<Event>)
    requires IsRun(states, events) && NoLateLoss(states, events)
    ensures forall i | 0 <= i < |states| && !states[i].pending :: Covered(states[i])
  {
    forall i | 0 <= i < |states| && !states[i].pending
      ensures Covered(states[i])
    {
      RunsKeepInv(states, events, i);
    }
  }

  function Trace(s: State, events: seq<Event>): (r: Option<State>)
    decreases |events|
  {
    if events == [] then Some(s)
    else if Enabled(s, events[0]) then Trace(Next(s, events[0]), events[1..])
    else None
  }

  lemma TraceFollows(s: State, e: Event, rest: seq<Event>)
    requires Enabled(s, e)
    ensures Trace(s, [e] + rest) == Trace(Next(s, e), rest)
  {
    assert ([e] + rest)[1..] == rest;
  }

  /** Binlog 5 is being written and nothing is lost. */
  const START: State := State(5, {}, false, None, None, {})

  /** Binlog 3 is lost, and the full that anchors it has its snapshot open at binlog 5. */
  const DUMPING: State := State(5, {3}, true, None, Some(Dump(true, {}, Some(5))), {})

  lemma FirstLoss(rest: seq<Event>)
    ensures Trace(START, [BeginPass] + ([RecordLoss(3)] + ([EndPass] + ([BeginDump] + ([OpenSnapshot] + rest)))))
      == Trace(DUMPING, rest)
  {
    TraceFollows(START, BeginPass, [RecordLoss(3)] + ([EndPass] + ([BeginDump] + ([OpenSnapshot] + rest))));
    assert {} + {3} == {3};
    TraceFollows(START.(pass := Some(false)), RecordLoss(3), [EndPass] + ([BeginDump] + ([OpenSnapshot] + rest)));
    TraceFollows(State(5, {3}, true, Some(true), None, {}), EndPass, [BeginDump] + ([OpenSnapshot] + rest));
    TraceFollows(State(5, {3}, true, None, None, {}), BeginDump, [OpenSnapshot] + rest);
    TraceFollows(State(5, {3}, true, None, Some(Dump(true, {}, None)), {}), OpenSnapshot, rest);
  }

  /** While it dumps, binlog 5 is closed and lost too, and the dump lands. */
  function SecondLoss(): seq<Event> {
    [Rotate] + ([BeginPass] + ([RecordLoss(5)] + ([EndPass] + ([DumpLands] + []))))
  }

  lemma SecondLossLands()
    ensures Trace(DUMPING, SecondLoss()) == Some(State(6, {3, 5}, false, None, None, {5}))
  {
    var rotated := DUMPING.(active := 6);
    TraceFollows(DUMPING, Rotate, [BeginPass] + ([RecordLoss(5)] + ([EndPass] + ([DumpLands] + []))));
    TraceFollows(rotated, BeginPass, [RecordLoss(5)] + ([EndPass] + ([DumpLands] + [])));
    TraceFollows(rotated.(pass := Some(true)), RecordLoss(5), [EndPass] + ([DumpLands] + []));
    assert {3} + {5} == {3, 5} && {} + {5} == {5};
    var lost := State(6, {3, 5}, true, Some(true), Some(Dump(true, {5}, Some(5))), {});
    TraceFollows(lost, EndPass, [DumpLands] + []);
    TraceFollows(lost.(pass := None), DumpLands, []);
  }

  /** One run from the start: a loss, its anchoring full, a second loss while that full dumps. The
      landing clears the flag, and nothing covers the second loss. */
  lemma SecondLossIsForgotten()
    ensures START.lost == {} && !START.pending && START.pass.None? && START.dump.None?
    ensures var events := [BeginPass]
      + ([RecordLoss(3)] + ([EndPass] + ([BeginDump] + ([OpenSnapshot] + SecondLoss()))));
      var end := Trace(START, events);
      end.Some? && !end.value.pending && 5 in end.value.lost && !Covered(end.value)
  {
    FirstLoss(SecondLoss());
    SecondLossLands();
    assert 5 in {3, 5} && !Below(5, {5});
  }
}
