/** Majority loss: when a lone survivor may re-form its group, and the watcher that acts on it. */
module Survivor {
  import opened Common
  import opened Peers

  datatype MajorityVerdict = Healthy | Hold | Force

  function Reachable(members: seq<MemberRow>): (n: nat)
    ensures n <= |members|
  {
    if members == [] then 0
    else (if members[0].state != Unreachable then 1 else 0) + Reachable(members[1..])
  }

  function AnswerOf(answers: seq<(Host, PeerAnswer)>, host: Host): (r: Option<PeerAnswer>)
    ensures r.Some? ==> (host, r.value) in answers
    ensures r.None? ==> forall a | a in answers :: a.0 != host
  {
    match Find(answers, (a: (Host, PeerAnswer)) => a.0 == host)
    case Some(a) => Some(a.1)
    case None => None
  }

  /** An unreachable member of this view proves it has departed: it answers, outside any
      group (or in the middle of an attempt to rejoin), under this group's own name. */
  predicate ProvesDeparture(groupName: string, answer: Option<PeerAnswer>) {
    match answer
    case Some(Answered(state)) =>
      if state.groupActive then
        && state.memberState == Some(Recovering)
        && state.membersTotal <= 1
        && state.groupName == Some(groupName)
      else state.groupName == Some(groupName)
    case _ => false
  }

  function MajorityLossVerdict(groupName: Option<string>, members: seq<MemberRow>,
      answers: seq<(Host, PeerAnswer)>): MajorityVerdict
  {
    if |members| < 2 then Healthy
    else if Reachable(members) * 2 > |members| then Healthy
    else if Reachable(members) != 1 then Hold
    else if groupName.None? then Hold
    else if exists m | m in members ::
      m.state == Unreachable && !ProvesDeparture(groupName.value, AnswerOf(answers, m.host))
    then Hold
    else Force
  }

  /** The last gate before re-forming: every answer carries a set this node contains. */
  predicate HoldsEverythingAnswered(mine: GtidSet, answers: seq<(Host, PeerAnswer)>) {
    forall a | a in answers ::
      a.1.Answered? && a.1.state.gtidExecuted.Some? && a.1.state.gtidExecuted.value <= mine
  }

  lemma ReachableCountsAtLeast(members: seq<MemberRow>, i: nat)
    requires i < |members| && members[i].state != Unreachable
    ensures Reachable(members) >= 1
    ensures forall j | 0 <= j < |members| && j != i && members[j].state != Unreachable :: Reachable(members) >= 2
  {
    forall j | 0 <= j < |members| && j != i && members[j].state != Unreachable
      ensures Reachable(members) >= 2
    {
      ReachablePair(members, if i < j then i else j, if i < j then j else i);
    }
    if i > 0 { ReachableCountsAtLeast(members[1..], i - 1); }
  }

  lemma ReachablePair(members: seq<MemberRow>, i: nat, j: nat)
    requires i < j < |members| && members[i].state != Unreachable && members[j].state != Unreachable
    ensures Reachable(members) >= 2
  {
    if i > 0 { ReachablePair(members[1..], i - 1, j - 1); }
    else { ReachableOne(members[1..], j - 1); }
  }

  lemma ReachableOne(members: seq<MemberRow>, i: nat)
    requires i < |members| && members[i].state != Unreachable
    ensures Reachable(members) >= 1
  {
    if i > 0 { ReachableOne(members[1..], i - 1); }
  }

  /** What Force proves: every other member of the view answered, and none of them is ONLINE
      anywhere, provided each answers truthfully (an ONLINE member reports a live group). */
  lemma ForceMeansEveryoneElseDeparted(name: Option<string>, members: seq<MemberRow>,
      answers: seq<(Host, PeerAnswer)>, me: nat, other: nat)
    requires MajorityLossVerdict(name, members, answers) == Force
    requires me < |members| && members[me].state == Online
    requires other < |members| && other != me
    ensures members[other].state == Unreachable
    ensures name.Some? && ProvesDeparture(name.value, AnswerOf(answers, members[other].host))
  {
    ReachableCountsAtLeast(members, me);
    assert members[other] in members;
  }

  lemma {:induction false} NobodyElseReachable(members: seq<MemberRow>, me: nat)
    requires me < |members|
    requires forall k | 0 <= k < |members| && k != me :: members[k].state == Unreachable
    ensures Reachable(members) <= 1
  {
    if me > 0 {
      NobodyElseReachable(members[1..], me - 1);
    } else {
      NobodyReachable(members[1..]);
    }
  }

  lemma {:induction false} NobodyReachable(members: seq<MemberRow>)
    requires forall k | 0 <= k < |members| :: members[k].state == Unreachable
    ensures Reachable(members) == 0
  {
    if members != [] {
      NobodyReachable(members[1..]);
    }
  }

  /** An ONLINE member of a view of two or more is told to re-form exactly when it can name its group
      and every other member is unreachable and proves its departure. */
  lemma ForceExactly(name: Option<string>, members: seq<MemberRow>, answers: seq<(Host, PeerAnswer)>,
      me: nat)
    requires me < |members| && |members| >= 2 && members[me].state == Online
    ensures MajorityLossVerdict(name, members, answers) == Force <==>
      && name.Some?
      && forall k | 0 <= k < |members| && k != me ::
           members[k].state == Unreachable && ProvesDeparture(name.value, AnswerOf(answers, members[k].host))
  {
    if MajorityLossVerdict(name, members, answers) == Force {
      forall k | 0 <= k < |members| && k != me
        ensures members[k].state == Unreachable && ProvesDeparture(name.value, AnswerOf(answers, members[k].host))
      {
        ForceMeansEveryoneElseDeparted(name, members, answers, me, k);
      }
    } else if forall k | 0 <= k < |members| && k != me :: members[k].state == Unreachable {
      NobodyElseReachable(members, me);
      ReachableOne(members, me);
    }
  }

  /** By the fields: it answered under this group's name, in no group, or alone in its view and recovering. */
  predicate LeftForItself(name: string, state: GrState) {
    && state.groupName == Some(name)
    && (state.groupActive ==> state.memberState == Some(Recovering) && state.membersTotal <= 1)
  }

  /** The same by the fields of the answers: so a peer that rejoins an operating group of two or more, that is ONLINE
      anywhere, or that answers under another name, rules Force out. */
  lemma ForceByTheFields(name: Option<string>, members: seq<MemberRow>, answers: seq<(Host, PeerAnswer)>, me: nat)
    requires me < |members| && |members| >= 2 && members[me].state == Online
    ensures MajorityLossVerdict(name, members, answers) == Force <==>
      && name.Some?
      && forall k | 0 <= k < |members| && k != me ::
           && members[k].state == Unreachable
           && exists state ::
                AnswerOf(answers, members[k].host) == Some(Answered(state)) && LeftForItself(name.value, state)
  {
    ForceExactly(name, members, answers, me);
    if name.Some? {
      forall k | 0 <= k < |members|
        ensures ProvesDeparture(name.value, AnswerOf(answers, members[k].host)) <==>
          exists state ::
            AnswerOf(answers, members[k].host) == Some(Answered(state)) && LeftForItself(name.value, state)
      {
        DepartureByTheFields(name.value, AnswerOf(answers, members[k].host));
      }
    }
  }

  lemma DepartureByTheFields(name: string, answer: Option<PeerAnswer>)
    ensures ProvesDeparture(name, answer) <==>
      exists state :: answer == Some(Answered(state)) && LeftForItself(name, state)
  {}

  /** A peer in an operating group of two or more, or under another name, keeps the survivor waiting. */
  lemma OperatingPeerRulesForceOut(name: Option<string>, members: seq<MemberRow>, answers: seq<(Host, PeerAnswer)>,
      me: nat, other: nat, state: GrState)
    requires me < |members| && other < |members| && me != other && members[me].state == Online
    requires AnswerOf(answers, members[other].host) == Some(Answered(state))
    requires (state.groupActive && state.membersTotal >= 2) || state.groupName != name || name.None?
    ensures MajorityLossVerdict(name, members, answers) != Force
  {
    ForceByTheFields(name, members, answers, me);
  }

  /** Two members of one view that are both ONLINE in their own views never both re-form the
      group: if either one's verdict is Force, the other is not ONLINE. */
  lemma ReformationIsExclusive(name: Option<string>, members: seq<MemberRow>, answers: seq<(Host, PeerAnswer)>,
      me: nat, other: nat, state: GrState, otherView: seq<MemberRow>)
    requires me < |members| && other < |members| && me != other && members[me].state == Online
    requires Truthful(state, otherView)
    requires members[other].state == Unreachable ==>
      AnswerOf(answers, members[other].host) in {None, Some(NoAnswer), Some(NotReady), Some(Answered(state))}
    requires MajorityLossVerdict(name, members, answers) == Force
    ensures state.memberState != Some(Online)
  {
    ForceMeansEveryoneElseDeparted(name, members, answers, me, other);
  }

  // ----- the watcher -----

  const FORCE_DWELL_ROUNDS: nat := 15
  const FORCE_MAX_ATTEMPTS: nat := 3

  /** What one poll of the watcher saw. `Blind` covers a query that failed and a round in
      which this node is not ONLINE; `actionable` is the last gate (every departed member
      answered with a set this node contains, and this node's own set could be read). */
  datatype Observation = Blind | Seen(verdict: MajorityVerdict, actionable: bool, stopOk: bool)

  datatype WatchAction = Watch | Reform

  datatype WatchState = WatchState(consecutiveForce: nat, attempts: nat)

  function WatchStep(w: WatchState, o: Observation): (WatchState, WatchAction) {
    match o
    case Blind => (w.(consecutiveForce := 0), Watch)
    case Seen(Healthy, _, _) => (w.(consecutiveForce := 0), Watch)
    case Seen(Hold, _, _) => (w.(consecutiveForce := 0), Watch)
    case Seen(Force, actionable, stopOk) =>
      var n := w.consecutiveForce + 1;
      if n < FORCE_DWELL_ROUNDS then (w.(consecutiveForce := n), Watch)
      else if !actionable then (w.(consecutiveForce := 0), Watch)
      else if w.attempts >= FORCE_MAX_ATTEMPTS then (w.(consecutiveForce := n), Watch)
      else (WatchState(0, w.attempts + 1), if stopOk then Reform else Watch)
  }

  /** The watcher's counters, updated in place once per poll. */
  class MajorityWatch {
    var consecutiveForce: nat
    var attempts: nat

    ghost function State(): WatchState
      reads this
    {
      WatchState(consecutiveForce, attempts)
    }

    constructor ()
      ensures State() == WatchState(0, 0)
    {
      consecutiveForce, attempts := 0, 0;
    }

    /** One poll. STOP + bootstrap is the single `Reform` action. */
    method Poll(o: Observation) returns (action: WatchAction)
      modifies this
      ensures (State(), action) == WatchStep(old(State()), o)
    {
      action := Watch;
      if o.Blind? || o.verdict != Force {
        consecutiveForce := 0;
        return;
      }
      consecutiveForce := consecutiveForce + 1;
      if consecutiveForce < FORCE_DWELL_ROUNDS {
        return;
      }
      if !o.actionable {
        consecutiveForce := 0;
        return;
      }
      if attempts >= FORCE_MAX_ATTEMPTS {
        return;
      }
      attempts := attempts + 1;
      if o.stopOk {
        action := Reform;
      }
      consecutiveForce := 0;
    }
  }

  function WatchAfter(trace: seq<Observation>): WatchState {
    if trace == [] then WatchState(0, 0)
    else WatchStep(WatchAfter(trace[..|trace| - 1]), trace[|trace| - 1]).0
  }

  /** What the watcher does at the last observation of a trace. */
  function LastAction(trace: seq<Observation>): WatchAction
    requires trace != []
  {
    WatchStep(WatchAfter(trace[..|trace| - 1]), trace[|trace| - 1]).1
  }

  function Reforms(trace: seq<Observation>): nat {
    if trace == [] then 0
    else Reforms(trace[..|trace| - 1]) + (if LastAction(trace) == Reform then 1 else 0)
  }

  predicate IsForce(o: Observation) {
    o.Seen? && o.verdict == Force
  }

  lemma {:induction false} StreakIsUnbroken(trace: seq<Observation>)
    ensures WatchAfter(trace).consecutiveForce <= |trace|
    ensures forall k | |trace| - WatchAfter(trace).consecutiveForce <= k < |trace| :: IsForce(trace[k])
  {
    if trace != [] {
      StreakIsUnbroken(trace[..|trace| - 1]);
    }
  }

  lemma {:induction false} AttemptsAreCapped(trace: seq<Observation>)
    ensures Reforms(trace) <= WatchAfter(trace).attempts <= 3
  {
    if trace != [] {
      AttemptsAreCapped(trace[..|trace| - 1]);
    }
  }

  /** Over every trace: a group is re-formed only at the end of at least fifteen consecutive
      Force rounds whose last one passed the data gate, and never more than three times. */
  lemma {:induction false} ReformationNeedsAnUnbrokenProof(trace: seq<Observation>)
    requires trace != [] && LastAction(trace) == Reform
    ensures |trace| >= 15
    ensures forall k | |trace| - 15 <= k < |trace| :: IsForce(trace[k])
    ensures trace[|trace| - 1].actionable
    ensures Reforms(trace) <= 3
  {
    var before, last := trace[..|trace| - 1], trace[|trace| - 1];
    StreakIsUnbroken(before);
    assert IsForce(last) && WatchAfter(before).consecutiveForce + 1 >= 15;
    forall k | |trace| - 15 <= k < |trace|
      ensures IsForce(trace[k])
    {
      assert k < |before| ==> trace[k] == before[k];
    }
    AttemptsAreCapped(trace);
  }

  lemma {:induction false} RoundsAddUp(before: seq<Observation>, rounds: seq<Observation>)
    requires WatchAfter(before).consecutiveForce == 0
    requires |rounds| < 15 && forall k | 0 <= k < |rounds| :: IsForce(rounds[k])
    ensures WatchAfter(before + rounds) == WatchState(|rounds|, WatchAfter(before).attempts)
  {
    if rounds == [] {
      assert before + rounds == before;
    } else {
      var front := rounds[..|rounds| - 1];
      assert (before + rounds)[..|before + rounds| - 1] == before + front;
      RoundsAddUp(before, front);
    }
  }

  /** And the fifteenth is enough: fifteen Force rounds from a clear count, the last passing the data gate, re-form
      the group while fewer than three attempts were made. */
  lemma FifteenthRoundReforms(before: seq<Observation>, rounds: seq<Observation>)
    requires WatchAfter(before).consecutiveForce == 0 && WatchAfter(before).attempts < 3
    requires |rounds| == 15 && forall k | 0 <= k < |rounds| :: IsForce(rounds[k])
    requires rounds[14] == Seen(Force, true, true)
    ensures LastAction(before + rounds) == Reform
    ensures WatchAfter(before + rounds) == WatchState(0, WatchAfter(before).attempts + 1)
  {
    RoundsAddUp(before, rounds[..14]);
    assert (before + rounds)[..|before + rounds| - 1] == before + rounds[..14];
    assert (before + rounds)[|before + rounds| - 1] == rounds[14];
  }
}
