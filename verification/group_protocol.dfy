/** The whole group over time: declared members that crash, restart, ask each other, bootstrap,
    join, write, leave and re-form, and what holds in every run in which no peer was waived and
    no volume was wiped. */
module GroupProtocol {
  import opened Common
  import opened Peers
  import opened Bootstrap
  import opened Survivor

  // ----- state -----

  datatype Txn = Txn(gtid: Gtid, setsPreGtidFlag: bool)

  /** A member's executed transactions, in the order the group committed them. */
  type Log = seq<Txn>

  /** Up and orchestrating (`Between`), or an attached member of one group incarnation. */
  datatype Mode = Down | Between | Joining(gid: nat) | InGroup(gid: nat)

  /** `decided` is a bootstrap verdict reached by an earlier query round and not acted on yet. */
  datatype Member = Member(log: Log, mode: Mode, decided: bool, fileMarker: bool, generation: nat)

  /** One incarnation of the group: its current view, the log it has ordered, the length of that
      log when the view last shrank (every remaining member had been delivered that much), and
      the elected primary. */
  datatype Group = Group(view: set<Host>, log: Log, delivered: nat, primary: Option<Host>)

  /** `history` is an auxiliary record of everything ever committed. */
  datatype State = State(name: string, members: seq<Member>, groups: seq<Group>, history: Log)

  function Gtids(log: Log): GtidSet {
    set t | t in log :: t.gtid
  }

  predicate FlagSet(log: Log) {
    exists t | t in log :: t.setsPreGtidFlag
  }

  predicate Distinct(log: Log) {
    forall j, k | 0 <= j < k < |log| :: log[j].gtid != log[k].gtid
  }

  function NodeOf(m: Member): Node {
    Node(Gtids(m.log), m.generation, m.fileMarker, FlagSet(m.log))
  }

  function ClusterOf(s: State): Cluster {
    seq(|s.members|, i requires 0 <= i < |s.members| => NodeOf(s.members[i]))
  }

  predicate Live(s: State, i: Host) {
    i < |s.members| && s.members[i].mode.InGroup?
  }

  predicate NobodyLive(s: State) {
    forall i: Host | i < |s.members| :: !Live(s, i)
  }

  // ----- answers -----

  /** Everything member `j` can be heard to say right now: nothing, or a truthful report. A
      joining member may or may not see an ONLINE donor at that instant. */
  predicate CanAnswer(s: State, j: Host, a: PeerAnswer)
    requires j < |s.members|
  {
    var m := s.members[j];
    match a
    case NoAnswer => true
    case NotReady => true
    case Answered(r) =>
      && m.mode != Down
      && (r.gtidExecuted == Some(Gtids(m.log)) || r.gtidExecuted == None)
      && r.waiverGeneration == m.generation
      && (m.fileMarker ==> r.preGtidData)
      && (r.preGtidData ==> m.fileMarker || FlagSet(m.log))
      && match m.mode {
        case InGroup(_) => r.groupActive && r.memberState == Some(Online)
        case Joining(_) => r.memberState == Some(Recovering)
        case _ => !r.groupActive && r.memberState != Some(Online)
      }
  }

  predicate Asked(answers: Answers, j: Host) {
    exists a | a in answers :: a.0 == j
  }

  /** A query round of `i`: every declared peer is in it, heard or not. */
  predicate RoundOf(s: State, i: Host, answers: Answers) {
    && (forall a | a in answers :: a.0 < |s.members| && a.0 != i && CanAnswer(s, a.0, a.1))
    && (forall j: Host | j < |s.members| && j != i :: Asked(answers, j))
  }

  /** The view member `r` sees: itself ONLINE, each other member as it is or as unreachable;
      a member that crashed or left the plugin is unreachable. */
  predicate ViewOf(s: State, gid: nat, r: Host, rows: seq<MemberRow>)
    requires gid < |s.groups|
  {
    && (forall k | 0 <= k < |rows| :: rows[k].host in s.groups[gid].view && rows[k].host < |s.members|)
    && (forall j, k | 0 <= j < k < |rows| :: rows[j].host != rows[k].host)
    && (forall h | h in s.groups[gid].view :: exists k :: 0 <= k < |rows| && rows[k].host == h)
    && (forall k | 0 <= k < |rows| && rows[k].host == r :: rows[k].state == Online)
    && (forall k | 0 <= k < |rows| && rows[k].host != r ::
          || rows[k].state == Unreachable
          || (rows[k].state == Online && s.members[rows[k].host].mode == InGroup(gid))
          || (rows[k].state == Recovering && s.members[rows[k].host].mode == Joining(gid)))
  }

  /** The unreachable members' wrappers were asked who they are now. */
  predicate DepartureAnswers(s: State, rows: seq<MemberRow>, answers: Answers) {
    && (forall a | a in answers :: a.0 < |s.members| && CanAnswer(s, a.0, a.1))
    && (forall row | row in rows && row.state == Unreachable :: Asked(answers, row.host))
  }

  // ----- steps -----

  datatype Step =
    | Ask(i: Host, answers: Answers)
    | BootstrapGroup(i: Host)
    | StartJoin(i: Host, gid: nat)
    | FinishJoin(i: Host)
    | Elect(i: Host)
    | Write(i: Host, t: Txn)
    | ApplyNext(i: Host)
    | Reclone(i: Host, gid: nat)
    | Crash(i: Host)
    | Boot(i: Host)
    | Leave(i: Host)
    | Expel(i: Host, gid: nat)
    | ReformGroup(i: Host, rows: seq<MemberRow>, answers: Answers)

  function WithMember(s: State, i: Host, m: Member): State
    requires i < |s.members|
  {
    s.(members := s.members[i := m])
  }

  function WithGroup(s: State, gid: nat, g: Group): State
    requires gid < |s.groups|
  {
    s.(groups := s.groups[gid := g])
  }

  /** A fresh incarnation holding this member alone, continuing from its own log. */
  function Form(s: State, i: Host): State
    requires i < |s.members|
  {
    var m := s.members[i];
    s.(members := s.members[i := m.(mode := InGroup(|s.groups|), decided := false)],
       groups := s.groups + [Group({i}, m.log, |m.log|, None)])
  }

  /** The view loses `i` (it left or crashed; `Expel` is when the others learn it); the remaining members have
      been delivered the whole log. */
  function Shrink(g: Group, i: Host): Group {
    g.(view := g.view - {i}, delivered := |g.log|, primary := if g.primary == Some(i) then None else g.primary)
  }

  /** A group some member of which is live. */
  predicate Operating(s: State, gid: nat) {
    gid < |s.groups| && exists h: Host :: h < |s.members| && s.members[h].mode == InGroup(gid)
  }

  predicate Enabled(s: State, step: Step)
    requires step.i < |s.members|
  {
    var m := s.members[step.i];
    match step
    case Ask(i, answers) => m.mode == Between && RoundOf(s, i, answers)
    case BootstrapGroup(i) => m.mode == Between && m.decided
    case StartJoin(i, gid) =>
      m.mode == Between && Operating(s, gid) && Gtids(m.log) <= Gtids(s.groups[gid].log)
    case FinishJoin(i) =>
      && m.mode.Joining? && Operating(s, m.mode.gid)
      && i in s.groups[m.mode.gid].view && m.log == s.groups[m.mode.gid].log
    case Elect(i) => Live(s, i) && m.mode.gid < |s.groups| && m.log == s.groups[m.mode.gid].log
    case Write(i, t) =>
      && Live(s, i) && m.mode.gid < |s.groups| && s.groups[m.mode.gid].primary == Some(i)
      && m.log == s.groups[m.mode.gid].log && t.gtid !in Gtids(m.log)
    case ApplyNext(i) =>
      && (m.mode.Joining? || m.mode.InGroup?) && Operating(s, m.mode.gid)
      && i in s.groups[m.mode.gid].view
      && |m.log| < |s.groups[m.mode.gid].log| && m.log <= s.groups[m.mode.gid].log
    case Reclone(i, gid) =>
      && m.mode == Between && gid < |s.groups| && s.groups[gid].primary.Some?
      && s.groups[gid].primary.value < |s.members|
      && s.members[s.groups[gid].primary.value].mode == InGroup(gid)
      && !(Gtids(m.log) <= Gtids(s.members[s.groups[gid].primary.value].log))
    case Crash(i) => true
    case Boot(i) => m.mode == Down
    case Leave(i) => m.mode.InGroup? || m.mode.Joining?
    case Expel(i, gid) => Operating(s, gid) && m.mode != InGroup(gid)
    case ReformGroup(i, rows, answers) =>
      && Live(s, i) && m.mode.gid < |s.groups|
      && ViewOf(s, m.mode.gid, i, rows) && DepartureAnswers(s, rows, answers)
      && MajorityLossVerdict(Some(s.name), rows, answers) == Force
      && HoldsEverythingAnswered(Gtids(m.log), answers)
      && |m.log| >= s.groups[m.mode.gid].delivered
  }

  function Apply(s: State, step: Step): State
    requires step.i < |s.members| && Enabled(s, step)
  {
    var m := s.members[step.i];
    match step
    case Ask(i, answers) =>
      WithMember(s, i, m.(decided := ClassifyRound(SelfOf(ClusterOf(s), i), answers) == SafeToBootstrap))
    case BootstrapGroup(i) => Form(s, i)
    case StartJoin(i, gid) =>
      var g := s.groups[gid];
      WithGroup(WithMember(s, i, m.(mode := Joining(gid), decided := false)), gid, g.(view := g.view + {i}))
    case FinishJoin(i) => WithMember(s, i, m.(mode := InGroup(m.mode.gid)))
    case Elect(i) => WithGroup(s, m.mode.gid, s.groups[m.mode.gid].(primary := Some(i)))
    case Write(i, t) =>
      var g := s.groups[m.mode.gid];
      WithGroup(WithMember(s, i, m.(log := m.log + [t])), m.mode.gid, g.(log := g.log + [t]))
        .(history := g.log + [t])
    case ApplyNext(i) =>
      WithMember(s, i, m.(log := s.groups[m.mode.gid].log[..|m.log| + 1]))
    case Reclone(i, gid) =>
      WithMember(s, i, m.(log := s.members[s.groups[gid].primary.value].log, mode := Down, decided := false))
    case Crash(i) => WithMember(s, i, m.(mode := Down, decided := false))
    case Boot(i) => WithMember(s, i, m.(mode := Between, decided := false))
    case Leave(i) => WithMember(s, i, m.(mode := Between))
    case Expel(i, gid) => WithGroup(s, gid, Shrink(s.groups[gid], i))
    case ReformGroup(i, _, _) => Form(s, i)
  }

  // ----- runs -----

  /** Any restart of a whole cluster: nobody is in a group, every volume holds a prefix of one
      history, and some volume holds all of it. A first deploy is the case of an empty history. */
  ghost predicate Initial(s: State) {
    && s.groups == []
    && Distinct(s.history)
    && (forall i | 0 <= i < |s.members| ::
          && (s.members[i].mode == Down || s.members[i].mode == Between) && !s.members[i].decided
          && s.members[i].log <= s.history)
    && SomeVolumeHoldsTheHistory(s)
  }

  ghost predicate RunOf(run: seq<State>, steps: seq<Step>) {
    && |run| == |steps| + 1
    && Initial(run[0])
    && forall k | 0 <= k < |steps| ::
        steps[k].i < |run[k].members| && Enabled(run[k], steps[k]) && run[k + 1] == Apply(run[k], steps[k])
  }

  // ----- the invariant -----

  ghost predicate SomeVolumeHoldsTheHistory(s: State) {
    exists h :: 0 <= h < |s.members| && s.members[h].log == s.history
  }

  ghost predicate LogsArePrefixes(s: State) {
    && Distinct(s.history)
    && (forall i | 0 <= i < |s.members| :: s.members[i].log <= s.history)
    && SomeVolumeHoldsTheHistory(s)
  }

  /** A member of the view has executed the whole history. */
  ghost predicate SomeoneHolds(s: State, gid: nat)
    requires gid < |s.groups|
  {
    exists h: Host :: h < |s.members| && h in s.groups[gid].view && s.members[h].log == s.history
  }

  /** Every live member belongs to one incarnation, whose log is the history; and whatever was
      ordered after the view last shrank is held by a member still in the view. */
  ghost predicate OneGroup(s: State) {
    && (forall i: Host | Live(s, i) ::
          var gid := s.members[i].mode.gid;
          && gid < |s.groups| && i in s.groups[gid].view && s.groups[gid].log == s.history
          && s.groups[gid].delivered <= |s.history|
          && (|s.history| == s.groups[gid].delivered || SomeoneHolds(s, gid)))
    && (forall i: Host, j: Host | Live(s, i) && Live(s, j) :: s.members[i].mode == s.members[j].mode)
  }

  /** The elected primary of the operating group has executed all of it. */
  ghost predicate PrimariesAreCurrent(s: State) {
    forall gid | 0 <= gid < |s.groups| && s.groups[gid].primary.Some? ::
      var p := s.groups[gid].primary.value;
      p < |s.members| && s.members[p].mode == InGroup(gid) ==> s.members[p].log == s.groups[gid].log
  }

  ghost predicate Conceded(s: State, i: Host, j: Host)
    requires i < |s.members| && j < |s.members|
  {
    exists a :: Represents(ClusterOf(s)[j], a) && Concedes(SelfOf(ClusterOf(s), i), (j, a))
  }

  /** An outstanding decision: nobody is live, this node holds the whole history, and every
      declared peer conceded with the dataset it still has. */
  ghost predicate DecisionsStand(s: State) {
    forall i: Host | i < |s.members| && s.members[i].decided ::
      && s.members[i].mode == Between
      && NobodyLive(s)
      && s.members[i].log == s.history
      && forall j: Host | j < |s.members| && j != i :: Conceded(s, i, j)
  }

  ghost predicate Inv(s: State) {
    LogsArePrefixes(s) && OneGroup(s) && PrimariesAreCurrent(s) && DecisionsStand(s)
  }

  // ----- facts about logs -----

  lemma PrefixSets(a: Log, b: Log, history: Log)
    requires Distinct(history) && a <= history && b <= history
    ensures Gtids(b) <= Gtids(a) <==> b <= a
    ensures Gtids(a) == Gtids(b) ==> a == b
  {
    PrefixSetsOneWay(a, b, history);
    PrefixSetsOneWay(b, a, history);
  }

  lemma PrefixSetsOneWay(a: Log, b: Log, history: Log)
    requires Distinct(history) && a <= history && b <= history
    ensures Gtids(b) <= Gtids(a) <==> b <= a
    ensures b <= a <==> |b| <= |a|
  {
    if |b| <= |a| {
      assert b == a[..|b|];
      forall t | t in b ensures t in a {}
    } else {
      var t := history[|a|];
      assert t == b[|a|] && t in b;
      forall u | u in a
        ensures u.gtid != t.gtid
      {
        var k :| 0 <= k < |a| && a[k] == u;
        assert history[k] == u;
      }
      assert t.gtid in Gtids(b) && t.gtid !in Gtids(a);
    }
  }

  lemma OnlyOneDecision(s: State, i: Host, j: Host)
    requires Inv(s) && i < |s.members| && j < |s.members|
    requires s.members[i].decided && s.members[j].decided
    ensures i == j
  {
    if i != j {
      var c := ClusterOf(s);
      assert Conceded(s, i, j) && Conceded(s, j, i);
      var aj :| Represents(c[j], aj) && Concedes(SelfOf(c, i), (j, aj));
      var ai :| Represents(c[i], ai) && Concedes(SelfOf(c, j), (i, ai));
      SafeExactly(SelfOf(c, i), [(j, aj)]);
      SafeExactly(SelfOf(c, j), [(i, ai)]);
      TwoNodesNeverBothSafe(c, i, j, [(j, aj)], [(i, ai)], aj, ai);
    }
  }

  // ----- every step keeps the invariant -----

  lemma InitialSatisfiesInv(s: State)
    requires Initial(s)
    ensures Inv(s)
  {}

  predicate SameData(s: State, s': State) {
    && s'.history == s.history && |s'.members| == |s.members|
    && forall i | 0 <= i < |s.members| ::
         && s'.members[i].log == s.members[i].log
         && s'.members[i].fileMarker == s.members[i].fileMarker
         && s'.members[i].generation == s.members[i].generation
  }

  lemma SameDataKeepsTheRecord(s: State, s': State)
    requires SameData(s, s')
    ensures LogsArePrefixes(s) ==> LogsArePrefixes(s')
    ensures ClusterOf(s') == ClusterOf(s)
    ensures forall i: Host, j: Host | i < |s.members| && j < |s.members| :: Conceded(s, i, j) ==> Conceded(s', i, j)
  {
    if LogsArePrefixes(s) {
      var i :| 0 <= i < |s.members| && s.members[i].log == s.history;
      assert s'.members[i].log == s'.history;
    }
    assert ClusterOf(s') == ClusterOf(s);
  }

  /** What a view change or a membership change may do to one incarnation. */
  predicate GroupCarriesOver(s: State, g: Group, g': Group) {
    && g'.log == g.log
    && ((g'.delivered == g.delivered && g.view <= g'.view) || g'.delivered == |g.log|)
    && (g'.primary.Some? && g'.primary != g.primary ==>
          g'.primary.value < |s.members| && s.members[g'.primary.value].log == g.log)
  }

  predicate StaysLive(s: State, s': State, i: Host)
    requires Live(s', i)
  {
    && Live(s, i) && s'.members[i].mode == s.members[i].mode
    && (s.members[i].mode.gid < |s'.groups| ==> i in s'.groups[s.members[i].mode.gid].view)
  }

  /** Nobody newly goes live, decides or executes anything. */
  lemma CarryOver(s: State, s': State)
    requires Inv(s) && SameData(s, s') && |s'.groups| == |s.groups|
    requires forall i: Host | Live(s', i) :: StaysLive(s, s', i)
    requires forall gid | 0 <= gid < |s.groups| :: GroupCarriesOver(s, s.groups[gid], s'.groups[gid])
    requires forall i: Host | i < |s.members| && s'.members[i].decided ::
      s.members[i].decided && s'.members[i].mode == Between
    ensures Inv(s')
  {
    SameDataKeepsTheRecord(s, s');
    forall i: Host | Live(s', i)
      ensures var gid := s'.members[i].mode.gid;
        && gid < |s'.groups| && s'.groups[gid].log == s'.history && s'.groups[gid].delivered <= |s'.history|
        && (|s'.history| == s'.groups[gid].delivered || SomeoneHolds(s', gid))
    {
      assert StaysLive(s, s', i);
      var gid := s.members[i].mode.gid;
      assert GroupCarriesOver(s, s.groups[gid], s'.groups[gid]);
      if SomeoneHolds(s, gid) && |s'.history| != s'.groups[gid].delivered {
        var h: Host :| h < |s.members| && h in s.groups[gid].view && s.members[h].log == s.history;
        assert h in s'.groups[gid].view && s'.members[h].log == s'.history;
      }
    }
    forall gid | 0 <= gid < |s'.groups| && s'.groups[gid].primary.Some?
      ensures var p := s'.groups[gid].primary.value;
        p < |s'.members| && s'.members[p].mode == InGroup(gid) ==> s'.members[p].log == s'.groups[gid].log
    {
      assert GroupCarriesOver(s, s.groups[gid], s'.groups[gid]);
      var p := s'.groups[gid].primary.value;
      if p < |s'.members| && s'.members[p].mode == InGroup(gid) { assert Live(s', p); }
    }
  }

  /** Steps that neither move a log nor put anyone in a group. */
  lemma QuietStep(s: State, step: Step)
    requires Inv(s) && step.i < |s.members| && Enabled(s, step)
    requires step.Elect? || step.Crash? || step.Boot? || step.Leave? || step.Expel? || step.StartJoin?
    ensures Inv(Apply(s, step))
  {
    var s' := Apply(s, step);
    forall i: Host | Live(s', i)
      ensures StaysLive(s, s', i)
    {
      assert Live(s, i);
    }
    CarryOver(s, s');
  }

  /** A joiner that has caught up goes ONLINE in the one operating incarnation. */
  lemma FinishJoinStep(s: State, step: Step)
    requires Inv(s) && step.FinishJoin? && step.i < |s.members| && Enabled(s, step)
    ensures Inv(Apply(s, step))
  {
    var s', gid := Apply(s, step), s.members[step.i].mode.gid;
    SameDataKeepsTheRecord(s, s');
    var h: Host :| h < |s.members| && s.members[h].mode == InGroup(gid);
    assert Live(s, h);
    forall i: Host | Live(s', i)
      ensures s'.members[i].mode == InGroup(gid)
    {
      if i != step.i { assert Live(s, i); }
    }
    assert SomeoneHolds(s', gid) by { assert s'.members[step.i].log == s'.history; }
    assert OneGroup(s');
    assert forall i: Host | i < |s.members| :: !s.members[i].decided;
  }

  /** While some group operates nobody holds an outstanding decision, and its log is the history. */
  lemma OperatingExcludesDecisions(s: State, gid: nat)
    requires Inv(s) && Operating(s, gid)
    ensures forall i: Host | i < |s.members| :: !s.members[i].decided
    ensures s.groups[gid].log == s.history
    ensures forall i: Host | Live(s, i) :: s.members[i].mode == InGroup(gid)
  {
    var h: Host :| h < |s.members| && s.members[h].mode == InGroup(gid);
    assert Live(s, h);
  }

  lemma ApplyKeepsPrimaries(s: State, step: Step)
    requires Inv(s) && step.ApplyNext? && step.i < |s.members| && Enabled(s, step)
    ensures PrimariesAreCurrent(Apply(s, step))
  {
    var s' := Apply(s, step);
    forall g | 0 <= g < |s'.groups| && s'.groups[g].primary.Some?
      ensures var p := s'.groups[g].primary.value;
        p < |s'.members| && s'.members[p].mode == InGroup(g) ==> s'.members[p].log == s'.groups[g].log
    {
      var p := s.groups[g].primary.value;
      if p < |s.members| && s.members[p].mode == InGroup(g) {
        assert p != step.i;
      }
    }
  }

  lemma ApplyNextStep(s: State, step: Step)
    requires Inv(s) && step.ApplyNext? && step.i < |s.members| && Enabled(s, step)
    ensures Inv(Apply(s, step))
    ensures s.members[step.i].log <= Apply(s, step).members[step.i].log
  {
    var s', gid := Apply(s, step), s.members[step.i].mode.gid;
    OperatingExcludesDecisions(s, gid);
    assert s'.members[step.i].log <= s.history;
    var holder :| 0 <= holder < |s.members| && s.members[holder].log == s.history;
    assert holder != step.i && s'.members[holder].log == s'.history;
    forall i: Host | Live(s', i)
      ensures Live(s, i) && s'.members[i].mode == s.members[i].mode
    {}
    if SomeoneHolds(s, gid) {
      var h: Host :| h < |s.members| && h in s.groups[gid].view && s.members[h].log == s.history;
      assert s'.members[h].log == s'.history;
    }
    assert OneGroup(s');
    ApplyKeepsPrimaries(s, step);
  }

  lemma WriteStep(s: State, step: Step)
    requires Inv(s) && step.Write? && step.i < |s.members| && Enabled(s, step)
    ensures Inv(Apply(s, step))
    ensures s.history <= Apply(s, step).history
  {
    var s', gid := Apply(s, step), s.members[step.i].mode.gid;
    assert Operating(s, gid);
    OperatingExcludesDecisions(s, gid);
    assert s'.history == s.history + [step.t];
    assert s'.members[step.i].log == s'.history;
    forall j, k | 0 <= j < k < |s'.history|
      ensures s'.history[j].gtid != s'.history[k].gtid
    {
      if k == |s.history| { assert s.history[j] in s.history; }
    }
    assert LogsArePrefixes(s');
    forall i: Host | Live(s', i)
      ensures Live(s, i) && s'.members[i].mode == s.members[i].mode
    {}
    assert SomeoneHolds(s', gid);
    assert OneGroup(s');
  }

  /** Nothing is ever discarded: the self-heal that reclones a diverged member is never
      enabled while no peer has been waived. */
  lemma RecloneNeverFires(s: State, step: Step)
    requires Inv(s) && step.Reclone? && step.i < |s.members|
    ensures !Enabled(s, step)
  {
    if step.gid < |s.groups| && s.groups[step.gid].primary.Some? {
      var p := s.groups[step.gid].primary.value;
      if p < |s.members| && s.members[p].mode == InGroup(step.gid) {
        assert Operating(s, step.gid);
        OperatingExcludesDecisions(s, step.gid);
        PrefixSets(s.members[p].log, s.members[step.i].log, s.history);
      }
    }
  }

  /** A round that concludes it is safe has heard every declared peer, outside any group and
      conceding, so this node holds the whole history. */
  lemma SafeRoundSeesEverything(s: State, i: Host, answers: Answers)
    requires LogsArePrefixes(s) && i < |s.members| && s.members[i].mode == Between && RoundOf(s, i, answers)
    requires ClassifyRound(SelfOf(ClusterOf(s), i), answers) == SafeToBootstrap
    ensures NobodyLive(s)
    ensures s.members[i].log == s.history
    ensures forall j: Host | j < |s.members| && j != i :: Conceded(s, i, j)
  {
    var me := SelfOf(ClusterOf(s), i);
    SafeExactly(me, answers);
    forall j: Host | j < |s.members| && j != i
      ensures Conceded(s, i, j) && !Live(s, j)
    {
      assert Asked(answers, j);
      var a :| a in answers && a.0 == j;
      assert Concedes(me, a) && Represents(ClusterOf(s)[j], a.1) && a == (j, a.1);
    }
    var holder :| 0 <= holder < |s.members| && s.members[holder].log == s.history;
    if holder != i {
      assert Conceded(s, i, holder);
      PrefixSets(s.members[i].log, s.history, s.history);
    }
  }

  lemma AskStep(s: State, step: Step)
    requires Inv(s) && step.Ask? && step.i < |s.members| && Enabled(s, step)
    ensures Inv(Apply(s, step))
  {
    var s' := Apply(s, step);
    SameDataKeepsTheRecord(s, s');
    forall i: Host | Live(s', i)
      ensures Live(s, i) && s'.members[i].mode == s.members[i].mode
    {}
    assert OneGroup(s') by {
      forall i: Host | Live(s', i)
        ensures SomeoneHolds(s, s.members[i].mode.gid) ==> SomeoneHolds(s', s.members[i].mode.gid)
      {
        var gid := s.members[i].mode.gid;
        if SomeoneHolds(s, gid) {
          var h: Host :| h < |s.members| && h in s.groups[gid].view && s.members[h].log == s.history;
          assert s'.members[h].log == s'.history;
        }
      }
    }
    if s'.members[step.i].decided {
      SafeRoundSeesEverything(s, step.i, step.answers);
    }
    assert NobodyLive(s) ==> NobodyLive(s');
    assert DecisionsStand(s');
  }

  /** Forming a fresh incarnation is sound when nobody else is live, this node holds the whole
      history, and no other decision is outstanding. */
  lemma FormIsSound(s: State, i: Host)
    requires Inv(s) && i < |s.members| && s.members[i].log == s.history
    requires forall j: Host | Live(s, j) :: j == i
    requires forall j: Host | j < |s.members| && s.members[j].decided :: j == i
    ensures Inv(Form(s, i))
  {
    var s', gid := Form(s, i), |s.groups|;
    SameDataKeepsTheRecord(s, s');
    assert s'.groups[gid].log == s'.history && s'.members[i].mode == InGroup(gid);
    forall j: Host | Live(s', j)
      ensures j == i
    {
      if j != i { assert Live(s, j); }
    }
    assert PrimariesAreCurrent(s');
  }

  lemma BootstrapStep(s: State, step: Step)
    requires Inv(s) && step.BootstrapGroup? && step.i < |s.members| && Enabled(s, step)
    ensures Inv(Apply(s, step))
  {
    forall j: Host | j < |s.members| && s.members[j].decided
      ensures j == step.i
    {
      OnlyOneDecision(s, step.i, j);
    }
    FormIsSound(s, step.i);
  }

  /** What another view member answered the survivor with: proof that it left. */
  lemma DepartureAnswer(s: State, step: Step, j: Host) returns (answer: PeerAnswer)
    requires step.ReformGroup? && step.i < |s.members| && Enabled(s, step) && s.members[step.i].mode.InGroup?
    requires s.members[step.i].mode.gid < |s.groups|
    requires j < |s.members| && j != step.i
    requires var view := s.groups[s.members[step.i].mode.gid].view; step.i in view && j in view
    ensures (j, answer) in step.answers && CanAnswer(s, j, answer) && ProvesDeparture(s.name, Some(answer))
  {
    var rows, answers := step.rows, step.answers;
    var me: nat :| me < |rows| && rows[me].host == step.i;
    var other: nat :| other < |rows| && rows[other].host == j;
    ForceMeansEveryoneElseDeparted(Some(s.name), rows, answers, me, other);
    assert rows[other] in rows && Asked(answers, j);
    var a :| a in answers && a.0 == j && Some(a.1) == AnswerOf(answers, j);
    answer := a.1;
  }

  /** A departed view member answered outside any group, with a set the survivor contains. */
  lemma DepartedMember(s: State, step: Step, j: Host)
    requires Inv(s) && step.ReformGroup? && step.i < |s.members| && Enabled(s, step)
    requires j < |s.members| && j != step.i && j in s.groups[s.members[step.i].mode.gid].view
    ensures !Live(s, j)
    ensures Gtids(s.members[j].log) <= Gtids(s.members[step.i].log)
  {
    var answer := DepartureAnswer(s, step, j);
  }

  /** The lone survivor's proof and data gate: nobody else is live, and it holds the history. */
  lemma SurvivorHoldsEverything(s: State, step: Step)
    requires Inv(s) && step.ReformGroup? && step.i < |s.members| && Enabled(s, step)
    ensures forall j: Host | Live(s, j) :: j == step.i
    ensures s.members[step.i].log == s.history
  {
    var r, gid := step.i, s.members[step.i].mode.gid;
    forall j: Host | Live(s, j)
      ensures j == r
    {
      assert Live(s, r) && s.members[j].mode == s.members[r].mode;
      if j != r { DepartedMember(s, step, j); }
    }
    assert Live(s, r);
    if |s.history| != s.groups[gid].delivered {
      assert SomeoneHolds(s, gid);
      var h: Host :| h < |s.members| && h in s.groups[gid].view && s.members[h].log == s.history;
      if h != r {
        DepartedMember(s, step, h);
        PrefixSets(s.members[r].log, s.history, s.history);
      }
    }
  }

  lemma ReformStep(s: State, step: Step)
    requires Inv(s) && step.ReformGroup? && step.i < |s.members| && Enabled(s, step)
    ensures Inv(Apply(s, step))
  {
    SurvivorHoldsEverything(s, step);
    assert Operating(s, s.members[step.i].mode.gid);
    OperatingExcludesDecisions(s, s.members[step.i].mode.gid);
    FormIsSound(s, step.i);
  }

  lemma StepKeepsInv(s: State, step: Step)
    requires Inv(s) && step.i < |s.members| && Enabled(s, step)
    ensures Inv(Apply(s, step))
  {
    match step
    case Ask(_, _) => AskStep(s, step);
    case BootstrapGroup(_) => BootstrapStep(s, step);
    case FinishJoin(_) => FinishJoinStep(s, step);
    case Write(_, _) => WriteStep(s, step);
    case ApplyNext(_) => ApplyNextStep(s, step);
    case Reclone(_, _) => RecloneNeverFires(s, step);
    case ReformGroup(_, _, _) => ReformStep(s, step);
    case _ => QuietStep(s, step);
  }

  lemma {:induction false} RunsKeepInv(run: seq<State>, steps: seq<Step>, k: nat)
    requires RunOf(run, steps) && k < |run|
    ensures Inv(run[k])
  {
    if k == 0 {
      InitialSatisfiesInv(run[0]);
    } else {
      RunsKeepInv(run, steps, k - 1);
      StepKeepsInv(run[k - 1], steps[k - 1]);
    }
  }

  // ----- what every run guarantees -----

  /** At every point of every run: all live members belong to one incarnation of the group, and
      the executed logs of any two declared members, up or down, are prefixes one of the other. */
  lemma OneGroupOneHistory(run: seq<State>, steps: seq<Step>, k: nat, i: Host, j: Host)
    requires RunOf(run, steps) && k < |run| && i < |run[k].members| && j < |run[k].members|
    ensures Live(run[k], i) && Live(run[k], j) ==> run[k].members[i].mode == run[k].members[j].mode
    ensures run[k].members[i].log <= run[k].members[j].log || run[k].members[j].log <= run[k].members[i].log
  {
    RunsKeepInv(run, steps, k);
  }

  /** Whoever forms a group, by the boot path or as a lone survivor, holds every transaction any
      declared member holds at that moment, and everything ever committed. */
  lemma FormedGroupsAreComplete(run: seq<State>, steps: seq<Step>, k: nat, j: Host)
    requires RunOf(run, steps) && k < |steps| && j < |run[k].members|
    requires steps[k].BootstrapGroup? || steps[k].ReformGroup?
    ensures run[k].members[j].log <= run[k].members[steps[k].i].log == run[k].history
    ensures Live(run[k], j) ==> j == steps[k].i
  {
    RunsKeepInv(run, steps, k);
    if steps[k].ReformGroup? {
      SurvivorHoldsEverything(run[k], steps[k]);
    }
  }

  /** Nothing committed is ever lost and nothing executed is ever discarded: the history only
      grows, every member's log only grows, and some volume always holds all of it. */
  lemma NothingIsLost(run: seq<State>, steps: seq<Step>, k: nat, i: Host)
    requires RunOf(run, steps) && k < |steps| && i < |run[k].members|
    ensures run[k].history <= run[k + 1].history
    ensures |run[k + 1].members| == |run[k].members| && run[k].members[i].log <= run[k + 1].members[i].log
    ensures SomeVolumeHoldsTheHistory(run[k + 1])
  {
    RunsKeepInv(run, steps, k);
    RunsKeepInv(run, steps, k + 1);
    var s, step := run[k], steps[k];
    match step
    case Write(_, _) => WriteStep(s, step);
    case ApplyNext(_) => ApplyNextStep(s, step);
    case Reclone(_, _) => RecloneNeverFires(s, step);
    case _ =>
  }

  /** In every run the datasets are comparable, so whether a total outage can recover by itself
      is exactly whether the earliest complete advertiser can judge itself. */
  lemma OutageRecoversExactly(run: seq<State>, steps: seq<Step>, k: nat)
    requires RunOf(run, steps) && k < |run|
    ensures (exists w :: 0 <= w < |run[k].members| && Verdict(ClusterOf(run[k]), w) == SafeToBootstrap)
      <==> FlagHolderCanJudgeItself(ClusterOf(run[k]))
  {
    RunsKeepInv(run, steps, k);
    var s := run[k];
    forall i, j | 0 <= i < |s.members| && 0 <= j < |s.members|
      ensures ClusterOf(s)[i].gtids <= ClusterOf(s)[j].gtids || ClusterOf(s)[j].gtids <= ClusterOf(s)[i].gtids
    {
      PrefixSets(s.members[i].log, s.members[j].log, s.history);
      PrefixSets(s.members[j].log, s.members[i].log, s.history);
    }
    ExactlyOneWinnerExactly(ClusterOf(s));
  }
}
