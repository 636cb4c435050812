/** Group identities once waivers are in play: histories may fork, incarnations may live side by side, and
    Group Replication admits a joiner by comparing GTID sets. When such a comparison can be trusted. */
module WaiverIdentity {
  import opened Common
  import opened Bootstrap
  import opened Peers

  /** A transaction and what it does; two servers may mint one identity for different work. */
  datatype Txn = Txn(gtid: Gtid, work: nat)

  type Log = seq<Txn>

  /** Down, answering outside any group, or in the incarnation numbered `gid`. */
  datatype Mode = Down | Between | In(gid: nat)

  /** A verdict of safety reached by an earlier round and not acted on yet: to bootstrap under the name on the
      volume, or, somebody having been waived, under a fresh one at this generation. */
  datatype Decision = Undecided | KeepName | FreshName(generation: nat)

  /** `name` is the group name persisted on the volume. */
  datatype Member = Member(log: Log, name: string, generation: nat, mode: Mode, fileMarker: bool, dbFlag: bool,
                           decision: Decision)

  datatype Incarnation = Incarnation(name: string, log: Log)

  /** `names` are the group names and server identities ever used; an empty volume starts under `derived`. */
  datatype State = State(members: seq<Member>, groups: seq<Incarnation>, names: set<string>, derived: string)

  datatype Step =
    | Judge(i: Host, waived: set<Host>)
    | BootstrapGroup(i: Host, name: string)
    | Adopt(i: Host, donor: Host)
    | Join(i: Host, donor: Host)
    | Reclone(i: Host, donor: Host)
    | ApplyNext(i: Host)
    | Write(i: Host, t: Txn)
    | Stop(i: Host, down: bool)
    | Boot(i: Host)
    | LoseVolume(i: Host)
    | Flag(i: Host)

  function Gtids(log: Log): GtidSet {
    set t | t in log :: t.gtid
  }

  function NodeOf(m: Member): Node {
    Node(Gtids(m.log), m.generation, m.fileMarker, m.dbFlag)
  }

  function ClusterOf(s: State): Cluster {
    seq(|s.members|, i requires 0 <= i < |s.members| => NodeOf(s.members[i]))
  }

  predicate Live(s: State, g: nat) {
    g < |s.groups| && exists i :: 0 <= i < |s.members| && s.members[i].mode == In(g)
  }

  /** The peers a round considers: all of them, less the waived. */
  function Considered(c: Cluster, i: Host, waived: set<Host>): Answers
    requires i < |c|
  {
    if waived == {} then FullRound(c, i) else Filter(FullRound(c, i), (a: (Host, PeerAnswer)) => a.0 !in waived)
  }

  function MaxOf(xs: seq<nat>): (m: nat)
    ensures forall k | 0 <= k < |xs| :: xs[k] <= m
    ensures m == 0 || m in xs
  {
    if xs == [] then 0
    else
      var rest := MaxOf(xs[1..]);
      assert forall k | 1 <= k < |xs| :: xs[k] == xs[1..][k - 1];
      if xs[0] >= rest then xs[0] else rest
  }

  function Generations(answers: Answers): seq<nat> {
    seq(|answers|, k requires 0 <= k < |answers| =>
      if answers[k].1.Answered? then answers[k].1.state.waiverGeneration else 0)
  }

  /** A bootstrap past a waived peer mints a generation above its own and every one it considered. */
  function NextGeneration(own: nat, considered: seq<nat>): nat {
    (if own >= MaxOf(considered) then own else MaxOf(considered)) + 1
  }

  /** Every peer not waived answers this round, in no group, and the verdict on their answers is safe. */
  predicate SaysSafe(s: State, i: Host, waived: set<Host>)
    requires i < |s.members|
  {
    && s.members[i].mode == Between && i !in waived
    && (forall j | 0 <= j < |s.members| && j != i && j !in waived :: s.members[j].mode == Between)
    && ClassifyRound(SelfOf(ClusterOf(s), i), Considered(ClusterOf(s), i, waived)) == SafeToBootstrap
  }

  /** Acting on a verdict: under the name kept, or under one never used. */
  predicate MayForm(s: State, i: Host, name: string)
    requires i < |s.members|
  {
    && s.members[i].mode == Between
    && match s.members[i].decision
       case Undecided => false
       case KeepName => name == s.members[i].name
       case FreshName(_) => name !in s.names
  }

  /** A donor in a live group, for a member outside any. */
  predicate DonorFor(s: State, i: Host, donor: Host)
    requires i < |s.members|
  {
    s.members[i].mode == Between && donor < |s.members| && s.members[donor].mode.In?
      && s.members[donor].mode.gid < |s.groups|
  }

  /** Adopting an identity asks nothing about the data; joining and recloning come after it. */
  predicate Enabled(s: State, step: Step) {
    && step.i < |s.members|
    && var m := s.members[step.i];
    match step
    case Judge(i, waived) => SaysSafe(s, i, waived)
    case BootstrapGroup(i, name) => MayForm(s, i, name)
    case Adopt(i, donor) => DonorFor(s, i, donor)
    case Join(i, donor) =>
      && DonorFor(s, i, donor)
      && m.name == s.groups[s.members[donor].mode.gid].name
      && Gtids(m.log) <= Gtids(s.groups[s.members[donor].mode.gid].log)
    case Reclone(i, donor) => DonorFor(s, i, donor) && m.name == s.groups[s.members[donor].mode.gid].name
    case ApplyNext(_) => m.mode.In? && m.mode.gid < |s.groups| && |m.log| < |s.groups[m.mode.gid].log|
    case Write(_, t) =>
      && m.mode.In? && m.mode.gid < |s.groups|
      && var g := s.groups[m.mode.gid];
      m.log == g.log && t.gtid.source == g.name && t.gtid !in Gtids(g.log)
    case Stop(_, _) => true
    case Boot(_) => m.mode == Down
    case LoseVolume(_) => m.mode == Down
    case Flag(_) => m.mode.In?
  }

  function WithMember(s: State, i: Host, m: Member): State
    requires i < |s.members|
  {
    s.(members := s.members[i := m])
  }

  /** A member that does anything else drops what it had decided. */
  function Moved(s: State, i: Host, m: Member): State
    requires i < |s.members|
  {
    WithMember(s, i, m.(decision := Undecided))
  }

  /** A new incarnation of one member, with that member's log. */
  function Form(s: State, i: Host, name: string, generation: nat): State
    requires i < |s.members|
  {
    var m := s.members[i];
    Moved(s, i, m.(name := name, generation := generation, mode := In(|s.groups|)))
      .(groups := s.groups + [Incarnation(name, m.log)], names := s.names + {name})
  }

  function Next(s: State, step: Step): State
    requires Enabled(s, step)
  {
    var m := s.members[step.i];
    match step
    case Judge(i, waived) =>
      WithMember(s, i, m.(decision :=
        if waived == {} then KeepName
        else FreshName(NextGeneration(m.generation, Generations(Considered(ClusterOf(s), i, waived))))))
    case BootstrapGroup(i, name) =>
      Form(s, i, name, if m.decision.FreshName? then m.decision.generation else m.generation)
    case Adopt(i, donor) =>
      var d := s.members[donor];
      Moved(s, i, m.(name := s.groups[d.mode.gid].name,
                          generation := if d.generation > m.generation then d.generation else m.generation))
    case Join(i, donor) => Moved(s, i, m.(mode := s.members[donor].mode))
    case Reclone(i, donor) => Moved(s, i, m.(log := s.members[donor].log, dbFlag := s.members[donor].dbFlag))
    case ApplyNext(i) => Moved(s, i, m.(log := m.log + [s.groups[m.mode.gid].log[|m.log|]]))
    case Write(i, t) =>
      var g := s.groups[m.mode.gid];
      Moved(s, i, m.(log := m.log + [t])).(groups := s.groups[m.mode.gid := g.(log := g.log + [t])])
    case Stop(i, down) => Moved(s, i, m.(mode := if down then Down else Between))
    case Boot(i) => Moved(s, i, m.(mode := Between))
    case LoseVolume(i) =>
      Moved(s, i, m.(log := [], name := s.derived, generation := 0, fileMarker := false, dbFlag := false))
    case Flag(i) => Moved(s, i, m.(dbFlag := true))
  }

  // ----- when identities can be trusted -----

  /** Where a log lies: on a member's volume, or ordered by a live group. */
  datatype Place = OnVolume(host: Host) | InGroup(gid: nat)

  predicate Exists(s: State, p: Place) {
    match p
    case OnVolume(j) => j < |s.members|
    case InGroup(g) => Live(s, g)
  }

  function LogAt(s: State, p: Place): Log
    requires Exists(s, p)
  {
    match p
    case OnVolume(j) => s.members[j].log
    case InGroup(g) => s.groups[g].log
  }

  /** One identity means one transaction with one past. */
  predicate Agree(a: Log, b: Log) {
    forall p, q {:trigger a[p], b[q]} | 0 <= p < |a| && 0 <= q < |b| && a[p].gtid == b[q].gtid ::
      p == q && a[..p + 1] == b[..q + 1]
  }

  ghost predicate AllAgree(s: State) {
    forall p, q {:trigger Exists(s, p), Exists(s, q)} | Exists(s, p) && Exists(s, q) :: Agree(LogAt(s, p), LogAt(s, q))
  }

  /** Every identity minted under `name`, wherever it lies, is in this log. */
  ghost predicate HoldsAllOf(s: State, name: string, log: Log) {
    forall p, t {:trigger Exists(s, p), t.gtid} | Exists(s, p) && t in LogAt(s, p) && t.gtid.source == name ::
      t.gtid in Gtids(log)
  }

  ghost predicate NamesKnown(s: State) {
    && s.derived in s.names
    && (forall j | 0 <= j < |s.members| :: s.members[j].name in s.names)
    && (forall g | 0 <= g < |s.groups| :: s.groups[g].name in s.names)
    && (forall p, t {:trigger Exists(s, p), t.gtid} | Exists(s, p) && t in LogAt(s, p) :: t.gtid.source in s.names)
  }

  predicate InTheirGroups(s: State) {
    forall j | 0 <= j < |s.members| && s.members[j].mode.In? ::
      && s.members[j].mode.gid < |s.groups|
      && s.members[j].name == s.groups[s.members[j].mode.gid].name
      && s.members[j].log <= s.groups[s.members[j].mode.gid].log
  }

  /** What holds of names and logs, whatever is decided. */
  ghost predicate Sound(s: State) {
    && NamesKnown(s) && InTheirGroups(s) && AllAgree(s)
    && (forall g: nat, h: nat | Live(s, g) && Live(s, h) && s.groups[g].name == s.groups[h].name :: g == h)
    && (forall g: nat | Live(s, g) :: HoldsAllOf(s, s.groups[g].name, s.groups[g].log))
  }

  ghost predicate NoneLive(s: State, name: string) {
    forall g: nat | Live(s, g) :: s.groups[g].name != name
  }

  /** `j` cannot come to the decision that `i` came to: under the same name it is beaten. */
  predicate NoRival(s: State, i: Host, j: Host)
    requires i < |s.members| && j < |s.members|
  {
    && (s.members[j].name == s.members[i].name ==> Beats(ClusterOf(s), i, j) && s.members[j].decision != KeepName)
    && (s.members[i].log == [] ==> Advertises(NodeOf(s.members[i])) || i < j)
  }

  /** A decision to keep a name still stands when it is acted on, however much later. */
  ghost predicate Stands(s: State, i: Host)
    requires i < |s.members|
  {
    && s.members[i].mode == Between && NoneLive(s, s.members[i].name)
    && HoldsAllOf(s, s.members[i].name, s.members[i].log)
    && forall j | 0 <= j < |s.members| && j != i :: NoRival(s, i, j)
  }

  ghost predicate Inv(s: State) {
    Sound(s) && forall i | 0 <= i < |s.members| && s.members[i].decision == KeepName :: Stands(s, i)
  }

  /** Any volumes, none in a group, whose logs agree. */
  ghost predicate Initial(s: State) {
    && s.groups == [] && NamesKnown(s) && AllAgree(s)
    && forall j | 0 <= j < |s.members| :: !s.members[j].mode.In? && s.members[j].decision == Undecided
  }

  /** What a round could check in its answers: no peer holds an identity minted under this name that the
      member lacks itself. Under a fresh name there is nothing to check. */
  predicate NameIsCovered(s: State, i: Host, name: string)
    requires i < |s.members|
  {
    forall j, x | 0 <= j < |s.members| && x in Gtids(s.members[j].log) && x.source == name ::
      x in Gtids(s.members[i].log)
  }

  /** A round that waives nobody keeps the name. */
  predicate Covered(s: State, step: Step) {
    step.Judge? && step.waived == {} && step.i < |s.members| ==> NameIsCovered(s, step.i, s.members[step.i].name)
  }

  // ----- agreement -----

  /** What agreement is for: a GTID set contained in another means a log that is a prefix of the other. */
  lemma ContainedSetsArePrefixes(a: Log, b: Log)
    requires Agree(a, b) && Gtids(a) <= Gtids(b)
    ensures a <= b
  {
    if a != [] {
      var last := a[|a| - 1];
      assert last in a && last.gtid in Gtids(a);
      var t :| t in b && t.gtid == last.gtid;
      var q :| 0 <= q < |b| && b[q] == t;
      assert a[..|a| - 1 + 1] == a;
    }
  }

  lemma PrefixesAgree(a: Log, b: Log, a': Log, b': Log)
    requires Agree(a, b) && a' <= a && b' <= b
    ensures Agree(a', b')
  {
    forall p, q | 0 <= p < |a'| && 0 <= q < |b'| && a'[p].gtid == b'[q].gtid
      ensures p == q && a'[..p + 1] == b'[..q + 1]
    {
      assert a[p].gtid == b[q].gtid;
      assert a'[..p + 1] == a[..p + 1] && b'[..q + 1] == b[..q + 1];
    }
  }

  /** Logs that only shrank or moved still agree. */
  lemma AgreementMoves(s: State, s': State, from: Place -> Place)
    requires AllAgree(s)
    requires forall p | Exists(s', p) :: Exists(s, from(p)) && LogAt(s', p) <= LogAt(s, from(p))
    ensures AllAgree(s')
  {
    forall p, q | Exists(s', p) && Exists(s', q)
      ensures Agree(LogAt(s', p), LogAt(s', q))
    {
      PrefixesAgree(LogAt(s, from(p)), LogAt(s, from(q)), LogAt(s', p), LogAt(s', q));
    }
  }

  // ----- what every step keeps -----

  /** Steps that order nothing new: every log afterwards is part of one there was, under names known. */
  ghost predicate OrdersNothing(s: State, s': State, from: Place -> Place) {
    && s'.names >= s.names && s'.derived == s.derived
    && |s'.members| == |s.members| && s'.groups == s.groups
    && (forall p | Exists(s', p) :: Exists(s, from(p)) && LogAt(s', p) <= LogAt(s, from(p)))
    && (forall g: nat | Live(s', g) :: Live(s, g))
    && (forall j | 0 <= j < |s'.members| :: s'.members[j].name in s.names)
  }

  lemma OrderingNothingStaysSound(s: State, s': State, from: Place -> Place)
    requires Sound(s) && OrdersNothing(s, s', from) && InTheirGroups(s')
    ensures Sound(s')
  {
    AgreementMoves(s, s', from);
    forall p, t | Exists(s', p) && t in LogAt(s', p)
      ensures t in LogAt(s, from(p)) && t.gtid.source in s'.names
    {
      assert LogAt(s', p) <= LogAt(s, from(p));
      assert Exists(s, from(p));
    }
  }

  /** Only this member changed, and it is undecided. */
  predicate OnlyMoves(s: State, s': State, x: Host) {
    && |s'.members| == |s.members| && x < |s.members| && s'.members[x].decision == Undecided
    && forall j | 0 <= j < |s.members| && j != x :: s'.members[j] == s.members[j]
  }

  lemma BeatsAlike(s: State, s': State, i: Host, j: Host)
    requires |s'.members| == |s.members| && i < |s.members| && j < |s.members|
    requires NodeOf(s'.members[i]) == NodeOf(s.members[i]) && NodeOf(s'.members[j]) == NodeOf(s.members[j])
    ensures Beats(ClusterOf(s'), i, j) == Beats(ClusterOf(s), i, j)
  {}

  lemma StillHolds(s: State, s': State, from: Place -> Place, name: string, log: Log)
    requires OrdersNothing(s, s', from) && HoldsAllOf(s, name, log)
    ensures HoldsAllOf(s', name, log)
  {
    forall p, t | Exists(s', p) && t in LogAt(s', p) && t.gtid.source == name
      ensures t.gtid in Gtids(log)
    {
      assert Exists(s, from(p)) && t in LogAt(s, from(p));
    }
  }

  /** Another member's move leaves a decision standing, unless it makes that member a rival. */
  lemma StandsAside(s: State, s': State, x: Host, i: Host)
    requires i < |s.members| && i != x && OnlyMoves(s, s', x) && Stands(s, i)
    requires NoneLive(s', s.members[i].name) && HoldsAllOf(s', s.members[i].name, s.members[i].log)
    requires s'.members[x].name == s.members[i].name ==> Beats(ClusterOf(s'), i, x)
    ensures Stands(s', i)
  {
    forall j | 0 <= j < |s'.members| && j != i
      ensures NoRival(s', i, j)
    {
      assert NoRival(s, i, j);
      if j != x { BeatsAlike(s, s', i, j); }
    }
  }

  /** Who takes the name of a live group rivals nobody's decision. */
  lemma JoinersRivalNobody(s: State, s': State, x: Host, from: Place -> Place)
    requires Inv(s) && OrdersNothing(s, s', from) && InTheirGroups(s') && OnlyMoves(s, s', x)
    requires exists g: nat :: Live(s, g) && s.groups[g].name == s'.members[x].name
    ensures Inv(s')
  {
    OrderingNothingStaysSound(s, s', from);
    forall i | 0 <= i < |s'.members| && s'.members[i].decision == KeepName
      ensures Stands(s', i)
    {
      assert Stands(s, i);
      StillHolds(s, s', from, s.members[i].name, s.members[i].log);
      StandsAside(s, s', x, i);
    }
  }

  lemma LiveByMember(s: State, i: Host)
    requires InTheirGroups(s) && i < |s.members| && s.members[i].mode.In?
    ensures var gid := s.members[i].mode.gid;
      Live(s, gid) && s.members[i].name == s.groups[gid].name && s.members[i].log <= s.groups[gid].log
  {}

  /** Admission compares sets; where identities agree, that admits prefixes only. */
  lemma JoinKeepsInv(s: State, step: Step)
    requires Inv(s) && Enabled(s, step) && step.Join?
    ensures Inv(Next(s, step))
  {
    var g := s.members[step.donor].mode.gid;
    LiveByMember(s, step.donor);
    assert Exists(s, OnVolume(step.i)) && Exists(s, InGroup(g));
    ContainedSetsArePrefixes(s.members[step.i].log, s.groups[g].log);
    JoinersRivalNobody(s, Next(s, step), step.i, p => p);
  }

  lemma AdoptKeepsInv(s: State, step: Step)
    requires Inv(s) && Enabled(s, step) && step.Adopt?
    ensures Inv(Next(s, step))
  {
    LiveByMember(s, step.donor);
    JoinersRivalNobody(s, Next(s, step), step.i, p => p);
  }

  /** A member's log taken from where its group ordered it. */
  function FromGroup(i: Host, gid: nat): Place -> Place {
    (p: Place) => if p == OnVolume(i) then InGroup(gid) else p
  }

  lemma ApplyingOrdersNothing(s: State, step: Step)
    requires Sound(s) && Enabled(s, step) && step.ApplyNext?
    ensures OrdersNothing(s, Next(s, step), FromGroup(step.i, s.members[step.i].mode.gid))
    ensures InTheirGroups(Next(s, step))
  {
    LiveByMember(s, step.i);
  }

  lemma ApplyKeepsInv(s: State, step: Step)
    requires Inv(s) && Enabled(s, step) && step.ApplyNext?
    ensures Inv(Next(s, step))
  {
    LiveByMember(s, step.i);
    ApplyingOrdersNothing(s, step);
    JoinersRivalNobody(s, Next(s, step), step.i, FromGroup(step.i, s.members[step.i].mode.gid));
  }

  lemma FlagKeepsInv(s: State, step: Step)
    requires Inv(s) && Enabled(s, step) && step.Flag?
    ensures Inv(Next(s, step))
  {
    LiveByMember(s, step.i);
    JoinersRivalNobody(s, Next(s, step), step.i, p => p);
  }

  lemma RecloneKeepsInv(s: State, step: Step)
    requires Inv(s) && Enabled(s, step) && step.Reclone?
    ensures Inv(Next(s, step))
  {
    LiveByMember(s, step.donor);
    JoinersRivalNobody(s, Next(s, step), step.i,
      p => if p == OnVolume(step.i) then OnVolume(step.donor) else p);
  }

  lemma StopKeepsInv(s: State, step: Step)
    requires Inv(s) && Enabled(s, step) && (step.Stop? || step.Boot?)
    ensures Inv(Next(s, step))
  {
    var s', x := Next(s, step), step.i;
    OrderingNothingStaysSound(s, s', p => p);
    forall i | 0 <= i < |s'.members| && s'.members[i].decision == KeepName
      ensures Stands(s', i)
    {
      assert Stands(s, i) && NoRival(s, i, x);
      StillHolds(s, s', p => p, s.members[i].name, s.members[i].log);
      BeatsAlike(s, s', i, x);
      StandsAside(s, s', x, i);
    }
  }

  /** An empty volume under any name is beaten by whoever decided: by its data, its flag or its rank. */
  lemma EmptyIsBeaten(s: State, s': State, x: Host, i: Host)
    requires i < |s.members| && i != x && OnlyMoves(s, s', x) && NoRival(s, i, x)
    requires NodeOf(s'.members[x]) == Node({}, 0, false, false)
    ensures Beats(ClusterOf(s'), i, x)
  {
    var log := s.members[i].log;
    assert log != [] ==> log[0] in log && log[0].gtid in Gtids(log);
  }

  lemma LoseVolumeKeepsInv(s: State, step: Step)
    requires Inv(s) && Enabled(s, step) && step.LoseVolume?
    ensures Inv(Next(s, step))
  {
    var s', x := Next(s, step), step.i;
    OrderingNothingStaysSound(s, s', p => p);
    forall i | 0 <= i < |s'.members| && s'.members[i].decision == KeepName
      ensures Stands(s', i)
    {
      assert Stands(s, i) && NoRival(s, i, x);
      StillHolds(s, s', p => p, s.members[i].name, s.members[i].log);
      EmptyIsBeaten(s, s', x, i);
      StandsAside(s, s', x, i);
    }
  }

  // ----- deciding -----

  lemma OneBeatsTheOther(c: Cluster, i: Host, j: Host)
    requires i < |c| && j < |c| && i != j
    ensures Beats(c, i, j) || Beats(c, j, i)
  {}

  /** A round that waives nobody and reads safe finds nobody that beats the member, so nobody who has already
      decided to keep the same name. */
  lemma SafeRoundHasNoRival(s: State, x: Host, j: Host)
    requires Inv(s) && x < |s.members| && j < |s.members| && j != x && SaysSafe(s, x, {})
    ensures !Beats(ClusterOf(s), j, x) && NoRival(s, x, j)
    ensures s.members[j].decision == KeepName ==> s.members[j].name != s.members[x].name
  {
    var c := ClusterOf(s);
    VerdictSafeExactly(c, x);
    OneBeatsTheOther(c, x, j);
    if s.members[j].decision == KeepName { assert Stands(s, j) && NoRival(s, j, x); }
    var log := s.members[j].log;
    assert log != [] ==> log[0] in log && log[0].gtid in Gtids(log);
  }

  lemma NewDecisionStands(s: State, x: Host)
    requires Inv(s) && x < |s.members| && SaysSafe(s, x, {}) && NameIsCovered(s, x, s.members[x].name)
    ensures Stands(s, x)
  {
    assert forall g: nat :: !Live(s, g);
    forall p, t | Exists(s, p) && t in LogAt(s, p) && t.gtid.source == s.members[x].name
      ensures t.gtid in Gtids(s.members[x].log)
    {
      assert p.OnVolume? && t in s.members[p.host].log && t.gtid in Gtids(s.members[p.host].log);
    }
    forall j | 0 <= j < |s.members| && j != x
      ensures NoRival(s, x, j)
    {
      SafeRoundHasNoRival(s, x, j);
    }
  }

  /** A verdict changes nothing but itself. */
  lemma OnlyDecides(s: State, s': State, x: Host, i: Host)
    requires x < |s.members| && i < |s.members| && |s'.members| == |s.members|
    requires s' == WithMember(s, x, s.members[x].(decision := s'.members[x].decision))
    requires Stands(s, i)
    requires i != x && s'.members[x].decision == KeepName ==> s.members[x].name != s.members[i].name
    ensures Stands(s', i)
  {
    forall g: nat | Live(s', g)
      ensures Live(s, g)
    {
      var j :| 0 <= j < |s'.members| && s'.members[j].mode == In(g);
      assert s.members[j].mode == In(g);
    }
    forall p, t | Exists(s', p) && t in LogAt(s', p) && t.gtid.source == s'.members[i].name
      ensures t.gtid in Gtids(s'.members[i].log)
    {
      assert Exists(s, p) && t in LogAt(s, p);
    }
    forall j | 0 <= j < |s'.members| && j != i
      ensures NoRival(s', i, j)
    {
      assert NoRival(s, i, j);
      BeatsAlike(s, s', i, j);
    }
  }

  lemma DecidingStaysSound(s: State, s': State, x: Host)
    requires Sound(s) && x < |s.members| && |s'.members| == |s.members|
    requires s' == WithMember(s, x, s.members[x].(decision := s'.members[x].decision))
    ensures Sound(s')
  {
    OrderingNothingStaysSound(s, s', p => p);
  }

  /** The one who decides takes nobody's place, and stands on its own round. */
  lemma JudgingLeavesStanding(s: State, s': State, x: Host, waived: set<Host>, i: Host)
    requires Inv(s) && x < |s.members| && SaysSafe(s, x, waived) && i < |s.members| && |s'.members| == |s.members|
    requires s' == WithMember(s, x, s.members[x].(decision := s'.members[x].decision))
    requires s'.members[x].decision == KeepName <==> waived == {}
    requires waived == {} ==> NameIsCovered(s, x, s.members[x].name)
    requires s'.members[i].decision == KeepName
    ensures Stands(s', i)
  {
    if i == x {
      NewDecisionStands(s, x);
    } else {
      assert Stands(s, i);
      if waived == {} { SafeRoundHasNoRival(s, x, i); }
    }
    OnlyDecides(s, s', x, i);
  }

  lemma JudgeKeepsInv(s: State, step: Step)
    requires Inv(s) && Enabled(s, step) && step.Judge? && Covered(s, step)
    ensures Inv(Next(s, step))
  {
    var s' := Next(s, step);
    DecidingStaysSound(s, s', step.i);
    forall i | 0 <= i < |s'.members| && s'.members[i].decision == KeepName
      ensures Stands(s', i)
    {
      JudgingLeavesStanding(s, s', step.i, step.waived, i);
    }
  }

  // ----- forming a group -----

  ghost predicate Forms(s: State, s': State, i: Host, name: string) {
    && i < |s.members| && s.members[i].mode == Between
    && |s'.members| == |s.members| && s' == Form(s, i, name, s'.members[i].generation)
    && NoneLive(s, name) && HoldsAllOf(s, name, s.members[i].log)
  }

  /** Where a place after the bootstrap has its log from. */
  function Origin(s: State, i: Host, p: Place): Place {
    if p == InGroup(|s.groups|) then OnVolume(i) else p
  }

  lemma FormedPlace(s: State, s': State, i: Host, name: string, p: Place)
    requires Forms(s, s', i, name) && Exists(s', p)
    ensures Exists(s, Origin(s, i, p)) && LogAt(s', p) == LogAt(s, Origin(s, i, p))
  {}

  lemma FormedNames(s: State, s': State, i: Host, name: string)
    requires Forms(s, s', i, name) && NamesKnown(s)
    ensures NamesKnown(s')
  {
    forall p, t | Exists(s', p) && t in LogAt(s', p)
      ensures t.gtid.source in s'.names
    {
      FormedPlace(s, s', i, name, p);
      assert t in LogAt(s, Origin(s, i, p));
    }
  }

  lemma FormedAgree(s: State, s': State, i: Host, name: string)
    requires Forms(s, s', i, name) && AllAgree(s)
    ensures AllAgree(s')
  {
    forall p | Exists(s', p)
      ensures Exists(s, Origin(s, i, p)) && LogAt(s', p) <= LogAt(s, Origin(s, i, p))
    {
      FormedPlace(s, s', i, name, p);
    }
    AgreementMoves(s, s', p => Origin(s, i, p));
  }

  /** Whoever held all that was minted under some name still does. */
  lemma FormedHolds(s: State, s': State, i: Host, name: string, held: string, log: Log)
    requires Forms(s, s', i, name) && HoldsAllOf(s, held, log)
    ensures HoldsAllOf(s', held, log)
  {
    forall p, t | Exists(s', p) && t in LogAt(s', p) && t.gtid.source == held
      ensures t.gtid in Gtids(log)
    {
      FormedPlace(s, s', i, name, p);
      assert t in LogAt(s, Origin(s, i, p));
    }
  }

  lemma FormedApart(s: State, s': State, i: Host, name: string)
    requires Forms(s, s', i, name) && Sound(s)
    ensures InTheirGroups(s')
    ensures forall g: nat | Live(s', g) :: g == |s.groups| || (Live(s, g) && s'.groups[g] == s.groups[g])
    ensures forall g: nat, h: nat | Live(s', g) && Live(s', h) && s'.groups[g].name == s'.groups[h].name :: g == h
  {
    assert forall g: nat | Live(s', g) && g != |s.groups| :: Live(s, g) && s'.groups[g] == s.groups[g];
  }

  lemma FormStaysSound(s: State, s': State, i: Host, name: string)
    requires Forms(s, s', i, name) && Sound(s)
    ensures Sound(s')
  {
    FormedNames(s, s', i, name);
    FormedAgree(s, s', i, name);
    FormedApart(s, s', i, name);
    forall g: nat | Live(s', g)
      ensures HoldsAllOf(s', s'.groups[g].name, s'.groups[g].log)
    {
      FormedHolds(s, s', i, name, s'.groups[g].name, s'.groups[g].log);
    }
  }

  lemma FreshNameIsHeld(s: State, name: string, log: Log)
    requires NamesKnown(s) && name !in s.names
    ensures NoneLive(s, name) && HoldsAllOf(s, name, log)
  {}

  lemma BootstrapForms(s: State, step: Step)
    requires Inv(s) && Enabled(s, step) && step.BootstrapGroup?
    ensures Forms(s, Next(s, step), step.i, step.name)
  {
    if s.members[step.i].decision == KeepName {
      assert Stands(s, step.i);
    } else {
      FreshNameIsHeld(s, step.name, s.members[step.i].log);
    }
  }

  /** Nobody else has decided to keep the name a group forms under. */
  lemma FormersRivalNobody(s: State, step: Step, i: Host)
    requires Inv(s) && Enabled(s, step) && step.BootstrapGroup?
    requires i < |s.members| && i != step.i && s.members[i].decision == KeepName
    ensures s.members[i].name != step.name
  {
    assert Stands(s, i) && NoRival(s, i, step.i);
  }

  lemma BootstrapKeepsInv(s: State, step: Step)
    requires Inv(s) && Enabled(s, step) && step.BootstrapGroup?
    ensures Inv(Next(s, step))
  {
    var s', x := Next(s, step), step.i;
    BootstrapForms(s, step);
    FormStaysSound(s, s', x, step.name);
    FormedApart(s, s', x, step.name);
    forall i | 0 <= i < |s'.members| && s'.members[i].decision == KeepName
      ensures Stands(s', i)
    {
      assert Stands(s, i);
      FormersRivalNobody(s, step, i);
      FormedHolds(s, s', x, step.name, s.members[i].name, s.members[i].log);
      StandsAside(s, s', x, i);
    }
  }

  // ----- minting -----

  ghost predicate Mints(s: State, s': State, i: Host, t: Txn) {
    && i < |s.members| && Enabled(s, Write(i, t)) && s' == Next(s, Write(i, t))
  }

  /** Where the transaction is afterwards: the writer's volume, and its group. */
  predicate HoldsTheNew(s: State, i: Host, p: Place)
    requires i < |s.members| && s.members[i].mode.In?
  {
    p == OnVolume(i) || p == InGroup(s.members[i].mode.gid)
  }

  lemma MintedPlace(s: State, s': State, i: Host, t: Txn, p: Place)
    requires Mints(s, s', i, t) && Exists(s', p)
    ensures Exists(s, p)
    ensures LogAt(s', p) == if HoldsTheNew(s, i, p) then LogAt(s, p) + [t] else LogAt(s, p)
    ensures HoldsTheNew(s, i, p) ==> LogAt(s, p) == s.groups[s.members[i].mode.gid].log
  {}

  /** A number free in the one live group of that name is free everywhere. */
  lemma MintedIsNew(s: State, s': State, i: Host, t: Txn, p: Place)
    requires Sound(s) && Mints(s, s', i, t) && Exists(s, p)
    ensures t.gtid !in Gtids(LogAt(s, p))
  {
    LiveByMember(s, i);
    assert HoldsAllOf(s, t.gtid.source, s.groups[s.members[i].mode.gid].log);
  }

  lemma AppendAgrees(a: Log, b: Log, t: Txn)
    requires Agree(a, b) && Agree(b, a) && t.gtid !in Gtids(a) && t.gtid !in Gtids(b)
    ensures Agree(a + [t], b) && Agree(b, a + [t])
  {
    assert forall q | 0 <= q < |b| :: b[q] in b && b[q].gtid in Gtids(b);
    forall p, q | 0 <= p < |a + [t]| && 0 <= q < |b| && (a + [t])[p].gtid == b[q].gtid
      ensures p == q && (a + [t])[..p + 1] == b[..q + 1]
    {
      assert p < |a| && (a + [t])[..p + 1] == a[..p + 1];
      assert a[p].gtid == b[q].gtid;
    }
    forall p, q | 0 <= p < |b| && 0 <= q < |a + [t]| && b[p].gtid == (a + [t])[q].gtid
      ensures p == q && b[..p + 1] == (a + [t])[..q + 1]
    {
      assert q < |a| && (a + [t])[..q + 1] == a[..q + 1];
      assert b[p].gtid == a[q].gtid;
    }
  }

  lemma AppendAgreesWithItself(a: Log, t: Txn)
    requires Agree(a, a) && t.gtid !in Gtids(a)
    ensures Agree(a + [t], a + [t])
  {
    assert forall q | 0 <= q < |a| :: a[q] in a && a[q].gtid in Gtids(a);
    forall p, q | 0 <= p < |a + [t]| && 0 <= q < |a + [t]| && (a + [t])[p].gtid == (a + [t])[q].gtid
      ensures p == q
    {
      if p < |a| && q < |a| { assert a[p].gtid == a[q].gtid; }
    }
  }

  lemma MintedAgree(s: State, s': State, i: Host, t: Txn)
    requires Sound(s) && Mints(s, s', i, t)
    ensures AllAgree(s')
  {
    forall p, q | Exists(s', p) && Exists(s', q)
      ensures Agree(LogAt(s', p), LogAt(s', q))
    {
      MintedPlace(s, s', i, t, p);
      MintedPlace(s, s', i, t, q);
      MintedIsNew(s, s', i, t, p);
      MintedIsNew(s, s', i, t, q);
      var a, b := LogAt(s, p), LogAt(s, q);
      if HoldsTheNew(s, i, p) && HoldsTheNew(s, i, q) {
        AppendAgreesWithItself(a, t);
      } else if HoldsTheNew(s, i, p) {
        AppendAgrees(a, b, t);
      } else if HoldsTheNew(s, i, q) {
        AppendAgrees(b, a, t);
      }
    }
  }

  lemma MintedHolds(s: State, s': State, i: Host, t: Txn, g: nat)
    requires Sound(s) && Mints(s, s', i, t) && Live(s', g)
    ensures Live(s, g) && HoldsAllOf(s', s'.groups[g].name, s'.groups[g].log)
  {
    LiveByMember(s, i);
    var mine := s.members[i].mode.gid;
    assert Live(s, g);
    assert Gtids(s.groups[mine].log + [t]) == Gtids(s.groups[mine].log) + {t.gtid};
    forall p, u | Exists(s', p) && u in LogAt(s', p) && u.gtid.source == s'.groups[g].name
      ensures u.gtid in Gtids(s'.groups[g].log)
    {
      MintedPlace(s, s', i, t, p);
      assert u != t ==> u in LogAt(s, p);
    }
  }

  lemma MintStaysSound(s: State, s': State, i: Host, t: Txn)
    requires Sound(s) && Mints(s, s', i, t)
    ensures Sound(s')
  {
    MintedAgree(s, s', i, t);
    MintedNames(s, s', i, t);
    forall g: nat | Live(s', g)
      ensures Live(s, g) && HoldsAllOf(s', s'.groups[g].name, s'.groups[g].log)
    {
      MintedHolds(s, s', i, t, g);
    }
  }

  /** Writing under one name touches nothing held of another. */
  lemma MintedElsewhere(s: State, s': State, i: Host, t: Txn, held: string, log: Log)
    requires Mints(s, s', i, t) && HoldsAllOf(s, held, log) && t.gtid.source != held
    ensures HoldsAllOf(s', held, log)
  {
    forall p, u | Exists(s', p) && u in LogAt(s', p) && u.gtid.source == held
      ensures u.gtid in Gtids(log)
    {
      MintedPlace(s, s', i, t, p);
      assert u in LogAt(s, p);
    }
  }

  lemma WriteKeepsInv(s: State, step: Step)
    requires Inv(s) && Enabled(s, step) && step.Write?
    ensures Inv(Next(s, step))
  {
    var s', x, t := Next(s, step), step.i, step.t;
    assert Mints(s, s', x, t);
    LiveByMember(s, x);
    MintStaysSound(s, s', x, t);
    forall i | 0 <= i < |s'.members| && s'.members[i].decision == KeepName
      ensures Stands(s', i)
    {
      assert Stands(s, i);
      assert s.members[i].name != t.gtid.source;
      MintedElsewhere(s, s', x, t, s.members[i].name, s.members[i].log);
      NamesStay(s, s', x, t, s.members[i].name);
      StandsAside(s, s', x, i);
    }
  }

  lemma NamesStay(s: State, s': State, i: Host, t: Txn, name: string)
    requires Mints(s, s', i, t) && NoneLive(s, name)
    ensures NoneLive(s', name) && s'.members[i].name == s.members[i].name
  {
    forall g: nat | Live(s', g)
      ensures Live(s, g) && s'.groups[g].name == s.groups[g].name
    {
      var j :| 0 <= j < |s'.members| && s'.members[j].mode == In(g);
      assert s.members[j].mode == In(g);
    }
  }

  lemma MintedNames(s: State, s': State, i: Host, t: Txn)
    requires Sound(s) && Mints(s, s', i, t)
    ensures NamesKnown(s') && InTheirGroups(s')
  {
    forall p, u | Exists(s', p) && u in LogAt(s', p)
      ensures u.gtid.source in s'.names
    {
      MintedPlace(s, s', i, t, p);
      assert u != t ==> u in LogAt(s, p);
    }
  }

  // ----- runs -----

  /** Every step keeps agreement and every decision standing, provided a round that waives nobody and reads safe
      is covered. */
  lemma StepKeepsInv(s: State, step: Step)
    requires Inv(s) && Enabled(s, step) && Covered(s, step)
    ensures Inv(Next(s, step))
  {
    match step
    case Judge(_, _) => JudgeKeepsInv(s, step);
    case BootstrapGroup(_, _) => BootstrapKeepsInv(s, step);
    case Adopt(_, _) => AdoptKeepsInv(s, step);
    case Join(_, _) => JoinKeepsInv(s, step);
    case ApplyNext(_) => ApplyKeepsInv(s, step);
    case Reclone(_, _) => RecloneKeepsInv(s, step);
    case Write(_, _) => WriteKeepsInv(s, step);
    case Flag(_) => FlagKeepsInv(s, step);
    case LoseVolume(_) => LoseVolumeKeepsInv(s, step);
    case _ => StopKeepsInv(s, step);
  }

  ghost predicate RunOf(run: seq<State>, steps: seq<Step>) {
    && |run| == |steps| + 1 && Initial(run[0])
    && forall k | 0 <= k < |steps| :: StepsTo(run, steps, k)
  }

  predicate StepsTo(run: seq<State>, steps: seq<Step>, k: nat)
    requires |run| == |steps| + 1 && k < |steps|
  {
    Enabled(run[k], steps[k]) && run[k + 1] == Next(run[k], steps[k])
  }

  /** Every round so far whose verdict was to keep the name was covered. */
  predicate CoveredUpTo(run: seq<State>, steps: seq<Step>, k: nat)
    requires |run| == |steps| + 1 && k < |run|
  {
    forall h | 0 <= h < k :: Covered(run[h], steps[h])
  }

  lemma {:induction false} RunsKeepInv(run: seq<State>, steps: seq<Step>, k: nat)
    requires RunOf(run, steps) && k < |run| && CoveredUpTo(run, steps, k)
    ensures Inv(run[k])
  {
    if k > 0 {
      RunsKeepInv(run, steps, k - 1);
      assert StepsTo(run, steps, k - 1) && Covered(run[k - 1], steps[k - 1]);
      StepKeepsInv(run[k - 1], steps[k - 1]);
    }
  }

  /** Whatever is waived, forked, lost or recloned, and however long after its round a verdict is acted on: while
      the rounds that keep a name are covered, a GTID set contained in another belongs to a log that is a
      prefix of the other. No fork hides behind equal identities. */
  lemma ComparableSetsArePrefixes(run: seq<State>, steps: seq<Step>, k: nat, p: Place, q: Place)
    requires RunOf(run, steps) && k < |run| && CoveredUpTo(run, steps, k)
    requires Exists(run[k], p) && Exists(run[k], q)
    requires Gtids(LogAt(run[k], p)) <= Gtids(LogAt(run[k], q))
    ensures LogAt(run[k], p) <= LogAt(run[k], q)
  {
    RunsKeepInv(run, steps, k);
    ContainedSetsArePrefixes(LogAt(run[k], p), LogAt(run[k], q));
  }

  // ----- and when they cannot -----

  /** Two members hold different transactions under one identity. */
  predicate Collide(s: State, i: Host, j: Host, t: Txn, u: Txn) {
    && i < |s.members| && j < |s.members| && t in s.members[i].log && u in s.members[j].log
    && t.gtid == u.gtid && t != u
  }

  lemma CollisionsDisagree(s: State, i: Host, j: Host, t: Txn, u: Txn)
    requires Collide(s, i, j, t, u)
    ensures !AllAgree(s)
  {
    var a, b := s.members[i].log, s.members[j].log;
    var p :| 0 <= p < |a| && a[p] == t;
    var q :| 0 <= q < |b| && b[q] == u;
    assert Exists(s, OnVolume(i)) && Exists(s, OnVolume(j));
    assert a[..p + 1][p] == t && b[..q + 1][q] == u;
  }

  /** Forming a group under a name some of whose identities it lacks, a member can mint one of them again with
      its very first write. This is why a waiver mints a fresh name: the peer it waives may hold such a tail. */
  lemma UncoveredNameCollides(s: State, i: Host, name: string, generation: nat) returns (t: Txn, j: Host, u: Txn)
    requires i < |s.members| && !NameIsCovered(s, i, name)
    ensures var formed := Form(s, i, name, generation);
      Enabled(formed, Write(i, t)) && Collide(Next(formed, Write(i, t)), i, j, t, u)
  {
    var k: nat, x :| k < |s.members| && x in Gtids(s.members[k].log) && x.source == name
      && x !in Gtids(s.members[i].log);
    j := k;
    u :| u in s.members[j].log && u.gtid == x;
    t := Txn(x, u.work + 1);
    var formed := Form(s, i, name, generation);
    var after := Next(formed, Write(i, t));
    assert after.members[i].log == s.members[i].log + [t] && after.members[j].log == s.members[j].log;
  }

  /** A verdict acted on at once, and the first write after it. */
  function ActedOn(s: State, i: Host, waived: set<Host>, name: string): State
    requires Enabled(s, Judge(i, waived)) && Enabled(Next(s, Judge(i, waived)), BootstrapGroup(i, name))
  {
    Next(Next(s, Judge(i, waived)), BootstrapGroup(i, name))
  }

  /** The exact condition: a round that keeps the name can be trusted with whatever is written next if and only
      if no peer in it holds an identity minted under that name that the member lacks. */
  lemma KeptNameIsSafeExactly(s: State, i: Host)
    requires Inv(s) && i < |s.members| && Enabled(s, Judge(i, {}))
    ensures Enabled(Next(s, Judge(i, {})), BootstrapGroup(i, s.members[i].name))
    ensures NameIsCovered(s, i, s.members[i].name) <==>
      var formed := ActedOn(s, i, {}, s.members[i].name);
      forall t | Enabled(formed, Write(i, t)) :: AllAgree(Next(formed, Write(i, t)))
  {
    var decided, name := Next(s, Judge(i, {})), s.members[i].name;
    var formed := Next(decided, BootstrapGroup(i, name));
    if NameIsCovered(s, i, name) {
      StepKeepsInv(s, Judge(i, {}));
      StepKeepsInv(decided, BootstrapGroup(i, name));
      forall t | Enabled(formed, Write(i, t))
        ensures AllAgree(Next(formed, Write(i, t)))
      {
        StepKeepsInv(formed, Write(i, t));
      }
    } else {
      UncoveredStays(s, decided, i, name);
      var t, j, u := UncoveredNameCollides(decided, i, name, s.members[i].generation);
      CollisionsDisagree(Next(formed, Write(i, t)), i, j, t, u);
    }
  }

  lemma UncoveredStays(s: State, s': State, i: Host, name: string)
    requires i < |s.members| && !NameIsCovered(s, i, name)
    requires |s'.members| == |s.members|
    requires s' == WithMember(s, i, s.members[i].(decision := s'.members[i].decision))
    ensures !NameIsCovered(s', i, name)
  {
    var k: nat, x :| k < |s.members| && x in Gtids(s.members[k].log) && x.source == name
      && x !in Gtids(s.members[i].log);
    assert s'.members[k].log == s.members[k].log && s'.members[i].log == s.members[i].log;
  }

  /** Only winning over a diverged peer can leave a kept name uncovered: every other verdict of safety means
      holding all the peers hold. */
  lemma OnlyADivergedPeerUncovers(s: State, i: Host) returns (j: Host)
    requires i < |s.members| && Enabled(s, Judge(i, {})) && !NameIsCovered(s, i, s.members[i].name)
    ensures j < |s.members| && j != i
    ensures var mine, theirs := s.members[i], s.members[j];
      && !(Gtids(theirs.log) <= Gtids(mine.log)) && !(Gtids(mine.log) <= Gtids(theirs.log))
      && !DivergedPeerWins(mine.generation, i, theirs.generation, j)
  {
    VerdictSafeExactly(ClusterOf(s), i);
    var k: nat, x :| k < |s.members| && x in Gtids(s.members[k].log) && x.source == s.members[i].name
      && x !in Gtids(s.members[i].log);
    j := k;
    assert !Beats(ClusterOf(s), j, i);
  }

  /** One above the greatest, and no more. */
  lemma MintedIsNext(s: State, i: Host, waived: set<Host>)
    requires i < |s.members| && i !in waived
    ensures var minted := NextGeneration(s.members[i].generation, Generations(Considered(ClusterOf(s), i, waived)));
      exists k | 0 <= k < |s.members| && k !in waived :: minted == s.members[k].generation + 1
  {
    var c := ClusterOf(s);
    var answers := Considered(c, i, waived);
    var g := Generations(answers);
    if s.members[i].generation < MaxOf(g) {
      var k :| 0 <= k < |g| && g[k] == MaxOf(g);
      assert answers[k] in answers;
      var peer := answers[k].0;
      assert peer < |c| && peer !in waived && answers[k].1 == Advert(c[peer]);
      assert s.members[peer].generation == MaxOf(g);
    }
  }

  /** A waiver bootstrap is the authority over its own past and over every peer its round considered: whichever
      of those histories turns out to have diverged, the new one wins. */
  lemma AWaiverIsTheAuthority(s: State, i: Host, waived: set<Host>, name: string, j: Host, rank: Host)
    requires Enabled(s, Judge(i, waived)) && waived != {} && name !in s.names
    requires j < |s.members| && j !in waived
    ensures Enabled(Next(s, Judge(i, waived)), BootstrapGroup(i, name))
    ensures var minted := ActedOn(s, i, waived, name).members[i].generation;
      && minted > s.members[j].generation && minted > s.members[i].generation
      && DivergedPeerWins(s.members[j].generation, j, minted, rank)
      && !DivergedPeerWins(minted, rank, s.members[j].generation, j)
    ensures var minted := ActedOn(s, i, waived, name).members[i].generation;
      exists k | 0 <= k < |s.members| && k !in waived :: minted == s.members[k].generation + 1
  {
    MintedIsNext(s, i, waived);
    if j != i {
      var c := ClusterOf(s);
      var answers := Considered(c, i, waived);
      assert (j, Advert(c[j])) in answers;
      var k :| 0 <= k < |answers| && answers[k] == (j, Advert(c[j]));
      assert Generations(answers)[k] == s.members[j].generation;
    }
  }

  // ----- a fork nobody sees -----

  ghost predicate Reachable(s: State) {
    exists run, steps :: RunOf(run, steps) && run[|steps|] == s
  }

  lemma StartIsReachable(s: State)
    requires Initial(s)
    ensures Reachable(s)
  {
    assert RunOf([s], []) && [s][0] == s;
  }

  lemma OneStepMore(run: seq<State>, steps: seq<Step>, step: Step, k: nat)
    requires |run| == |steps| + 1 && k <= |steps| && Enabled(run[|steps|], step)
    requires k < |steps| ==> StepsTo(run, steps, k)
    ensures StepsTo(run + [Next(run[|steps|], step)], steps + [step], k)
  {}

  lemma StepIsReachable(s: State, step: Step)
    requires Reachable(s) && Enabled(s, step)
    ensures Reachable(Next(s, step))
  {
    var run, steps :| RunOf(run, steps) && run[|steps|] == s;
    var run', steps' := run + [Next(s, step)], steps + [step];
    forall k | 0 <= k < |steps'|
      ensures StepsTo(run', steps', k)
    {
      OneStepMore(run, steps, step, k);
    }
    assert run'[0] == run[0] && RunOf(run', steps');
    assert run'[|steps'|] == Next(s, step);
  }

  /** One of two members waives the other: whatever the other holds, the round is empty and safe. */
  lemma WaivesTheOther(s: State, i: Host, j: Host)
    requires |s.members| == 2 && i + j == 1 && s.members[i].mode == Between
    ensures Enabled(s, Judge(i, {j}))
    ensures Next(s, Judge(i, {j})) ==
      WithMember(s, i, s.members[i].(decision := FreshName(s.members[i].generation + 1)))
  {
    var c := ClusterOf(s);
    FilterKeepsNone(FullRound(c, i), (a: (Host, PeerAnswer)) => a.0 !in {j});
    assert Considered(c, i, {j}) == [];
    SafeExactly(SelfOf(c, i), []);
  }

  /** Both have decided, each having waived the other. */
  function BothDecided(s: State): State
    requires |s.members| == 2
  {
    s.(members := [s.members[0].(decision := FreshName(s.members[0].generation + 1)),
                   s.members[1].(decision := FreshName(s.members[1].generation + 1))])
  }

  lemma BothWaive(s: State)
    requires |s.members| == 2 && s.members[0].mode == Between && s.members[1].mode == Between
    ensures Enabled(s, Judge(0, {1})) && Enabled(Next(s, Judge(0, {1})), Judge(1, {0}))
    ensures Next(Next(s, Judge(0, {1})), Judge(1, {0})) == BothDecided(s)
  {
    WaivesTheOther(s, 0, 1);
    var one := Next(s, Judge(0, {1}));
    WaivesTheOther(one, 1, 0);
    assert Next(one, Judge(1, {0})).members == BothDecided(s).members;
  }

  /** Two members that waive each other then lead a group each, and mint equal generations exactly when theirs
      were equal; seed order then decides which of the two histories is the authority. */
  lemma MutualWaiversTieExactly(s: State, name: string, other: string)
    requires |s.members| == 2 && s.members[0].mode == Between && s.members[1].mode == Between
    requires name !in s.names && other !in s.names && name != other
    ensures Enabled(s, Judge(0, {1})) && Enabled(Next(s, Judge(0, {1})), Judge(1, {0}))
    ensures var decided := Next(Next(s, Judge(0, {1})), Judge(1, {0}));
      && Enabled(decided, BootstrapGroup(0, name))
      && Enabled(Next(decided, BootstrapGroup(0, name)), BootstrapGroup(1, other))
      && var both := Next(Next(decided, BootstrapGroup(0, name)), BootstrapGroup(1, other));
      && both.members[0].mode == In(|s.groups|) && both.members[1].mode == In(|s.groups| + 1)
      && (both.members[0].generation == both.members[1].generation
          <==> s.members[0].generation == s.members[1].generation)
      && (s.members[0].generation == s.members[1].generation ==>
            !DivergedPeerWins(both.members[0].generation, 0, both.members[1].generation, 1))
  {
    BothWaive(s);
  }

  lemma ActsOnItsVerdict(s: State, i: Host, waived: set<Host>, name: string, generation: nat)
    requires Reachable(s) && Enabled(s, Judge(i, waived))
    requires if waived == {} then name == s.members[i].name && generation == s.members[i].generation
             else name !in s.names && Next(s, Judge(i, waived)).members[i].decision == FreshName(generation)
    ensures Reachable(Form(s, i, name, generation))
  {
    var decided := Next(s, Judge(i, waived));
    StepIsReachable(s, Judge(i, waived));
    StepIsReachable(decided, BootstrapGroup(i, name));
    assert Next(decided, BootstrapGroup(i, name)).members == Form(s, i, name, generation).members;
    assert Next(decided, BootstrapGroup(i, name)) == Form(s, i, name, generation);
  }

  /** A bootstrap and the first write after it. */
  function FormedAndWritten(s: State, i: Host, name: string, generation: nat, t: Txn): State
    requires i < |s.members|
  {
    var m := s.members[i];
    var log := m.log + [t];
    State(s.members[i := m.(log := log, name := name, generation := generation, mode := In(|s.groups|),
                            decision := Undecided)],
          s.groups + [Incarnation(name, log)], s.names + {name}, s.derived)
  }

  lemma FormsAndWrites(s: State, i: Host, name: string, generation: nat, t: Txn)
    requires i < |s.members| && Reachable(Form(s, i, name, generation))
    requires t.gtid.source == name && t.gtid !in Gtids(s.members[i].log)
    ensures Reachable(FormedAndWritten(s, i, name, generation, t))
  {
    var formed := Form(s, i, name, generation);
    var n := |s.groups|;
    assert formed.groups[n := Incarnation(name, s.members[i].log + [t])]
      == s.groups + [Incarnation(name, s.members[i].log + [t])];
    assert formed.members[i] == s.members[i].(name := name, generation := generation, mode := In(n),
                                                decision := Undecided);
    StepIsReachable(formed, Write(i, t));
    assert Next(formed, Write(i, t)).members == FormedAndWritten(s, i, name, generation, t).members;
    assert Next(formed, Write(i, t)) == FormedAndWritten(s, i, name, generation, t);
  }

  function Minted(name: string, work: nat): Txn {
    Txn(Gtid(name, 1), work)
  }

  /** The first member is down and holds a transaction the second lacks. */
  function BeforeTheFork(name: string): State {
    State([Member([Minted(name, 0)], name, 0, Down, false, false, Undecided),
           Member([], name, 0, Between, false, false, Undecided)],
          [], {name}, name)
  }

  lemma BeforeTheForkIsInitial(name: string)
    ensures Initial(BeforeTheFork(name))
  {}

  /** The second member waived the first and wrote under a fresh name: an open fork. */
  function Forked(name: string, newName: string): State {
    State([Member([Minted(name, 0)], name, 0, Down, false, false, Undecided),
           Member([Minted(newName, 0)], newName, 1, In(0), false, false, Undecided)],
          [Incarnation(newName, [Minted(newName, 0)])], {name, newName}, name)
  }

  lemma WaiverForks(name: string, newName: string)
    requires name != newName
    ensures Reachable(Forked(name, newName))
  {
    var s := BeforeTheFork(name);
    BeforeTheForkIsInitial(name);
    StartIsReachable(s);
    WaivesTheOther(s, 1, 0);
    ActsOnItsVerdict(s, 1, {0}, newName, 1);
    FormsAndWrites(s, 1, newName, 1, Minted(newName, 0));
    ForkedIs(name, newName);
  }

  lemma ForkedIs(name: string, newName: string)
    ensures FormedAndWritten(BeforeTheFork(name), 1, newName, 1, Minted(newName, 0)) == Forked(name, newName)
  {
    var s, t := FormedAndWritten(BeforeTheFork(name), 1, newName, 1, Minted(newName, 0)), Forked(name, newName);
    assert [] + [Minted(newName, 0)] == [Minted(newName, 0)];
    assert s.members[0] == t.members[0] && s.members[1] == t.members[1];
    assert s.members == t.members;
    assert s.groups[0] == t.groups[0];
    assert s.groups == t.groups && s.names == t.names;
  }

  /** A waiver forks the history, and the fork shows: neither set contains the other. */
  lemma AWaiverForksInTheOpen(name: string, newName: string)
    requires name != newName
    ensures Reachable(Forked(name, newName))
    ensures var a, b := Gtids(Forked(name, newName).members[0].log), Gtids(Forked(name, newName).members[1].log);
      !(a <= b) && !(b <= a)
  {
    WaiverForks(name, newName);
    var t, u := Minted(name, 0), Minted(newName, 0);
    assert t in [t] && u in [u] && t.gtid in Gtids([t]) && u.gtid in Gtids([u]);
    assert t.gtid !in Gtids([u]) && u.gtid !in Gtids([t]);
  }

  /** The first member came back and adopted the live group's identity; before it was recloned, that group
      went down. */
  function AdoptedNotRecloned(name: string, newName: string): State {
    State([Member([Minted(name, 0)], newName, 1, Between, false, false, Undecided),
           Member([Minted(newName, 0)], newName, 1, Between, false, false, Undecided)],
          [Incarnation(newName, [Minted(newName, 0)])], {name, newName}, name)
  }

  lemma AdoptsWithoutTheData(name: string, newName: string)
    requires name != newName
    ensures Reachable(AdoptedNotRecloned(name, newName))
  {
    var s := Forked(name, newName);
    WaiverForks(name, newName);
    StepIsReachable(s, Boot(0));
    var back := Next(s, Boot(0));
    StepIsReachable(back, Adopt(0, 1));
    var adopted := Next(back, Adopt(0, 1));
    StepIsReachable(adopted, Stop(1, false));
    assert Next(adopted, Stop(1, false)) == AdoptedNotRecloned(name, newName);
  }

  /** Of two diverged members of one generation the first may bootstrap, under the name it adopted. */
  lemma FirstDivergedMayBootstrap(s: State)
    requires |s.members| == 2 && s.members[0].mode == Between && s.members[1].mode == Between
    requires s.members[0].generation == s.members[1].generation
    requires !(Gtids(s.members[1].log) <= Gtids(s.members[0].log))
      && !(Gtids(s.members[0].log) <= Gtids(s.members[1].log))
    ensures Enabled(s, Judge(0, {}))
  {
    VerdictSafeExactly(ClusterOf(s), 0);
  }

  /** It then mints, for other work, the very identity the second member holds. */
  function Collided(name: string, newName: string): State {
    var log := [Minted(name, 0), Minted(newName, 1)];
    State([Member(log, newName, 1, In(1), false, false, Undecided),
           Member([Minted(newName, 0)], newName, 1, Between, false, false, Undecided)],
          [Incarnation(newName, [Minted(newName, 0)]), Incarnation(newName, log)], {name, newName}, name)
  }

  lemma MintsItAgain(name: string, newName: string)
    requires name != newName
    ensures Reachable(Collided(name, newName))
    ensures !NameIsCovered(AdoptedNotRecloned(name, newName), 0, newName)
  {
    var s := AdoptedNotRecloned(name, newName);
    AdoptsWithoutTheData(name, newName);
    AWaiverForksInTheOpen(name, newName);
    FirstDivergedMayBootstrap(s);
    ActsOnItsVerdict(s, 0, {}, newName, 1);
    FormsAndWrites(s, 0, newName, 1, Minted(newName, 1));
    CollidedIs(name, newName);
  }

  lemma CollidedIs(name: string, newName: string)
    ensures FormedAndWritten(AdoptedNotRecloned(name, newName), 0, newName, 1, Minted(newName, 1))
      == Collided(name, newName)
  {
    var s := FormedAndWritten(AdoptedNotRecloned(name, newName), 0, newName, 1, Minted(newName, 1));
    var t := Collided(name, newName);
    assert [Minted(name, 0)] + [Minted(newName, 1)] == [Minted(name, 0), Minted(newName, 1)];
    assert s.members[0] == t.members[0] && s.members[1] == t.members[1];
    assert s.members == t.members;
    assert s.groups[0] == t.groups[0] && s.groups[1] == t.groups[1];
    assert s.groups == t.groups && s.names == t.names;
  }

  /** Admitted by its set, with a log that is no prefix of the group's: the fork nobody sees. A diverged member
      that adopted the live group's name and was not recloned before that group went down is enough. */
  lemma AdoptingBeforeRecloningForksInvisibly(name: string, newName: string) returns (s: State)
    requires name != newName
    ensures Reachable(s) && |s.members| == 2 && s.members[1].mode == In(1) && Live(s, 1)
    ensures Gtids(s.members[1].log) <= Gtids(s.groups[1].log) && !(s.members[1].log <= s.groups[1].log)
  {
    MintsItAgain(name, newName);
    var before := Collided(name, newName);
    var log := before.groups[1].log;
    assert log[1] in log && Minted(newName, 1).gtid in Gtids(log);
    assert Gtids([Minted(newName, 0)]) <= Gtids(log);
    StepIsReachable(before, Join(1, 0));
    s := Next(before, Join(1, 0));
    assert s.members[1].log[0] != log[0];
  }
}
