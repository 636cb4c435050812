/** The bootstrap guard: what one node concludes from one round of peer answers, and what
    the verdicts of all nodes taken together can and cannot be. */
module Bootstrap {
  import opened Common
  import opened Peers

  /** How a peer's dataset relates to this node's. */
  datatype PeerRelation = Behind | Equal(preGtidData: bool) | Ahead | Diverged | Unknown

  datatype PeerStanding = PeerStanding(host: Host, relation: PeerRelation)

  datatype BootstrapVerdict =
    | JoinExistingGroup
    | SafeToBootstrap
    | PeerIsMoreAdvanced(host: Host)
    | DeferToPeer(host: Host)
    | DivergedFrom(host: Host)
    | Undecidable

  /** What a node knows about itself when it judges a round. `fileMarker` is the pre-GTID
      marker on its own volume, the only such flag `Decide` looks at on its own side. */
  datatype Self = Self(rank: Host, gtids: GtidSet, generation: nat, fileMarker: bool)

  // ----- the decision -----

  predicate DivergedPeerWins(myGeneration: nat, myRank: Host, peerGeneration: nat, peerRank: Host) {
    if peerGeneration > myGeneration then true
    else if peerGeneration < myGeneration then false
    else peerRank < myRank
  }

  /** A peer that ties this node's dataset takes the job from it. */
  predicate TiedPeerWins(myPreGtid: bool, myRank: Host, peerPreGtid: bool, peerRank: Host) {
    match (peerPreGtid, myPreGtid)
    case (true, false) => true
    case (false, true) => false
    case _ => peerRank < myRank
  }

  function Decide(myPreGtid: bool, myRank: Host, peers: seq<PeerStanding>): BootstrapVerdict {
    if exists p | p in peers :: p.relation == Unknown then Undecidable
    else
      match Find(peers, (p: PeerStanding) => p.relation == Diverged)
      case Some(p) => DivergedFrom(p.host)
      case None =>
        match Find(peers, (p: PeerStanding) => p.relation == Ahead)
        case Some(p) => PeerIsMoreAdvanced(p.host)
        case None =>
          match Find(peers, (p: PeerStanding) =>
            p.relation.Equal? && TiedPeerWins(myPreGtid, myRank, p.relation.preGtidData, p.host))
          case Some(p) => DeferToPeer(p.host)
          case None => SafeToBootstrap
  }

  function Relate(me: Self, host: Host, answer: PeerAnswer): PeerRelation {
    if answer.Answered? && answer.state.gtidExecuted.Some? then
      var peer := answer.state.gtidExecuted.value;
      match (peer <= me.gtids, me.gtids <= peer)
      case (true, true) => Equal(answer.state.preGtidData)
      case (true, false) => Behind
      case (false, true) => Ahead
      case (false, false) =>
        if DivergedPeerWins(me.generation, me.rank, answer.state.waiverGeneration, host) then Ahead else Behind
    else Unknown
  }

  type Answers = seq<(Host, PeerAnswer)>

  predicate SomeoneHasAGroup(answers: Answers) {
    exists a | a in answers :: a.1.Answered? && a.1.state.groupActive
  }

  function Standings(me: Self, answers: Answers): seq<PeerStanding> {
    seq(|answers|, k requires 0 <= k < |answers| =>
      PeerStanding(answers[k].0, Relate(me, answers[k].0, answers[k].1)))
  }

  function ClassifyRound(me: Self, answers: Answers): BootstrapVerdict {
    if SomeoneHasAGroup(answers) then JoinExistingGroup
    else Decide(me.fileMarker, me.rank, Standings(me, answers))
  }

  // ----- what a verdict means -----

  /** The peer's answer takes the job from `me`: a larger dataset, a diverged one with more
      authority, or an equal one that precedes it. */
  predicate Outranks(me: Self, host: Host, peer: GrState)
    requires peer.gtidExecuted.Some?
  {
    var theirs := peer.gtidExecuted.value;
    if theirs == me.gtids then TiedPeerWins(me.fileMarker, me.rank, peer.preGtidData, host)
    else if me.gtids < theirs then true
    else if theirs < me.gtids then false
    else DivergedPeerWins(me.generation, me.rank, peer.waiverGeneration, host)
  }

  /** A peer that can be compared and outranks nobody. */
  predicate Concedes(me: Self, a: (Host, PeerAnswer)) {
    && a.1.Answered?
    && !a.1.state.groupActive
    && a.1.state.gtidExecuted.Some?
    && !Outranks(me, a.0, a.1.state)
  }

  /** A node may bootstrap exactly when every peer it asked answered, holds no group, can be
      compared, and concedes. */
  lemma SafeExactly(me: Self, answers: Answers)
    ensures ClassifyRound(me, answers) == SafeToBootstrap <==> forall a | a in answers :: Concedes(me, a)
  {
    var ps := Standings(me, answers);
    forall a | a in answers
      ensures PeerStanding(a.0, Relate(me, a.0, a.1)) in ps
    {
      var k :| 0 <= k < |answers| && answers[k] == a;
      assert ps[k] == PeerStanding(a.0, Relate(me, a.0, a.1));
    }
    if forall a | a in answers :: Concedes(me, a) {
      forall p | p in ps
        ensures p.relation.Behind?
          || (p.relation.Equal? && !TiedPeerWins(me.fileMarker, me.rank, p.relation.preGtidData, p.host))
      {
        var k :| 0 <= k < |ps| && ps[k] == p;
        assert Concedes(me, answers[k]);
      }
    }
  }

  /** A loser names a peer it actually asked, whose answer outranks it. */
  lemma LoserNamesAnOutrankingPeer(me: Self, answers: Answers)
    requires ClassifyRound(me, answers).PeerIsMoreAdvanced? || ClassifyRound(me, answers).DeferToPeer?
    ensures exists a | a in answers ::
      && a.0 == ClassifyRound(me, answers).host
      && a.1.Answered? && a.1.state.gtidExecuted.Some?
      && Outranks(me, a.0, a.1.state)
  {
    var ps := Standings(me, answers);
    var host := ClassifyRound(me, answers).host;
    var p :| p in ps && p.host == host
      && (p.relation == Ahead
          || (p.relation.Equal? && TiedPeerWins(me.fileMarker, me.rank, p.relation.preGtidData, p.host)));
    var k :| 0 <= k < |ps| && ps[k] == p;
    assert answers[k] in answers;
  }

  /** Divergence never reaches `Decide`: it has been resolved by generation and seed rank. */
  lemma DivergenceIsAlwaysResolved(me: Self, answers: Answers)
    ensures !ClassifyRound(me, answers).DivergedFrom?
  {
    forall p | p in Standings(me, answers)
      ensures p.relation != Diverged
    {
      var k :| 0 <= k < |answers| && Standings(me, answers)[k] == p;
    }
  }

  /** The answer cannot be compared: no answer, not ready, or no set with it. */
  predicate Incomparable(a: PeerAnswer) {
    !(a.Answered? && a.state.gtidExecuted.Some?)
  }

  /** By the fields: a larger set, or a diverged one whose generation is higher or, at one generation, whose peer is
      declared earlier. */
  predicate IsMoreAdvanced(me: Self, a: (Host, PeerAnswer)) {
    a.1.Answered? && a.1.state.gtidExecuted.Some? &&
    var theirs, generation := a.1.state.gtidExecuted.value, a.1.state.waiverGeneration;
    || me.gtids < theirs
    || (!(me.gtids <= theirs) && !(theirs <= me.gtids)
        && (generation > me.generation || (generation == me.generation && a.0 < me.rank)))
  }

  /** By the fields: the same set, and pre-GTID data this node does not have a marker for, or as much of it and an
      earlier declaration. */
  predicate TakesTheTie(me: Self, a: (Host, PeerAnswer)) {
    && a.1.Answered? && a.1.state.gtidExecuted == Some(me.gtids)
    && ((a.1.state.preGtidData && !me.fileMarker) || (a.1.state.preGtidData == me.fileMarker && a.0 < me.rank))
  }

  /** The standings are the answers', each as it relates to this node. */
  lemma StandingsOfAnswers(me: Self, answers: Answers)
    ensures forall a | a in answers :: PeerStanding(a.0, Relate(me, a.0, a.1)) in Standings(me, answers)
    ensures forall s | s in Standings(me, answers) ::
      exists a :: a in answers && s == PeerStanding(a.0, Relate(me, a.0, a.1))
  {
    var ps := Standings(me, answers);
    forall a | a in answers
      ensures PeerStanding(a.0, Relate(me, a.0, a.1)) in ps
    {
      var k :| 0 <= k < |answers| && answers[k] == a;
      assert ps[k] == PeerStanding(a.0, Relate(me, a.0, a.1));
    }
    forall s | s in ps
      ensures exists a :: a in answers && s == PeerStanding(a.0, Relate(me, a.0, a.1))
    {
      var k :| 0 <= k < |ps| && ps[k] == s;
      assert answers[k] in answers;
    }
  }

  lemma StandingIs(me: Self, a: (Host, PeerAnswer))
    ensures var relation := Relate(me, a.0, a.1);
      && (relation == Unknown <==> Incomparable(a.1)) && relation != Diverged
      && (relation == Ahead <==> IsMoreAdvanced(me, a))
      && (relation.Equal? && TiedPeerWins(me.fileMarker, me.rank, relation.preGtidData, a.0) <==> TakesTheTie(me, a))
  {
    if a.1.Answered? && a.1.state.gtidExecuted.Some? {
      var theirs := a.1.state.gtidExecuted.value;
      assert theirs <= me.gtids && me.gtids <= theirs ==> theirs == me.gtids;
    }
  }

  /** What the standings show, by the fields of the answers. */
  lemma StandingsByFields(me: Self, answers: Answers)
    ensures var ps := Standings(me, answers);
      && ((exists p | p in ps :: p.relation == Unknown) <==> exists a | a in answers :: Incomparable(a.1))
      && (forall p | p in ps :: p.relation != Diverged)
      && ((exists p | p in ps :: p.relation == Ahead) <==> exists a | a in answers :: IsMoreAdvanced(me, a))
      && ((exists p | p in ps ::
             p.relation.Equal? && TiedPeerWins(me.fileMarker, me.rank, p.relation.preGtidData, p.host))
          <==> exists a | a in answers :: TakesTheTie(me, a))
  {
    StandingsOfAnswers(me, answers);
    forall a | a in answers { StandingIs(me, a); }
  }

  /** The exact condition of each verdict, by the fields of the answers. */
  lemma EveryVerdictExactly(me: Self, answers: Answers)
    ensures var verdict := ClassifyRound(me, answers);
      var live := exists a | a in answers :: a.1.Answered? && a.1.state.groupActive;
      var blind := exists a | a in answers :: Incomparable(a.1);
      var behind := exists a | a in answers :: IsMoreAdvanced(me, a);
      var tied := exists a | a in answers :: TakesTheTie(me, a);
      && (verdict == JoinExistingGroup <==> live)
      && (verdict == Undecidable <==> !live && blind)
      && (verdict.PeerIsMoreAdvanced? <==> !live && !blind && behind)
      && (verdict.DeferToPeer? <==> !live && !blind && !behind && tied)
      && (verdict == SafeToBootstrap <==> !live && !blind && !behind && !tied)
  {
    StandingsByFields(me, answers);
  }

  /** ONLINE, or recovering in a view that shows somebody ONLINE to recover from. */
  predicate IsOrSeesAMember(state: GrState, view: seq<MemberRow>) {
    || state.memberState == Some(Online)
    || (state.memberState == Some(Recovering) && exists m | m in view :: m.state == Online)
  }

  /** Over truthful answers a node joins exactly when one of them is or sees an ONLINE member: joins that are all
      stuck on each other never read as a live group. */
  lemma JoinsARealGroup(me: Self, answers: Answers, viewOf: Host -> seq<MemberRow>)
    requires forall a | a in answers && a.1.Answered? :: Truthful(a.1.state, viewOf(a.0))
    ensures ClassifyRound(me, answers) == JoinExistingGroup <==>
      exists a | a in answers :: a.1.Answered? && IsOrSeesAMember(a.1.state, viewOf(a.0))
  {
    EveryVerdictExactly(me, answers);
    forall a | a in answers && a.1.Answered?
      ensures a.1.state.groupActive <==> IsOrSeesAMember(a.1.state, viewOf(a.0))
    {}
  }

  // ----- all nodes together -----

  /** A declared member between groups: its dataset, how many waiver bootstraps its history
      went through, and the two pre-GTID flags it can carry (the marker file on its volume,
      the replicated row in its database). */
  datatype Node = Node(gtids: GtidSet, generation: nat, fileMarker: bool, dbFlag: bool)

  /** The declared members in seed order. */
  type Cluster = seq<Node>

  /** What a node tells its peers: either flag is advertised as pre-GTID data. */
  predicate Advertises(n: Node) {
    n.fileMarker || n.dbFlag
  }

  function Advert(n: Node): PeerAnswer {
    Answered(GrState(false, None, Some(n.gtids), 0, Advertises(n), None, n.generation))
  }

  function SelfOf(c: Cluster, i: Host): Self
    requires i < |c|
  {
    Self(i, c[i].gtids, c[i].generation, c[i].fileMarker)
  }

  /** The declared peers of `i`, in seed order, skipping itself. */
  function PeersOf(n: nat, i: Host): (r: seq<Host>)
    requires i < n
    ensures forall j: Host :: j in r <==> j < n && j != i
  {
    var r: seq<Host> := seq(n - 1, k requires 0 <= k < n - 1 => if k < i then k else k + 1);
    assert forall j: Host | j < n && j != i :: j in r by {
      forall j: Host | j < n && j != i
        ensures j in r
      {
        assert r[if j < i then j else j - 1] == j;
      }
    }
    r
  }

  /** A round in which every peer of `i` answers. */
  function FullRound(c: Cluster, i: Host): (r: Answers)
    requires i < |c|
    ensures forall a :: a in r <==> a.0 < |c| && a.0 != i && a.1 == Advert(c[a.0])
  {
    var ps := PeersOf(|c|, i);
    var r := seq(|ps|, k requires 0 <= k < |ps| => assert ps[k] in ps; (ps[k], Advert(c[ps[k]])));
    assert forall a | a in r :: a.0 in ps && a.1 == Advert(c[a.0]);
    assert forall a: (Host, PeerAnswer) | a.0 in ps && a.1 == Advert(c[a.0]) :: a in r by {
      forall a: (Host, PeerAnswer) | a.0 in ps && a.1 == Advert(c[a.0])
        ensures a in r
      {
        var k :| 0 <= k < |ps| && ps[k] == a.0;
        assert r[k] == a;
      }
    }
    r
  }

  function Verdict(c: Cluster, i: Host): BootstrapVerdict
    requires i < |c|
  {
    ClassifyRound(SelfOf(c, i), FullRound(c, i))
  }

  /** Node `j` takes the job from node `i`. */
  predicate Beats(c: Cluster, j: Host, i: Host)
    requires i < |c| && j < |c|
  {
    Outranks(SelfOf(c, i), j, Advert(c[j]).state)
  }

  lemma VerdictSafeExactly(c: Cluster, i: Host)
    requires i < |c|
    ensures Verdict(c, i) == SafeToBootstrap <==> forall j | 0 <= j < |c| && j != i :: !Beats(c, j, i)
  {
    SafeExactly(SelfOf(c, i), FullRound(c, i));
    forall j | 0 <= j < |c| && j != i
      ensures Concedes(SelfOf(c, i), (j, Advert(c[j]))) <==> !Beats(c, j, i)
    {}
    if forall j | 0 <= j < |c| && j != i :: !Beats(c, j, i) {
      forall a | a in FullRound(c, i)
        ensures Concedes(SelfOf(c, i), a)
      {
        assert a == (a.0, Advert(c[a.0])) && !Beats(c, a.0, i);
      }
    } else {
      var j :| 0 <= j < |c| && j != i && Beats(c, j, i);
      assert (j, Advert(c[j])) in FullRound(c, i);
    }
  }

  /** An answer that speaks for `n`: its dataset and generation are exact, and a marker file is
      always advertised. The database flag may be missing from the advert, as it is when the
      read of it failed. */
  predicate Represents(n: Node, a: PeerAnswer) {
    && a.Answered?
    && a.state.gtidExecuted == Some(n.gtids)
    && a.state.waiverGeneration == n.generation
    && (n.fileMarker ==> a.state.preGtidData)
  }

  /** Two nodes that each took the other's answer into account never both conclude that
      bootstrapping is safe, whatever the rest of their rounds held and even though each
      judges itself by its marker file while its peer sees marker or database flag. */
  lemma TwoNodesNeverBothSafe(c: Cluster, i: Host, j: Host, ri: Answers, rj: Answers, aj: PeerAnswer, ai: PeerAnswer)
    requires i < |c| && j < |c| && i != j
    requires (j, aj) in ri && Represents(c[j], aj)
    requires (i, ai) in rj && Represents(c[i], ai)
    ensures !(ClassifyRound(SelfOf(c, i), ri) == SafeToBootstrap && ClassifyRound(SelfOf(c, j), rj) == SafeToBootstrap)
  {
    SafeExactly(SelfOf(c, i), ri);
    SafeExactly(SelfOf(c, j), rj);
    if Concedes(SelfOf(c, i), (j, aj)) && Concedes(SelfOf(c, j), (i, ai)) {
      assert false;
    }
  }

  /** At most one winner, for arbitrary datasets (diverged ones included), generations and flags. */
  lemma AtMostOneWinner(c: Cluster, i: Host, j: Host)
    requires i < |c| && j < |c|
    requires Verdict(c, i) == SafeToBootstrap && Verdict(c, j) == SafeToBootstrap
    ensures i == j
  {
    if i != j {
      TwoNodesNeverBothSafe(c, i, j, FullRound(c, i), FullRound(c, j), Advert(c[j]), Advert(c[i]));
    }
  }

  // ----- when there is a winner at all -----

  predicate Comparable(c: Cluster) {
    forall i, j | 0 <= i < |c| && 0 <= j < |c| :: c[i].gtids <= c[j].gtids || c[j].gtids <= c[i].gtids
  }

  /** Nobody holds a transaction this node lacks. */
  predicate Complete(c: Cluster, i: Host)
    requires i < |c|
  {
    forall j | 0 <= j < |c| :: c[j].gtids <= c[i].gtids
  }

  /** The earliest complete node satisfying `p`. */
  predicate FirstComplete(c: Cluster, i: Host, p: Node -> bool)
    requires i < |c|
  {
    && Complete(c, i) && p(c[i])
    && forall j | 0 <= j < |c| && Complete(c, j) && p(c[j]) :: i <= j
  }

  /** The exact condition under which some node may bootstrap: among the complete nodes, the
      earliest one that advertises pre-GTID data either holds the marker file itself, or is
      the only one to advertise and also the earliest of all. */
  predicate FlagHolderCanJudgeItself(c: Cluster) {
    forall a | 0 <= a < |c| && FirstComplete(c, a, n => Advertises(n)) ::
      || c[a].fileMarker
      || (forall b | 0 <= b < |c| && Complete(c, b) && b != a :: a < b && !Advertises(c[b]))
  }

  lemma SomeoneIsComplete(c: Cluster, k: nat) returns (i: Host)
    requires Comparable(c) && 0 < k <= |c|
    ensures i < k && forall j | 0 <= j < k :: c[j].gtids <= c[i].gtids
  {
    i := 0;
    if k > 1 {
      i := SomeoneIsComplete(c, k - 1);
      if c[i].gtids <= c[k - 1].gtids {
        i := k - 1;
      }
    }
  }

  lemma EarliestComplete(c: Cluster, i: Host, p: Node -> bool) returns (a: Host)
    requires i < |c| && Complete(c, i) && p(c[i])
    ensures a < |c| && FirstComplete(c, a, p)
    decreases i
  {
    if FirstComplete(c, i, p) {
      a := i;
    } else {
      var j :| 0 <= j < |c| && Complete(c, j) && p(c[j]) && j < i;
      a := EarliestComplete(c, j, p);
    }
  }

  lemma OnlyCompleteNodesWin(c: Cluster, i: Host, j: Host)
    requires Comparable(c) && i < |c| && j < |c| && i != j
    ensures Complete(c, j) && !Complete(c, i) ==> Beats(c, j, i)
    ensures Complete(c, i) && !Complete(c, j) ==> !Beats(c, j, i)
  {}

  /** Without the condition nobody can bootstrap. */
  lemma WinnerImpliesCondition(c: Cluster, i: Host)
    requires Comparable(c) && i < |c| && Verdict(c, i) == SafeToBootstrap
    ensures FlagHolderCanJudgeItself(c)
  {
    VerdictSafeExactly(c, i);
    var top := SomeoneIsComplete(c, |c|);
    if top != i { OnlyCompleteNodesWin(c, i, top); }
    forall a | 0 <= a < |c| && FirstComplete(c, a, n => Advertises(n)) && !c[a].fileMarker
      ensures forall b | 0 <= b < |c| && Complete(c, b) && b != a :: a < b && !Advertises(c[b])
    {
      if a != i {
        assert !Beats(c, a, i) && Advertises(c[i]);
      }
      forall b | 0 <= b < |c| && Complete(c, b) && b != a
        ensures a < b && !Advertises(c[b])
      {
        assert !Beats(c, b, i);
      }
    }
  }

  /** With it, the earliest complete advertiser wins, or failing one the earliest complete node. */
  lemma ConditionGivesAWinner(c: Cluster) returns (w: Host)
    requires Comparable(c) && |c| > 0 && FlagHolderCanJudgeItself(c)
    ensures w < |c| && Verdict(c, w) == SafeToBootstrap
  {
    var top := SomeoneIsComplete(c, |c|);
    if a0: Host :| a0 < |c| && Complete(c, a0) && Advertises(c[a0]) {
      w := EarliestComplete(c, a0, n => Advertises(n));
    } else {
      w := EarliestComplete(c, top, n => true);
    }
    forall j | 0 <= j < |c| && j != w
      ensures !Beats(c, j, w)
    {
      if !Complete(c, j) { OnlyCompleteNodesWin(c, w, j); }
    }
    VerdictSafeExactly(c, w);
  }

  /** Comparable datasets have exactly one winner if and only if the earliest complete
      advertiser can judge itself. */
  lemma ExactlyOneWinnerExactly(c: Cluster)
    requires Comparable(c) && |c| > 0
    ensures (exists w :: 0 <= w < |c| && Verdict(c, w) == SafeToBootstrap) <==> FlagHolderCanJudgeItself(c)
    ensures FlagHolderCanJudgeItself(c) ==>
      exists w :: 0 <= w < |c| && Verdict(c, w) == SafeToBootstrap
        && forall j | 0 <= j < |c| && j != w :: Verdict(c, j) != SafeToBootstrap
  {
    if w: Host :| w < |c| && Verdict(c, w) == SafeToBootstrap {
      WinnerImpliesCondition(c, w);
      forall j | 0 <= j < |c| && j != w
        ensures Verdict(c, j) != SafeToBootstrap
      {
        if Verdict(c, j) == SafeToBootstrap { AtMostOneWinner(c, w, j); }
      }
    } else if FlagHolderCanJudgeItself(c) {
      var w := ConditionGivesAWinner(c);
    }
  }

  // ----- following the names -----

  /** Every node's advertised flag is the one it judges itself by. */
  predicate FlagsAgree(c: Cluster) {
    forall i | 0 <= i < |c| :: Advertises(c[i]) == c[i].fileMarker
  }

  /** The nodes that beat `i`. */
  function BetterThan(c: Cluster, i: Host): set<Host>
    requires i < |c|
  {
    set j | 0 <= j < |c| && j != i && Beats(c, j, i)
  }

  lemma BeatsIsTransitive(c: Cluster, k: Host, j: Host, i: Host)
    requires Comparable(c) && FlagsAgree(c) && i < |c| && j < |c| && k < |c|
    requires i != j && j != k && Beats(c, k, j) && Beats(c, j, i)
    ensures k != i && Beats(c, k, i)
  {}

  /** A loser names a node that beats it, and that node has strictly fewer betters: the
      deferral graph has no cycle. */
  lemma DeferralClimbs(c: Cluster, i: Host)
    requires Comparable(c) && FlagsAgree(c) && i < |c| && Verdict(c, i) != SafeToBootstrap
    ensures Verdict(c, i).PeerIsMoreAdvanced? || Verdict(c, i).DeferToPeer?
    ensures Verdict(c, i).host < |c| && Verdict(c, i).host != i && Beats(c, Verdict(c, i).host, i)
    ensures BetterThan(c, Verdict(c, i).host) < BetterThan(c, i)
    ensures |BetterThan(c, Verdict(c, i).host)| < |BetterThan(c, i)|
  {
    var me, round := SelfOf(c, i), FullRound(c, i);
    DivergenceIsAlwaysResolved(me, round);
    forall p | p in Standings(me, round)
      ensures p.relation != Unknown
    {
      var k :| 0 <= k < |round| && Standings(me, round)[k] == p;
      assert round[k] in round;
    }
    LoserNamesAnOutrankingPeer(me, round);
    var j := Verdict(c, i).host;
    forall k | k in BetterThan(c, j)
      ensures k in BetterThan(c, i)
    {
      BeatsIsTransitive(c, k, j, i);
    }
    assert j in BetterThan(c, i) && j !in BetterThan(c, j);
    ProperSubsetIsSmaller(BetterThan(c, j), BetterThan(c, i));
  }

  lemma ProperSubsetIsSmaller(a: set<Host>, b: set<Host>)
    requires a < b
    ensures |a| < |b|
  {
    assert b == a + (b - a) && |b - a| > 0;
  }

  /** Following the named peers from any node ends at the winner. */
  function FollowDeferral(c: Cluster, i: Host): (w: Host)
    requires Comparable(c) && FlagsAgree(c) && i < |c|
    ensures w < |c| && Verdict(c, w) == SafeToBootstrap
    decreases |BetterThan(c, i)|
  {
    if Verdict(c, i) == SafeToBootstrap then i
    else
      DeferralClimbs(c, i);
      FollowDeferral(c, Verdict(c, i).host)
  }

  /** Every node's chain of deferrals ends at the same winner. */
  lemma AllDeferralsMeet(c: Cluster, i: Host, j: Host)
    requires Comparable(c) && FlagsAgree(c) && i < |c| && j < |c|
    ensures FollowDeferral(c, i) == FollowDeferral(c, j)
  {
    AtMostOneWinner(c, FollowDeferral(c, i), FollowDeferral(c, j));
  }

  // ----- where the design's claims stop -----

  /** The tie-break inputs are not the same on every node. An adopted volume (marker file and
      replicated row) and a clone of it (the row alone) with identical datasets, the clone
      declared first, defer to each other: nobody bootstraps. */
  lemma AdopterAndItsCloneCanDeferToEachOther()
    ensures var c := [Node({}, 0, false, true), Node({}, 0, true, true)];
      && Comparable(c) && !FlagHolderCanJudgeItself(c)
      && Verdict(c, 0) == DeferToPeer(1) && Verdict(c, 1) == DeferToPeer(0)
  {
    var c := [Node({}, 0, false, true), Node({}, 0, true, true)];
    assert FirstComplete(c, 0, n => Advertises(n));
    EqualPairDefers(c, 0, 1);
    EqualPairDefers(c, 1, 0);
  }

  /** Of two nodes holding the same, one defers when the other wins the tie-break as it judges it. */
  lemma EqualPairDefers(c: Cluster, i: Host, j: Host)
    requires |c| == 2 && i + j == 1 && c[i].gtids == c[j].gtids
    requires TiedPeerWins(c[i].fileMarker, i, Advertises(c[j]), j)
    ensures Verdict(c, i) == DeferToPeer(j)
  {
    VerdictOfTwo(c, i, j);
  }

  lemma VerdictOfTwo(c: Cluster, i: Host, j: Host)
    requires |c| == 2 && i + j == 1
    ensures Verdict(c, i) == Decide(c[i].fileMarker, i, [PeerStanding(j, Relate(SelfOf(c, i), j, Advert(c[j])))])
  {
    assert PeersOf(2, i) == [j];
    assert FullRound(c, i) == [(j, Advert(c[j]))];
    assert Standings(SelfOf(c, i), FullRound(c, i)) == [PeerStanding(j, Relate(SelfOf(c, i), j, Advert(c[j])))];
  }

  /** Subset order mixed with rank order can cycle: with one diverged history among three,
      every node is beaten by another and nobody bootstraps. */
  lemma DivergenceCanCycle()
    ensures var a, b := Gtid("a", 1), Gtid("b", 1);
      var c := [Node({a}, 0, false, false), Node({b}, 0, false, false), Node({a, Gtid("a", 2)}, 0, false, false)];
      && FlagsAgree(c) && !Comparable(c)
      && forall i | 0 <= i < |c| :: Verdict(c, i) != SafeToBootstrap
  {
    var a, b := Gtid("a", 1), Gtid("b", 1);
    var c := [Node({a}, 0, false, false), Node({b}, 0, false, false), Node({a, Gtid("a", 2)}, 0, false, false)];
    assert a in c[0].gtids && a !in c[1].gtids && b in c[1].gtids && b !in c[0].gtids && b !in c[2].gtids;
    assert Gtid("a", 2) in c[2].gtids && Gtid("a", 2) !in c[0].gtids && Gtid("a", 2) !in c[1].gtids;
    assert Beats(c, 2, 0) && Beats(c, 0, 1) && Beats(c, 1, 2);
    forall i | 0 <= i < |c|
      ensures Verdict(c, i) != SafeToBootstrap
    {
      VerdictSafeExactly(c, i);
    }
  }
}
