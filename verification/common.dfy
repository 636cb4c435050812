/** Vocabulary shared by every module: optional values and global transaction identities. */
module Common {

  datatype Option<+T> = None | Some(value: T)

  /** A transaction's global identity: the UUID it was minted under and its number. */
  datatype Gtid = Gtid(source: string, number: nat)

  type GtidSet = set<Gtid>

  /** A declared member, named by its position in the seed list. Seed order is the last
      tie-break of every bootstrap decision, so a host and its seed rank are one thing. */
  type Host = nat

  /** The first element satisfying `p`, as an iterator's `find` returns it. */
  function Find<T>(xs: seq<T>, p: T -> bool): (r: Option<T>)
    ensures r.Some? ==> r.value in xs && p(r.value)
    ensures r.None? ==> forall x | x in xs :: !p(x)
  {
    if xs == [] then None
    else if p(xs[0]) then Some(xs[0])
    else Find(xs[1..], p)
  }

  /** The elements satisfying `p`, in order. */
  function Filter<T(!new)>(xs: seq<T>, p: T -> bool): (r: seq<T>)
    ensures |r| <= |xs|
    ensures forall x :: x in r <==> x in xs && p(x)
  {
    if xs == [] then []
    else
      var front, last := xs[..|xs| - 1], xs[|xs| - 1];
      assert xs == front + [last];
      Filter(front, p) + (if p(last) then [last] else [])
  }

  lemma {:induction false} FilterKeepsNone<T(!new)>(xs: seq<T>, p: T -> bool)
    requires forall x | x in xs :: !p(x)
    ensures Filter(xs, p) == []
  {
    if xs != [] {
      assert xs == xs[..|xs| - 1] + [xs[|xs| - 1]];
      FilterKeepsNone(xs[..|xs| - 1], p);
    }
  }

  lemma Reassociate<T>(a: seq<T>, b: seq<T>, c: seq<T>)
    ensures a + b + c == a + (b + c)
  {}

  predicate IsDigit(c: char) {
    '0' <= c <= '9'
  }

  predicate NoTwice<T(==)>(xs: seq<T>) {
    forall j, k | 0 <= j < k < |xs| :: xs[j] != xs[k]
  }
}

/** What a node reports about itself on /gr/state, and how a peer's silence is told apart. */
module Peers {
  import opened Common

  datatype MemberState = Online | Recovering | Offline | Errored | Unreachable

  /** One row of a member's own view of its group. */
  datatype MemberRow = MemberRow(host: Host, state: MemberState)

  datatype GrState = GrState(
    groupActive: bool,
    memberState: Option<MemberState>,
    gtidExecuted: Option<GtidSet>,
    membersTotal: nat,
    preGtidData: bool,
    groupName: Option<string>,
    waiverGeneration: nat)

  datatype PeerAnswer = Answered(state: GrState) | NotReady | NoAnswer

  /** What a member may advertise as a running group: itself when ONLINE, and while it recovers only
      if its view shows somebody ONLINE to recover from. */
  predicate GroupActiveFrom(memberState: Option<MemberState>, members: seq<MemberRow>) {
    match memberState
    case Some(Online) => true
    case Some(Recovering) => exists m | m in members :: m.state == Online
    case _ => false
  }

  /** A member's truthful advert: ONLINE in its own view reads as a live group. */
  predicate Truthful(state: GrState, view: seq<MemberRow>) {
    && state.groupActive == GroupActiveFrom(state.memberState, view)
    && state.membersTotal == |view|
  }
}
