/** Proofs that must hold without interruption: the clock behind the bootstrap dwell and the
    deletion waiver, and the membership fence that counts the waived hosts out. */
module Waiver {
  import opened Common

  // ----- a clock that any contrary observation resets -----

  /** One observation: whether it supports the claim, and when it was made. */
  datatype Reading = Reading(supports: bool, at: int)

  function Tick(since: Option<int>, r: Reading): Option<int> {
    if !r.supports then None
    else if since.None? then Some(r.at)
    else since
  }

  function ClockAfter(readings: seq<Reading>): Option<int> {
    if readings == [] then None
    else Tick(ClockAfter(readings[..|readings| - 1]), readings[|readings| - 1])
  }

  /** Elapsed time as a monotonic clock reports it: never negative. */
  function Elapsed(since: int, now: int): nat {
    if now >= since then now - since else 0
  }

  predicate Ripe(since: Option<int>, now: int, dwell: nat) {
    since.Some? && Elapsed(since.value, now) >= dwell
  }

  /** The latest uninterrupted stretch of supporting readings begins at `k`. */
  predicate StretchStartsAt(readings: seq<Reading>, k: nat) {
    && k < |readings|
    && (forall j | k <= j < |readings| :: readings[j].supports)
    && (k > 0 ==> !readings[k - 1].supports)
  }

  lemma {:induction false} ClockIsTheStretchStart(readings: seq<Reading>, k: nat)
    ensures StretchStartsAt(readings, k) ==> ClockAfter(readings) == Some(readings[k].at)
    ensures (readings == [] || !readings[|readings| - 1].supports) <==> ClockAfter(readings) == None
  {
    if readings != [] {
      var before := readings[..|readings| - 1];
      ClockIsTheStretchStart(before, k);
      if StretchStartsAt(readings, k) && k < |before| {
        assert StretchStartsAt(before, k);
      }
    }
  }

  lemma {:induction false} StretchExists(readings: seq<Reading>) returns (k: nat)
    requires readings != [] && readings[|readings| - 1].supports
    ensures StretchStartsAt(readings, k)
  {
    var before := readings[..|readings| - 1];
    if before == [] || !before[|before| - 1].supports {
      k := |before|;
    } else {
      k := StretchExists(before);
    }
  }

  /** Over every trace the claim is ripe exactly when the latest uninterrupted stretch of
      supporting readings began at least the dwell ago. */
  lemma RipeExactly(readings: seq<Reading>, now: int, dwell: nat)
    ensures Ripe(ClockAfter(readings), now, dwell) <==>
      exists k: nat :: StretchStartsAt(readings, k) && (dwell == 0 || now - readings[k].at >= dwell)
  {
    if k: nat :| StretchStartsAt(readings, k) && (dwell == 0 || now - readings[k].at >= dwell) {
      ClockIsTheStretchStart(readings, k);
    } else if Ripe(ClockAfter(readings), now, dwell) {
      ClockIsTheStretchStart(readings, 0);
      var k := StretchExists(readings);
      ClockIsTheStretchStart(readings, k);
    }
  }

  // ----- the bootstrap dwell -----

  /** How long the bootstrap verdict has held: set by the first safe pass, dropped by any other. */
  class BootstrapDwell {
    var safeSince: Option<int>

    constructor ()
      ensures safeSince == None
    {
      safeSince := None;
    }

    /** One pass; `act` says the decision may be acted on now. */
    method Pass(safe: bool, now: int, dwell: nat) returns (act: bool)
      modifies this
      ensures safeSince == Tick(old(safeSince), Reading(safe, now))
      ensures act <==> safeSince.Some? && (dwell == 0 || now - safeSince.value >= dwell)
    {
      if !safe {
        safeSince := None;
        return false;
      }
      if safeSince.None? {
        safeSince := Some(now);
      }
      act := Elapsed(safeSince.value, now) >= dwell;
    }
  }

  /** Every pass from `k` on was safe, and `k` lies at least the dwell before the last one. */
  predicate HeldSince(passes: seq<Reading>, k: nat, dwell: nat)
    requires k < |passes|
  {
    && (dwell == 0 || passes[|passes| - 1].at - passes[k].at >= dwell)
    && forall j | k <= j < |passes| :: passes[j].supports
  }

  /** Acting on a pass means every pass since one at least the dwell earlier was safe. */
  lemma ActingMeansHeldForTheDwell(passes: seq<Reading>, dwell: nat)
    requires passes != [] && Ripe(ClockAfter(passes), passes[|passes| - 1].at, dwell)
    ensures exists k :: 0 <= k < |passes| && HeldSince(passes, k, dwell)
  {
    RipeExactly(passes, passes[|passes| - 1].at, dwell);
    var k: nat :| StretchStartsAt(passes, k) && (dwell == 0 || passes[|passes| - 1].at - passes[k].at >= dwell);
    assert HeldSince(passes, k, dwell);
  }

  // ----- the deletion waiver -----

  datatype NameVerdict = Gone | ExistsOrUnknown

  /** What was learned about one host: a resolver verdict, or that it answered. */
  datatype Sighting = Probed(verdict: NameVerdict) | Reached

  datatype Observation = Observation(host: Host, seen: Sighting, at: int)

  predicate ProvesGone(seen: Sighting) {
    seen == Probed(Gone)
  }

  /** How long each host's name has been authoritatively gone. */
  class GoneTracker {
    var goneSince: map<Host, int>

    constructor ()
      ensures goneSince == map[]
    {
      goneSince := map[];
    }

    method Observe(host: Host, verdict: NameVerdict, now: int)
      modifies this
      ensures goneSince == After(old(goneSince), Observation(host, Probed(verdict), now))
    {
      match verdict
      case Gone =>
        if host !in goneSince {
          goneSince := goneSince[host := now];
        }
      case ExistsOrUnknown =>
        goneSince := goneSince - {host};
    }

    method ObserveReachable(host: Host, ghost now: int)
      modifies this
      ensures goneSince == After(old(goneSince), Observation(host, Reached, now))
    {
      goneSince := goneSince - {host};
    }

    predicate IsWaived(host: Host, now: int, dwell: nat)
      reads this
    {
      Ripe(Clock(goneSince, host), now, dwell)
    }

    /** The declared members the fence still counts: every seed that is not ONLINE is probed,
        and one whose name has been gone for the whole dwell stops counting. */
    method EffectiveMembership(seeds: seq<Host>, online: set<Host>, probe: Host -> NameVerdict, now: int, dwell: nat)
      returns (effective: nat)
      requires forall j, k | 0 <= j < k < |seeds| :: seeds[j] != seeds[k]
      modifies this
      ensures forall h :: Clock(goneSince, h) == ProbedClock(old(goneSince), seeds, online, probe, now, h)
      ensures effective == |seeds| - |WaivedSeeds(goneSince, seeds, online, now, dwell)|
    {
      effective := |seeds|;
      var k := 0;
      while k < |seeds|
        invariant 0 <= k <= |seeds|
        invariant forall h :: Clock(goneSince, h) == ProbedClock(old(goneSince), seeds[..k], online, probe, now, h)
        invariant effective == |seeds| - |WaivedSeeds(goneSince, seeds[..k], online, now, dwell)| >= |seeds| - k
      {
        ghost var earlier, before := seeds[..k], goneSince;
        var seed := seeds[k];
        assert seeds[..k + 1] == earlier + [seed] && seed !in earlier;
        if seed in online {
          ObserveReachable(seed, now);
        } else {
          Observe(seed, probe(seed), now);
          if IsWaived(seed, now, dwell) {
            effective := effective - 1;
          }
        }
        forall h
          ensures Clock(goneSince, h) == ProbedClock(old(goneSince), earlier + [seed], online, probe, now, h)
        {
          if h != seed {
            assert h in earlier + [seed] <==> h in earlier;
            assert Clock(goneSince, h) == Clock(before, h);
          } else {
            assert Clock(before, seed) == Clock(old(goneSince), seed);
          }
        }
        CountOneMore(before, goneSince, earlier, seed, online, now, dwell);
        k := k + 1;
      }
      assert seeds[..k] == seeds;
    }
  }

  /** A host's clock after one round over `seeds`: an ONLINE seed is reset, any other probed. */
  function ProbedClock(before: map<Host, int>, seeds: seq<Host>, online: set<Host>, probe: Host -> NameVerdict,
      now: int, h: Host): Option<int> {
    if h !in seeds then Clock(before, h)
    else if h in online then None
    else Tick(Clock(before, h), Reading(probe(h) == Gone, now))
  }

  lemma WaivedAlike(before: map<Host, int>, after: map<Host, int>, earlier: seq<Host>, seed: Host,
      online: set<Host>, now: int, dwell: nat, h: Host)
    requires h != seed && Clock(after, h) == Clock(before, h)
    ensures h in WaivedSeeds(after, earlier + [seed], online, now, dwell)
      <==> h in WaivedSeeds(before, earlier, online, now, dwell)
  {}

  lemma CountOneMore(before: map<Host, int>, after: map<Host, int>, earlier: seq<Host>, seed: Host,
      online: set<Host>, now: int, dwell: nat)
    requires seed !in earlier
    requires forall h | h != seed :: Clock(after, h) == Clock(before, h)
    ensures |WaivedSeeds(after, earlier + [seed], online, now, dwell)|
      == |WaivedSeeds(before, earlier, online, now, dwell)|
      + (if seed !in online && Ripe(Clock(after, seed), now, dwell) then 1 else 0)
  {
    var w := WaivedSeeds(before, earlier, online, now, dwell);
    var w' := WaivedSeeds(after, earlier + [seed], online, now, dwell);
    forall h | h != seed
      ensures h in w' <==> h in w
    {
      WaivedAlike(before, after, earlier, seed, online, now, dwell, h);
    }
    if seed !in online && Ripe(Clock(after, seed), now, dwell) {
      assert w' == w + {seed};
    } else {
      assert w' == w;
    }
  }

  function Clock(goneSince: map<Host, int>, host: Host): Option<int> {
    if host in goneSince then Some(goneSince[host]) else None
  }

  function WaivedSeeds(goneSince: map<Host, int>, seeds: seq<Host>, online: set<Host>, now: int,
      dwell: nat): set<Host> {
    set h | h in seeds && h !in online && h in goneSince && (dwell == 0 || now - goneSince[h] >= dwell)
  }

  /** The tracker's map after one more observation. */
  function After(goneSince: map<Host, int>, o: Observation): map<Host, int> {
    if !ProvesGone(o.seen) then goneSince - {o.host}
    else if o.host in goneSince then goneSince
    else goneSince[o.host := o.at]
  }

  function TrackerAfter(trace: seq<Observation>): map<Host, int> {
    if trace == [] then map[]
    else After(TrackerAfter(trace[..|trace| - 1]), trace[|trace| - 1])
  }

  /** The readings about one host, in order. */
  function About(trace: seq<Observation>, host: Host): seq<Reading> {
    if trace == [] then []
    else
      var before := About(trace[..|trace| - 1], host);
      var o := trace[|trace| - 1];
      if o.host == host then before + [Reading(ProvesGone(o.seen), o.at)] else before
  }

  lemma {:induction false} TrackerIsOneClockPerHost(trace: seq<Observation>, host: Host)
    ensures Clock(TrackerAfter(trace), host) == ClockAfter(About(trace, host))
  {
    if trace != [] {
      var before, o := trace[..|trace| - 1], trace[|trace| - 1];
      TrackerIsOneClockPerHost(before, host);
      if o.host == host {
        var readings := About(trace, host);
        assert readings[..|readings| - 1] == About(before, host);
      }
    }
  }

  /** Over every trace of observations of every host: a host is waived exactly when its latest
      uninterrupted stretch of Gone observations began at least the dwell ago. */
  lemma WaivedExactly(trace: seq<Observation>, host: Host, now: int, dwell: nat)
    ensures Ripe(Clock(TrackerAfter(trace), host), now, dwell) <==>
      exists k: nat :: StretchStartsAt(About(trace, host), k) && (dwell == 0 || now - About(trace, host)[k].at >= dwell)
  {
    TrackerIsOneClockPerHost(trace, host);
    RipeExactly(About(trace, host), now, dwell);
  }

  // ----- the membership fence -----

  predicate FenceWanted(online: nat, effective: nat, armed: bool) {
    armed && online * 2 <= (if effective > 1 then effective else 1)
  }

  /** Waivers are only consulted when the ONLINE members are no majority of all declared. */
  function EffectiveCount(configured: nat, online: nat, waived: nat): nat
    requires waived <= configured
  {
    if online * 2 <= configured then configured - waived else configured
  }

  /** One side of a partition: the declared members ONLINE in its view and the ones it waived. */
  datatype Side = Side(online: set<Host>, waived: set<Host>)

  predicate Fenced(declared: set<Host>, side: Side)
    requires side.waived <= declared
  {
    SubsetSize(side.waived, declared);
    FenceWanted(|side.online|, EffectiveCount(|declared|, |side.online|, |side.waived|), true)
  }

  lemma SubsetSize<T>(a: set<T>, b: set<T>)
    requires a <= b
    ensures |a| <= |b|
  {
    assert b == a + (b - a);
  }

  /** A side may write exactly while its ONLINE members are a strict majority of the declared
      members it has not waived. */
  lemma FencedExactly(declared: set<Host>, side: Side)
    requires side.online <= declared && side.waived <= declared
    ensures Fenced(declared, side) <==> |side.online| * 2 <= |declared - side.waived|
  {
    SubsetSize(side.waived, declared);
    SubsetSize(side.online, declared);
    assert |declared| == |side.waived| + |declared - side.waived| by {
      assert declared == side.waived + (declared - side.waived);
    }
  }

  /** However the cluster splits, two armed sides with no ONLINE member in common are never
      both writable, as long as each waives only hosts that are gone for everyone. */
  lemma FenceAdmitsOneSide(declared: set<Host>, a: Side, b: Side)
    requires a.online <= declared && b.online <= declared && a.online !! b.online
    requires a.waived <= declared && b.waived <= declared
    requires a.waived !! (a.online + b.online) && b.waived !! (a.online + b.online)
    ensures Fenced(declared, a) || Fenced(declared, b)
  {
    assert |a.online + b.online| == |a.online| + |b.online|;
    assert |a.waived + (a.online + b.online)| == |a.waived| + |a.online| + |b.online|;
    assert |b.waived + (a.online + b.online)| == |b.waived| + |a.online| + |b.online|;
    SubsetSize(a.waived + (a.online + b.online), declared);
    SubsetSize(b.waived + (a.online + b.online), declared);
    SubsetSize(a.waived, declared);
    SubsetSize(b.waived, declared);
  }

  /** The proviso is needed: a side that waives hosts which are alive on the other side can be
      writable at the same time as that side. */
  lemma WaivingTheLivingUnfencesBoth()
    ensures var declared: set<Host>, a, b := {0, 1, 2}, Side({0}, {1, 2}), Side({1, 2}, {});
      !Fenced(declared, a) && !Fenced(declared, b)
  {
    var a, b: set<Host> := {0}, {1, 2};
    assert |a| == 1 && |b| == 2 && |a + b| == 3 && a + b == {0, 1, 2};
  }
}
