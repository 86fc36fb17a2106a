/** Deciding from reports of success and failure whether a node or a cluster is available. */
module Availability {

  const SECOND := 1_000_000_000

  /** Enough tickets take effect after the soft limit without a success; after the hard one a single failure does. */
  datatype Limits = Limits(tickets: nat, soft: int, hard: int)

  const NODE := Limits(30, 10 * SECOND, 60 * SECOND)
  const CLUSTER := Limits(10, 5 * SECOND, 10 * SECOND)
  const DEAD_AFTER := 3600 * SECOND

  datatype Monitor = Monitor(available: bool, isDead: bool, tickets: nat, lastSuccess: int)

  /** A failure counts when the rate limiter lets it, and it is spared when something else keeps the
      target up. A success brings an unavailable target back when the rate limiter lets it. */
  datatype Report =
    | Failure(now: int, counts: bool, spared: bool)
    | Success(now: int, counts: bool)

  predicate Due(limits: Limits, tickets: nat, gap: int) {
    (tickets >= limits.tickets && gap > limits.soft) || gap > limits.hard
  }

  function Step(limits: Limits, m: Monitor, r: Report): Monitor {
    match r
    case Failure(now, counts, spared) =>
      var gap := now - m.lastSuccess;
      if !m.available then if gap > DEAD_AFTER then m.(isDead := true) else m
      else if !counts then m
      else if Due(limits, m.tickets + 1, gap) && !spared then m.(available := false, tickets := 0)
      else m.(tickets := m.tickets + 1)
    case Success(now, counts) =>
      if !m.available && counts then Monitor(true, false, 0, now) else m.(lastSuccess := now)
  }

  /** A node. A failure of a node without a host name never counts. */
  class NodeAvailable {
    const host: string
    var available: bool
    var isDead: bool
    var ticket: nat
    var lastSuccess: int

    function State(): Monitor
      reads this
    {
      Monitor(available, isDead, ticket, lastSuccess)
    }

    constructor (host: string, available: bool, now: int)
      ensures State() == Monitor(available, false, 0, now)
    {
      this.host := host;
      this.available, isDead, ticket, lastSuccess := available, false, 0, now;
    }

    method ReportFailure(now: int, allowed: bool)
      modifies this
      ensures State() == Step(NODE, old(State()), Failure(now, allowed && host != "", false))
    {
      if !available {
        if !isDead {
          if now - lastSuccess > 3600 * SECOND {
            isDead := true;
          }
        }
        return;
      }
      if |host| == 0 {
        return;
      }
      if allowed {
        ticket := ticket + 1;
        if (ticket >= 30 && now - lastSuccess > 10 * SECOND) || now - lastSuccess > 60 * SECOND {
          available := false;
          ticket := 0;
        }
      }
    }

    method ReportSuccess(now: int, allowed: bool)
      modifies this
      ensures State() == Step(NODE, old(State()), Success(now, allowed))
    {
      lastSuccess := now;
      if available {
        return;
      }
      if allowed {
        isDead := false;
        available := true;
        ticket := 0;
      }
    }
  }

  function Alive(m: Monitor): Monitor {
    m.(isDead := false)
  }

  /** A cluster, which is never declared dead. With active hosts it stays up, unless the error says
      that no master was found and the configuration does not tolerate that. */
  class ClusterAvailable {
    var clusterAvailable: bool
    var clusterFailureTicket: nat
    var lastSuccess: int

    function State(): Monitor
      reads this
    {
      Monitor(clusterAvailable, false, clusterFailureTicket, lastSuccess)
    }

    method ReportFailure(now: int, allowed: bool, noMaster: bool, allowNoMaster: bool,
                         activeHosts: nat) returns (down: bool)
      modifies this
      ensures var spared := !(noMaster && !allowNoMaster) && activeHosts > 0;
              State() == Alive(Step(CLUSTER, old(State()), Failure(now, allowed, spared)))
      ensures down == !clusterAvailable
    {
      if !clusterAvailable {
        return true;
      }
      if allowed {
        clusterFailureTicket := clusterFailureTicket + 1;
        if (clusterFailureTicket >= 10 && now - lastSuccess > 5 * SECOND) || now - lastSuccess > 10 * SECOND {
          if noMaster && !allowNoMaster {
            clusterAvailable := false;
            clusterFailureTicket := 0;
            return true;
          }
          if activeHosts > 0 {
            return false;
          }
          clusterAvailable := false;
          clusterFailureTicket := 0;
          return true;
        }
      }
      return false;
    }

    method ReportSuccess(now: int, allowed: bool)
      modifies this
      ensures State() == Step(CLUSTER, old(State()), Success(now, allowed))
    {
      lastSuccess := now;
      if clusterAvailable {
        return;
      }
      if allowed {
        clusterAvailable := true;
        clusterFailureTicket := 0;
      }
    }
  }

  // ---------- runs ----------

  function Run(limits: Limits, m: Monitor, rs: seq<Report>): Monitor {
    if rs == [] then m else Step(limits, Run(limits, m, rs[..|rs| - 1]), rs[|rs| - 1])
  }

  /** The run of a cluster, which forgets the dead mark after each report. */
  function ClusterRun(m: Monitor, rs: seq<Report>): Monitor {
    if rs == [] then Alive(m) else Alive(Step(CLUSTER, ClusterRun(m, rs[..|rs| - 1]), rs[|rs| - 1]))
  }

  /** Forgetting it changes nothing else: availability, tickets and the latest success are those of the run
      that keeps it. */
  lemma {:induction false} ClusterRunIs(m: Monitor, rs: seq<Report>)
    ensures ClusterRun(m, rs) == Alive(Run(CLUSTER, m, rs))
    decreases |rs|
  {
    if rs != [] { ClusterRunIs(m, rs[..|rs| - 1]); }
  }

  predicate Sound(m: Monitor) {
    (m.isDead ==> !m.available) && (!m.available ==> m.tickets == 0)
  }

  lemma {:induction false} RunIsSound(limits: Limits, m: Monitor, rs: seq<Report>)
    requires Sound(m)
    ensures Sound(Run(limits, m, rs))
    decreases |rs|
  {
    if rs != [] { RunIsSound(limits, m, rs[..|rs| - 1]); }
  }

  /** The failures that count, and the time of the latest success, told by the reports alone. */
  function Counted(rs: seq<Report>): nat {
    if rs == [] then 0
    else (if rs[|rs| - 1].Failure? && rs[|rs| - 1].counts then 1 else 0) + Counted(rs[..|rs| - 1])
  }

  function Latest(start: int, rs: seq<Report>): int {
    if rs == [] then start
    else if rs[|rs| - 1].Success? then rs[|rs| - 1].now
    else Latest(start, rs[..|rs| - 1])
  }

  /** The report that takes down a target which was up all the time before: successes while it is up
      do not take tickets back. */
  predicate Trips(limits: Limits, m: Monitor, rs: seq<Report>, i: nat)
    requires i < |rs|
  {
    && rs[i].Failure? && rs[i].counts && !rs[i].spared
    && Due(limits, m.tickets + Counted(rs[..i]) + 1, rs[i].now - Latest(m.lastSuccess, rs[..i]))
  }

  ghost predicate UpThroughout(limits: Limits, m: Monitor, rs: seq<Report>) {
    forall k | 0 <= k <= |rs| :: Run(limits, m, rs[..k]).available
  }

  lemma {:induction false} WhileUp(limits: Limits, m: Monitor, rs: seq<Report>, k: nat)
    requires m.available && k <= |rs| && forall i | 0 <= i < k :: !Trips(limits, m, rs, i)
    ensures Run(limits, m, rs[..k])
         == m.(tickets := m.tickets + Counted(rs[..k]), lastSuccess := Latest(m.lastSuccess, rs[..k]))
    decreases k
  {
    if k > 0 {
      WhileUp(limits, m, rs, k - 1);
      assert rs[..k][..k - 1] == rs[..k - 1] && rs[..k][k - 1] == rs[k - 1];
      assert !Trips(limits, m, rs, k - 1);
    }
  }

  /** A target stays up through a run of reports exactly when none of them trips it. */
  lemma StaysUpIff(limits: Limits, m: Monitor, rs: seq<Report>)
    requires m.available
    ensures UpThroughout(limits, m, rs) <==> forall i | 0 <= i < |rs| :: !Trips(limits, m, rs, i)
  {
    if forall i | 0 <= i < |rs| :: !Trips(limits, m, rs, i) {
      forall k | 0 <= k <= |rs| ensures Run(limits, m, rs[..k]).available {
        WhileUp(limits, m, rs, k);
      }
    } else {
      var i := FirstTrip(limits, m, rs);
      WhileUp(limits, m, rs, i);
      assert rs[..i + 1][..i] == rs[..i];
      assert !Run(limits, m, rs[..i + 1]).available;
    }
  }

  lemma FirstTrip(limits: Limits, m: Monitor, rs: seq<Report>) returns (i: nat)
    requires exists j | 0 <= j < |rs| :: Trips(limits, m, rs, j)
    ensures i < |rs| && Trips(limits, m, rs, i) && forall j | 0 <= j < i :: !Trips(limits, m, rs, j)
  {
    i := 0;
    while !Trips(limits, m, rs, i)
      invariant i < |rs| && forall j | 0 <= j < i :: !Trips(limits, m, rs, j)
      decreases |rs| - i
    {
      assert exists j | 0 <= j < |rs| :: Trips(limits, m, rs, j) && j > i;
      i := i + 1;
    }
  }

  /** A target whose failures all come within the soft limit of its latest success never goes down. */
  lemma NeverDownWithinLimit(limits: Limits, m: Monitor, rs: seq<Report>)
    requires m.available && limits.soft <= limits.hard
    requires forall i | 0 <= i < |rs| && rs[i].Failure? :: rs[i].now - Latest(m.lastSuccess, rs[..i]) <= limits.soft
    ensures UpThroughout(limits, m, rs)
  {
    StaysUpIff(limits, m, rs);
  }

  /** At the `i`-th report the latest success is at most `soft` old, or at most `hard` and this is not yet
      the `n`-th failure that counts. */
  predicate Early(m: Monitor, rs: seq<Report>, i: nat, n: nat, soft: int, hard: int)
    requires i < |rs|
  {
    var age := rs[i].now - Latest(m.lastSuccess, rs[..i]);
    age <= hard && (age <= soft || m.tickets + Counted(rs[..i]) + 1 < n)
  }

  /** A node goes down by the first failure that counts, that is the 30th or a later one more than 10
      seconds after the latest success, or any more than 60 seconds after it. */
  lemma NodeStaysUpIff(m: Monitor, rs: seq<Report>)
    requires m.available && forall i | 0 <= i < |rs| && rs[i].Failure? :: !rs[i].spared
    ensures UpThroughout(NODE, m, rs)
       <==> forall i | 0 <= i < |rs| && rs[i].Failure? && rs[i].counts ::
              Early(m, rs, i, 30, 10_000_000_000, 60_000_000_000)
  {
    StaysUpIff(NODE, m, rs);
    assert forall i | 0 <= i < |rs| && rs[i].Failure? && rs[i].counts ::
        Trips(NODE, m, rs, i) == !Early(m, rs, i, 30, 10_000_000_000, 60_000_000_000);
  }

  /** A cluster, by the first failure that counts and finds nothing that keeps it up: the 10th or a
      later one more than 5 seconds after the latest success, or any more than 10 seconds after it. */
  lemma ClusterStaysUpIff(m: Monitor, rs: seq<Report>)
    requires m.available
    ensures (forall k | 0 <= k <= |rs| :: ClusterRun(m, rs[..k]).available)
       <==> forall i | 0 <= i < |rs| && rs[i].Failure? && rs[i].counts && !rs[i].spared ::
              Early(m, rs, i, 10, 5_000_000_000, 10_000_000_000)
  {
    StaysUpIff(CLUSTER, m, rs);
    assert forall i | 0 <= i < |rs| && rs[i].Failure? && rs[i].counts && !rs[i].spared ::
        Trips(CLUSTER, m, rs, i) == !Early(m, rs, i, 10, 5_000_000_000, 10_000_000_000);
    forall k | 0 <= k <= |rs| ensures ClusterRun(m, rs[..k]).available <==> Run(CLUSTER, m, rs[..k]).available {
      ClusterRunIs(m, rs[..k]);
    }
  }

  // ---------- going down and coming back ----------

  /** The latest success of a run, whether or not the target was up. */
  lemma {:induction false} LatestIsKept(limits: Limits, m: Monitor, rs: seq<Report>)
    ensures Run(limits, m, rs).lastSuccess == Latest(m.lastSuccess, rs)
    decreases |rs|
  {
    if rs != [] { LatestIsKept(limits, m, rs[..|rs| - 1]); }
  }

  /** A success that the rate limiter lets through. */
  predicate Revives(r: Report) {
    r.Success? && r.counts
  }

  /** A target that is down stays down through a run exactly when no success is let through. */
  lemma StaysDownIff(limits: Limits, m: Monitor, rs: seq<Report>)
    requires !m.available
    ensures (forall k | 0 <= k <= |rs| :: !Run(limits, m, rs[..k]).available)
       <==> forall i | 0 <= i < |rs| :: !Revives(rs[i])
  {
    if forall k | 0 <= k <= |rs| :: !Run(limits, m, rs[..k]).available {
      forall i | 0 <= i < |rs| ensures !Revives(rs[i]) {
        assert rs[..i + 1][..i] == rs[..i];
        assert !Run(limits, m, rs[..i]).available && !Run(limits, m, rs[..i + 1]).available;
      }
    }
    if forall i | 0 <= i < |rs| :: !Revives(rs[i]) {
      forall k | 0 <= k <= |rs| ensures !Run(limits, m, rs[..k]).available { DownWithout(limits, m, rs[..k]); }
    }
  }

  lemma {:induction false} DownWithout(limits: Limits, m: Monitor, rs: seq<Report>)
    requires !m.available && forall i | 0 <= i < |rs| :: !Revives(rs[i])
    ensures !Run(limits, m, rs).available
    decreases |rs|
  {
    if rs != [] { DownWithout(limits, m, rs[..|rs| - 1]); }
  }

  /** The report that gives a target up as dead: a failure while it is down, over an hour after the
      latest success. */
  ghost predicate GivesUp(limits: Limits, m: Monitor, rs: seq<Report>, j: nat)
    requires j < |rs|
  {
    && rs[j].Failure? && !Run(limits, m, rs[..j]).available
    && rs[j].now - Latest(m.lastSuccess, rs[..j]) > 3_600_000_000_000
  }

  ghost predicate GaveUp(limits: Limits, m: Monitor, rs: seq<Report>) {
    exists j: nat | j < |rs| :: GivesUp(limits, m, rs, j) && forall k | j < k < |rs| :: !Revives(rs[k])
  }

  /** At the end of a run a target is dead exactly when it was given up and no success let through since. */
  lemma {:induction false} DeadIff(limits: Limits, m: Monitor, rs: seq<Report>)
    requires Sound(m) && !m.isDead
    ensures Run(limits, m, rs).isDead <==> GaveUp(limits, m, rs)
    decreases |rs|
  {
    if rs != [] {
      var n := |rs| - 1;
      var init := rs[..n];
      DeadIff(limits, m, init);
      RunIsSound(limits, m, init);
      LatestIsKept(limits, m, init);
      forall j: nat | j < n ensures GivesUp(limits, m, rs, j) <==> GivesUp(limits, m, init, j) {
        assert init[..j] == rs[..j];
      }
      GaveUpMore(limits, m, rs);
    }
  }

  lemma GaveUpMore(limits: Limits, m: Monitor, rs: seq<Report>)
    requires rs != []
    requires forall j: nat | j < |rs| - 1 :: GivesUp(limits, m, rs, j) <==> GivesUp(limits, m, rs[..|rs| - 1], j)
    ensures GaveUp(limits, m, rs)
       <==> || GivesUp(limits, m, rs, |rs| - 1)
            || (GaveUp(limits, m, rs[..|rs| - 1]) && !Revives(rs[|rs| - 1]))
  {
    var n := |rs| - 1;
    var init := rs[..n];
    if GaveUp(limits, m, rs) {
      var j: nat :| j < |rs| && GivesUp(limits, m, rs, j) && forall k | j < k < |rs| :: !Revives(rs[k]);
      if j < n { assert GivesUp(limits, m, init, j) && !Revives(rs[n]); }
    }
    if GaveUp(limits, m, init) && !Revives(rs[n]) {
      var j: nat :| j < n && GivesUp(limits, m, init, j) && forall k | j < k < n :: !Revives(init[k]);
      assert GivesUp(limits, m, rs, j);
      forall k | j < k < |rs| ensures !Revives(rs[k]) { if k < n { assert rs[k] == init[k]; } }
    }
  }
}
