/**
 The conditions of election safety are exact.  In every cluster with three or more masters, if one of
 them fails, its slaves can win the same epoch twice as soon as votes may be one unit later than
 auth_timeout, or as soon as votes may outlive a restart of the slave that asked for them.

 Slave a asks in epoch 1 and all other masters vote for it, but the votes reach a only after it has
 scheduled its next election.  In epoch 2 all masters vote for slave b, which wins; a asks in epoch 2
 as well and wins on the votes of epoch 1 alone.
 */
module LateVote {
  import opened Common
  import opened ClusterNode
  import opened Election
  import opened ElectionTiming
  import opened ElectionRuns

  // ---------- the two elections ----------

  /** The masters, one of them failed, and two of its slaves. */
  ghost predicate Scene(x: Setup, all: set<NodeId>, a: NodeId, b: NodeId) {
    && x.failed in x.p.masters && |x.p.masters| >= 3
    && a !in x.p.masters && b !in x.p.masters && a != b && all == x.p.masters + {a, b}
  }

  function Voters(x: Setup): set<NodeId> {
    x.p.masters - {x.failed}
  }

  /** All masters but the failed one are a quorum. */
  lemma VotersAreQuorum(x: Setup)
    requires x.failed in x.p.masters && |x.p.masters| >= 3
    ensures |Voters(x)| >= Quorum(x.p)
  {
    assert x.p.masters == Voters(x) + {x.failed};
  }

  function Idle(all: set<NodeId>): Node {
    Node(0, 0, Zeros(all), 0, 0, false, 0)
  }

  lemma Start(x: Setup, all: set<NodeId>) returns (s: Cluster)
    ensures Reached(x, s, all)
    ensures s == Cluster(map n | n in all :: Idle(all), {}, 2 * x.p.timeout + 1, map[], map n | n in all :: Ledger({}, 0, 0, 0, None), {})
  {
    s := Cluster(map n | n in all :: Idle(all), {}, 2 * x.p.timeout + 1, map[], map n | n in all :: Ledger({}, 0, 0, 0, None), {});
    var states, events: seq<Event> := [s], [];
    assert RunOf(x, states, events) && states[|events|] == s;
  }

  /** The request of slave a in epoch 1. */
  function FirstRequest(a: NodeId, t: nat): Message {
    VoteRequest(a, 1, 0, t, 0)
  }

  /** Slave a, with its election scheduled for authTime, has asked at time s.now; the votes for it are on their way. */
  ghost predicate Asked(x: Setup, s: Cluster, all: set<NodeId>, a: NodeId, b: NodeId, authTime: nat) {
    && Scene(x, all, a, b) && s.nodes.Keys == all && s.ledgers.Keys == all && s.wins == {}
    && s.nodes[a] == Node(1, 0, Zeros(all), authTime, 0, true, 1) && s.ledgers[a].asked == 1 && s.ledgers[a].life == 0
    && s.nodes[b] == Idle(all).(currentEpoch := 1) && s.ledgers[b].asked == 0
    && forall v :: v in Voters(x) ==>
      && s.nodes[v] == Idle(all).(currentEpoch := 1, lastVoteEpoch := 1) && s.ledgers[v].votedAt == Some(s.now)
      && VoteOf(v, FirstRequest(a, s.now)) in s.net
  }

  /** Slave a has asked at time s.now; nobody has heard of it yet. */
  ghost predicate JustAsked(x: Setup, s: Cluster, all: set<NodeId>, a: NodeId, b: NodeId, authTime: nat) {
    && Scene(x, all, a, b) && s.nodes.Keys == all && s.ledgers.Keys == all && s.wins == {}
    && s.nodes[a] == Node(1, 0, Zeros(all), authTime, 0, true, 1) && s.ledgers[a].asked == 1 && s.ledgers[a].life == 0
    && FirstRequest(a, s.now) in s.net
    && forall n :: n in all && n != a ==> s.nodes[n] == Idle(all) && s.ledgers[n] == Ledger({}, 0, 0, 0, None)
  }

  lemma FirstAsks(x: Setup, all: set<NodeId>, a: NodeId, b: NodeId, wait: nat) returns (s: Cluster)
    requires Scene(x, all, a, b) && wait <= x.p.timeout
    ensures Reached(x, s, all) && s.now == 2 * x.p.timeout + 501 + wait && JustAsked(x, s, all, a, b, s.now - wait)
  {
    hide Reached, Zeros;
    s := Start(x, all);
    s := Schedules(x, s, all, a);
    TimePasses(x, s, all, 500 + wait);
    s := s.(now := s.now + (500 + wait));
    s := Asks(x, s, all, a);
  }

  lemma AllMayVote(x: Setup, s: Cluster, all: set<NodeId>, a: NodeId, b: NodeId, authTime: nat)
    requires JustAsked(x, s, all, a, b, authTime)
    ensures a in all && b in all && a !in x.p.masters && FirstRequest(a, s.now) in s.net && CanVote(x, s, Voters(x), 1)
  {
  }

  lemma AllVotedFirst(x: Setup, s: Cluster, s': Cluster, all: set<NodeId>, a: NodeId, b: NodeId, authTime: nat)
    requires JustAsked(x, s, all, a, b, authTime)
    requires Voters(x) <= s.nodes.Keys && Voters(x) <= s.ledgers.Keys && Voted(s, s', FirstRequest(a, s.now), Voters(x))
    ensures s'.nodes.Keys == all && s'.nodes[b].currentEpoch == 0 && s'.now == s.now && FirstRequest(a, s.now) in s'.net
    ensures Asked(x, s'.(nodes := s'.nodes[b := s'.nodes[b].(currentEpoch := 1)]), all, a, b, authTime)
  {
  }

  lemma FirstElection(x: Setup, all: set<NodeId>, a: NodeId, b: NodeId, wait: nat) returns (s: Cluster)
    requires Scene(x, all, a, b) && wait <= x.p.timeout
    ensures Reached(x, s, all) && s.now == 2 * x.p.timeout + 501 + wait && Asked(x, s, all, a, b, s.now - wait)
  {
    hide Reached, Zeros, JustAsked, Asked, Voted, Scene, CanVote;
    s := FirstAsks(x, all, a, b, wait);
    AllMayVote(x, s, all, a, b, s.now - wait);
    var m := FirstRequest(a, s.now);
    var s' := AllVote(x, s, all, m, Voters(x));
    AllVotedFirst(x, s, s', all, a, b, s.now - wait);
    s := Hears(x, s', all, b, m);
  }

  /** Slave a is about to ask again, with old votes counted already, and so is slave b; the masters may vote again. */
  ghost predicate Ready(x: Setup, s: Cluster, all: set<NodeId>, a: NodeId, b: NodeId) {
    && Scene(x, all, a, b) && s.nodes.Keys == all && s.ledgers.Keys == all && s.wins == {}
    && !s.nodes[a].authSent && s.nodes[a].authTime <= s.now <= s.nodes[a].authTime + x.p.timeout
    && s.nodes[a].currentEpoch == 1 && s.nodes[a].authCount >= Quorum(x.p)
    && !s.nodes[b].authSent && s.nodes[b].authTime <= s.now <= s.nodes[b].authTime + x.p.timeout
    && s.nodes[b].currentEpoch == 1
    && CanVote(x, s, Voters(x), 2)
  }

  /** Slave b has asked in epoch 2, and all voters have voted for it. */
  lemma OtherAsks(x: Setup, s: Cluster, all: set<NodeId>, a: NodeId, b: NodeId) returns (s': Cluster, m: Message)
    requires Reached(x, s, all) && Ready(x, s, all, a, b)
    ensures Reached(x, s', all) && s'.nodes.Keys == all && s'.now == s.now && s'.nodes[a] == s.nodes[a]
    ensures s'.nodes[b] == Asking(s.nodes[b]) && Arriving(x, s', m, Voters(x)) && m.src == b
  {
    hide Reached;
    var s1 := Asks(x, s, all, b);
    m := VoteRequest(b, 2, 0, s.now, s.ledgers[b].life);
    assert CanVote(x, s1, Voters(x), 2);
    s' := AllVote(x, s1, all, m, Voters(x));
  }

  /** Slave b has counted the votes of all voters. */
  lemma OtherElected(x: Setup, s: Cluster, all: set<NodeId>, a: NodeId, b: NodeId) returns (s': Cluster)
    requires Reached(x, s, all) && Ready(x, s, all, a, b)
    ensures Reached(x, s', all) && s'.nodes.Keys == all && s'.now == s.now && s'.nodes[a] == s.nodes[a]
    ensures s'.nodes[b] == Asking(s.nodes[b]).(authCount := s'.nodes[b].authCount) && s'.nodes[b].authCount >= Quorum(x.p)
  {
    hide Reached, CanVote;
    var s1, m := OtherAsks(x, s, all, a, b);
    s' := AllCount(x, s1, all, m, Voters(x));
    VotersAreQuorum(x);
  }

  /** Both slaves ask in epoch 2, all voters vote for b, and both win. */
  lemma SecondElection(x: Setup, s: Cluster, all: set<NodeId>, a: NodeId, b: NodeId) returns (s': Cluster, w: Win, w': Win)
    requires Reached(x, s, all) && Ready(x, s, all, a, b)
    ensures Reachable(x, s') && w in s'.wins && w' in s'.wins && w.epoch == w'.epoch && w.node != w'.node
  {
    hide Reached, CanVote;
    var s1 := OtherElected(x, s, all, a, b);
    var s2 := Asks(x, s1, all, a);
    ReachedFacts(x, s2, all);
    var s3 := Wins(x, s2, b);
    s' := Wins(x, s3, a);
    w := Win(b, 2, s2.ledgers[b].counted, s2.ledgers[b].stale);
    w' := Win(a, 2, s3.ledgers[a].counted, s3.ledgers[a].stale);
  }

  /** Slave a has scheduled its next election, with old votes counted already; the masters may vote again. */
  ghost predicate Overcounted(x: Setup, s: Cluster, all: set<NodeId>, a: NodeId, b: NodeId) {
    && Scene(x, all, a, b) && s.nodes.Keys == all && s.ledgers.Keys == all && s.wins == {}
    && !s.nodes[a].authSent && s.nodes[a].authTime <= s.now + 500 <= s.nodes[a].authTime + x.p.timeout
    && s.nodes[a].currentEpoch == 1 && s.nodes[a].authCount >= Quorum(x.p)
    && s.nodes[b] == Idle(all).(currentEpoch := 1) && s.now > 2 * x.p.timeout
    && CanVote(x, s, Voters(x), 2)
  }

  /** The change of a slave, or time, does not keep masters from voting. */
  lemma StillMayVote(x: Setup, s: Cluster, s': Cluster, n: NodeId)
    requires CanVote(x, s, Voters(x), 2) && n !in x.p.masters && n in s'.nodes && n in s'.ledgers
    requires s'.nodes == s.nodes[n := s'.nodes[n]] && s'.ledgers == s.ledgers[n := s'.ledgers[n]] && s.now <= s'.now
    ensures CanVote(x, s', Voters(x), 2)
  {
  }

  lemma OtherSchedules(x: Setup, s: Cluster, all: set<NodeId>, a: NodeId, b: NodeId) returns (s': Cluster)
    requires Reached(x, s, all) && Overcounted(x, s, all, a, b)
    ensures Reached(x, s', all) && Ready(x, s', all, a, b)
  {
    hide Reached, Zeros, CanVote;
    var s1 := Schedules(x, s, all, b);
    TimePasses(x, s1, all, 500);
    s' := s1.(now := s1.now + 500);
    StillMayVote(x, s, s', b);
  }

  /** Slave a has scheduled its next election while the votes for the first are on their way. */
  ghost predicate Rescheduled(x: Setup, s: Cluster, all: set<NodeId>, a: NodeId, b: NodeId, ticks: nat) {
    && Scene(x, all, a, b) && s.nodes.Keys == all && s.ledgers.Keys == all && s.wins == {}
    && !s.nodes[a].authSent && s.nodes[a].authTime <= s.now + ticks + 500 <= s.nodes[a].authTime + x.p.timeout
    && s.nodes[a].currentEpoch == 1
    && s.nodes[b] == Idle(all).(currentEpoch := 1) && s.now > 2 * x.p.timeout
    && CanVote(x, s.(now := s.now + ticks), Voters(x), 2)
  }

  lemma OldVotesCount(x: Setup, s: Cluster, all: set<NodeId>, a: NodeId, b: NodeId, m: Message, ticks: nat) returns (s': Cluster)
    requires Reached(x, s, all) && Rescheduled(x, s, all, a, b, ticks) && Arriving(x, s, m, Voters(x)) && m.src == a
    ensures Reached(x, s', all) && Overcounted(x, s', all, a, b)
  {
    hide Reached, Zeros, CanVote;
    var s1 := AllCount(x, s, all, m, Voters(x));
    TimePasses(x, s1, all, ticks);
    s' := s1.(now := s1.now + ticks);
    VotersAreQuorum(x);
    StillMayVote(x, s.(now := s.now + ticks), s', a);
  }

  /** The votes for a arrive one unit after the timeout, when a has just scheduled its next election. */
  lemma VotesArriveLate(x: Setup, all: set<NodeId>, a: NodeId, b: NodeId) returns (s: Cluster)
    requires Scene(x, all, a, b) && x.bound > x.p.timeout
    ensures Reached(x, s, all) && Overcounted(x, s, all, a, b)
  {
    hide Reached, Zeros;
    var t := x.p.timeout;
    var s0 := FirstElection(x, all, a, b, t);
    TimePasses(x, s0, all, t + 1);
    s := Schedules(x, s0.(now := s0.now + (t + 1)), all, a);
    assert Rescheduled(x, s, all, a, b, 0);
    s := OldVotesCount(x, s, all, a, b, FirstRequest(a, s0.now), 0);
  }

  /** The votes for a arrive at once, but a has been restarted and has scheduled its next election. */
  lemma VotesOutliveRestart(x: Setup, all: set<NodeId>, a: NodeId, b: NodeId) returns (s: Cluster)
    requires Scene(x, all, a, b) && x.outlive
    ensures Reached(x, s, all) && Overcounted(x, s, all, a, b)
  {
    hide Reached, Zeros;
    var s0 := FirstElection(x, all, a, b, 0);
    var s1 := Restarts(x, s0, all, a);
    s := Schedules(x, s1, all, a);
    assert Rescheduled(x, s, all, a, b, x.p.timeout);
    s := OldVotesCount(x, s, all, a, b, FirstRequest(a, s0.now), x.p.timeout);
  }

  // ---------- the theorems ----------

  ghost predicate OneWinner(s: Cluster) {
    forall w, w' :: w in s.wins && w' in s.wins && w.epoch == w'.epoch ==> w.node == w'.node
  }

  /** No state reached with votes delayed by at most bound, and none outliving a restart, has two winners of one epoch. */
  ghost predicate SafeWithin(p: Params, bound: nat) {
    forall failed, s :: Reachable(Setup(p, failed, bound, false), s) ==> OneWinner(s)
  }

  /** The same if votes may outlive restarts. */
  ghost predicate SafeOverRestarts(p: Params, bound: nat) {
    forall failed, s :: Reachable(Setup(p, failed, bound, true), s) ==> OneWinner(s)
  }

  /** Every cluster is safe if no vote takes longer than the timeout. */
  lemma SafeWithinTimeout(p: Params, bound: nat)
    requires bound <= p.timeout
    ensures SafeWithin(p, bound)
  {
    forall failed, s, w, w' | Reachable(Setup(p, failed, bound, false), s) && w in s.wins && w' in s.wins && w.epoch == w'.epoch
      ensures w.node == w'.node
    {
      var x := Setup(p, failed, bound, false);
      var states, events :| RunOf(x, states, events) && states[|events|] == s;
      hide Run;
      assert |states| == |events| + 1 by { RunLength(p, states, events); }
      forall i | 0 <= i < |events| ensures Timely(p, states[i], events[i]) && SameLife(states[i], events[i]) {
        assert Allowed(x, states[i], events[i]);
      }
      ElectionSafety(p, states, events, |events|, w, w');
    }
  }

  lemma RunLength(p: Params, states: seq<Cluster>, events: seq<Event>)
    requires Run(p, states, events)
    ensures |states| == |events| + 1
  {
  }

  /** Two names that no master has. */
  lemma NewNames(masters: set<NodeId>) returns (a: NodeId, b: NodeId)
    ensures a !in masters && b !in masters && a != b
  {
    var top := UpperBound(masters);
    a, b := top + 1, top + 2;
  }

  lemma {:induction false} UpperBound(masters: set<NodeId>) returns (top: NodeId)
    ensures forall n :: n in masters ==> n <= top
    decreases |masters|
  {
    if masters == {} {
      top := 0;
    } else {
      var n :| n in masters;
      var rest := UpperBound(masters - {n});
      top := Max(n, rest);
      forall k | k in masters ensures k <= top {
        assert k == n || k in masters - {n};
      }
    }
  }

  /** In any cluster of three or more masters, if votes may take longer than the timeout, two slaves can win the same epoch. */
  lemma LateVoteElectsTwo(p: Params, bound: nat) returns (failed: NodeId, s: Cluster, w: Win, w': Win)
    requires |p.masters| >= 3 && bound > p.timeout
    ensures failed in p.masters && Reachable(Setup(p, failed, bound, false), s)
    ensures w in s.wins && w' in s.wins && w.epoch == w'.epoch && w.node != w'.node
  {
    failed :| failed in p.masters;
    var x := Setup(p, failed, bound, false);
    var a, b := NewNames(p.masters);
    var all := p.masters + {a, b};
    hide Reached, Reachable, Ready, Overcounted;
    s := VotesArriveLate(x, all, a, b);
    s := OtherSchedules(x, s, all, a, b);
    s, w, w' := SecondElection(x, s, all, a, b);
  }

  /** The same, however fast votes are, if they may outlive a restart. */
  lemma RestartElectsTwo(p: Params, bound: nat) returns (failed: NodeId, s: Cluster, w: Win, w': Win)
    requires |p.masters| >= 3
    ensures failed in p.masters && Reachable(Setup(p, failed, bound, true), s)
    ensures w in s.wins && w' in s.wins && w.epoch == w'.epoch && w.node != w'.node
  {
    failed :| failed in p.masters;
    var x := Setup(p, failed, bound, true);
    var a, b := NewNames(p.masters);
    var all := p.masters + {a, b};
    hide Reached, Reachable, Ready, Overcounted;
    s := VotesOutliveRestart(x, all, a, b);
    s := OtherSchedules(x, s, all, a, b);
    s, w, w' := SecondElection(x, s, all, a, b);
  }

  /** The timeout is the exact bound: a cluster of three or more masters is safe if and only if no vote takes longer. */
  lemma TimeoutIsExact(p: Params, bound: nat)
    requires |p.masters| >= 3
    ensures SafeWithin(p, bound) <==> bound <= p.timeout
  {
    hide Reachable;
    if bound <= p.timeout {
      SafeWithinTimeout(p, bound);
    } else {
      var failed, s, w, w' := LateVoteElectsTwo(p, bound);
      assert !OneWinner(s);
    }
  }

  /** No bound on the delay makes up for votes that outlive a restart. */
  lemma RestartsAreExact(p: Params, bound: nat)
    requires |p.masters| >= 3
    ensures !SafeOverRestarts(p, bound)
  {
    hide Reachable;
    var failed, s, w, w' := RestartElectsTwo(p, bound);
    assert !OneWinner(s);
  }
}
