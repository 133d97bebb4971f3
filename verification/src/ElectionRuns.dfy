/**
 Runs of the election protocol that the code can make, put together event by event: slaves schedule,
 ask and win, all masters of a set vote, and all their votes are counted.
 */
module ElectionRuns {
  import opened Common
  import opened ClusterNode
  import opened Election
  import opened ElectionTiming

  // ---------- runs that the code can make ----------

  /** A cluster whose master `failed` has failed, and how votes may arrive. */
  datatype Setup = Setup(p: Params, failed: NodeId, bound: nat, outlive: bool)

  /**
   What the rest of the code makes of the contexts of an event: elections are scheduled 500 ms ahead
   at least and only by slaves; a vote is given only by a master with slots, not by the failed one,
   for a slave, and not within two node timeouts, at most auth_timeout, of the last one.
   */
  predicate Plausible(x: Setup, s: Cluster, e: Event) {
    match e
    case Failover(n, _, _, delay, rankDelay, _) => n !in x.p.masters && delay >= 500 && rankDelay % 1000 == 0
    case ReceiveRequest(n, m, vote, _, _) =>
      && (vote.canVote ==> n in x.p.masters)
      && (vote.mayFailover ==> m.src !in x.p.masters && n != x.failed)
      && (!vote.votedRecently ==> n in s.ledgers && VotedLongAgo(x, s, n))
    case _ => true
  }

  predicate VotedLongAgo(x: Setup, s: Cluster, n: NodeId)
    requires n in s.ledgers
  {
    s.ledgers[n].votedAt.Some? ==> s.ledgers[n].votedAt.value + x.p.timeout <= s.now
  }

  predicate Allowed(x: Setup, s: Cluster, e: Event) {
    Plausible(x, s, e) && Within(x.bound, s, e) && (x.outlive || SameLife(s, e))
  }

  ghost predicate RunOf(x: Setup, states: seq<Cluster>, events: seq<Event>) {
    Run(x.p, states, events) && forall i :: 0 <= i < |events| ==> Allowed(x, states[i], events[i])
  }

  ghost predicate Reachable(x: Setup, s: Cluster) {
    exists states, events :: RunOf(x, states, events) && states[|events|] == s
  }

  lemma ReachStep(x: Setup, s: Cluster, e: Event)
    requires Reachable(x, s) && WellFormed(s) && Enabled(x.p, s, e) && Allowed(x, s, e)
    ensures WellFormed(Apply(x.p, s, e)) && Reachable(x, Apply(x.p, s, e))
  {
    hide Apply, Enabled, Initial, WellFormed, Allowed;
    ApplyWellFormed(x.p, s, e);
    var states, events :| RunOf(x, states, events) && states[|events|] == s;
    var states', events' := states + [Apply(x.p, s, e)], events + [e];
    forall i | 0 <= i < |events'|
      ensures Step(x.p, states'[i], events'[i], states'[i + 1]) && Allowed(x, states'[i], events'[i])
    {
      if i < |events| {
        assert Step(x.p, states[i], events[i], states[i + 1]);
      }
    }
    assert RunOf(x, states', events');
  }

  // ---------- single events ----------

  /** Reached, with nodes that know each other and nobody's configuration epoch above 0. */
  ghost predicate Reached(x: Setup, s: Cluster, all: set<NodeId>) {
    && Reachable(x, s) && WellFormed(s) && s.nodes.Keys == all
    && forall n :: n in s.nodes ==> s.nodes[n].config == Zeros(all)
  }

  function Zeros(all: set<NodeId>): map<NodeId, nat> {
    map n | n in all :: 0
  }

  lemma {:induction false} TimePasses(x: Setup, s: Cluster, all: set<NodeId>, ticks: nat)
    requires Reached(x, s, all)
    ensures Reached(x, s.(now := s.now + ticks), all)
    decreases ticks
  {
    if ticks == 0 {
      assert s.(now := s.now + ticks) == s;
    } else {
      TimePasses(x, s, all, ticks - 1);
      var s' := s.(now := s.now + (ticks - 1));
      assert Apply(x.p, s', Tick) == s'.(now := s'.now + 1);
      ReachStep(x, s', Tick);
    }
  }

  /** Slave n considers a failover, with no rank delay. */
  function Tries(n: NodeId): Event {
    Failover(n, true, false, 500, 0, n)
  }

  /** What the events do; the lemmas after these put them at the end of a run. */
  lemma Scheduling(p: Params, s: Cluster, n: NodeId)
    requires WellFormed(s) && n in s.nodes && s.now - s.nodes[n].authTime > 2 * p.timeout
    ensures Enabled(p, s, Tries(n)) && Apply(p, s, Tries(n)) ==
      s.(nodes := s.nodes[n := s.nodes[n].(authTime := s.now + 500, authCount := 0, authSent := false)],
         ledgers := s.ledgers[n := s.ledgers[n].(counted := {}, stale := 0)])
  {
  }

  function Asking(node: Node): Node {
    node.(currentEpoch := node.currentEpoch + 1, authEpoch := node.currentEpoch + 1, authSent := true)
  }

  lemma AskingEffect(p: Params, s: Cluster, n: NodeId)
    requires WellFormed(s) && n in s.nodes
    requires !s.nodes[n].authSent && s.nodes[n].authTime <= s.now <= s.nodes[n].authTime + p.timeout
    ensures Enabled(p, s, Tries(n)) && Apply(p, s, Tries(n)) ==
      s.(nodes := s.nodes[n := Asking(s.nodes[n])],
         net := s.net + {VoteRequest(n, s.nodes[n].currentEpoch + 1, s.nodes[n].config[n], s.now, s.ledgers[n].life)},
         ledgers := s.ledgers[n := s.ledgers[n].(asked := s.nodes[n].currentEpoch + 1)])
  {
  }

  lemma Winning(p: Params, s: Cluster, n: NodeId)
    requires WellFormed(s) && n in s.nodes && s.nodes[n].authCount >= Quorum(p)
    requires s.nodes[n].authSent && s.nodes[n].authTime <= s.now <= s.nodes[n].authTime + p.timeout
    ensures Enabled(p, s, Tries(n))
    ensures var s' := Apply(p, s, Tries(n));
      && s'.now == s.now && s'.nodes.Keys == s.nodes.Keys && (forall k :: k in s.nodes && k != n ==> s'.nodes[k] == s.nodes[k])
      && s'.wins == s.wins + {Win(n, s.nodes[n].authEpoch, s.ledgers[n].counted, s.ledgers[n].stale)}
  {
  }

  lemma Restarting(p: Params, s: Cluster, n: NodeId)
    requires WellFormed(s) && n in s.nodes && Persisted(s.nodes[n], s.ledgers[n].asked, s.nodes[n].currentEpoch)
    ensures var e := Restart(n, s.nodes[n].currentEpoch);
      Enabled(p, s, e) && Apply(p, s, e) ==
        s.(nodes := s.nodes[n := s.nodes[n].(authTime := 0, authCount := 0, authSent := false, authEpoch := 0)],
           ledgers := s.ledgers[n := s.ledgers[n].(counted := {}, stale := 0, life := s.ledgers[n].life + 1)])
  {
  }

  /** Node n hears of the epoch of a request, and votes or not. */
  function Hearing(n: NodeId, m: Message, votes: bool): Event {
    ReceiveRequest(n, m, VoteContext(votes, votes, !votes, true), true, n)
  }

  function VoteOf(v: NodeId, m: Message): Message
    requires m.VoteRequest?
  {
    Vote(v, m.cur, 0, m.src, m.askedAt, m.life)
  }

  lemma HearingEffect(p: Params, s: Cluster, n: NodeId, m: Message)
    requires WellFormed(s) && CanReceive(s, n, m) && m.VoteRequest? && s.nodes[n].currentEpoch <= m.cur && m.cfg <= s.nodes[n].config[m.src]
    ensures Enabled(p, s, Hearing(n, m, false))
    ensures Apply(p, s, Hearing(n, m, false)) == s.(nodes := s.nodes[n := s.nodes[n].(currentEpoch := m.cur)])
  {
    assert s.nodes[n].config[m.src := s.nodes[n].config[m.src]] == s.nodes[n].config;
  }

  lemma Voting(p: Params, s: Cluster, v: NodeId, m: Message)
    requires WellFormed(s) && CanReceive(s, v, m) && m.VoteRequest? && m.cfg <= s.nodes[v].config[m.src] && s.nodes[v].config[v] == 0
    requires s.nodes[v].currentEpoch <= m.cur && s.nodes[v].lastVoteEpoch < m.cur
    ensures Enabled(p, s, Hearing(v, m, true)) && Apply(p, s, Hearing(v, m, true)) ==
      s.(nodes := s.nodes[v := s.nodes[v].(currentEpoch := m.cur, lastVoteEpoch := m.cur)],
         net := s.net + {VoteOf(v, m)},
         votes := s.votes[(v, m.cur) := m.src],
         ledgers := s.ledgers[v := s.ledgers[v].(votedAt := Some(s.now))])
  {
    assert s.nodes[v].config[m.src := s.nodes[v].config[m.src]] == s.nodes[v].config;
  }

  lemma Delivering(p: Params, s: Cluster, n: NodeId, m: Message)
    requires WellFormed(s) && CanReceive(s, n, m) && m.Vote? && m.dst == n && m.src in p.masters
    requires s.nodes[n].authEpoch <= m.cur <= s.nodes[n].currentEpoch && m.cfg <= s.nodes[n].config[m.src]
    ensures Enabled(p, s, ReceiveVote(n, m))
    ensures var s' := Apply(p, s, ReceiveVote(n, m));
      && n in s'.ledgers && s'.ledgers[n].life == s.ledgers[n].life && s'.ledgers[n].asked == s.ledgers[n].asked
      && s' == s.(nodes := s.nodes[n := s.nodes[n].(authCount := s.nodes[n].authCount + 1)],
                  net := s.net - {m},
                  ledgers := s.ledgers[n := s'.ledgers[n]])
  {
    assert s.nodes[n].config[m.src := s.nodes[n].config[m.src]] == s.nodes[n].config;
  }

  lemma Schedules(x: Setup, s: Cluster, all: set<NodeId>, n: NodeId) returns (s': Cluster)
    requires Reached(x, s, all) && n in all && n !in x.p.masters && s.now - s.nodes[n].authTime > 2 * x.p.timeout
    ensures Reached(x, s', all)
    ensures s' == s.(nodes := s.nodes[n := s.nodes[n].(authTime := s.now + 500, authCount := 0, authSent := false)],
                     ledgers := s.ledgers[n := s.ledgers[n].(counted := {}, stale := 0)])
  {
    hide Reachable, Apply, Enabled, Zeros;
    Scheduling(x.p, s, n);
    s' := Apply(x.p, s, Tries(n));
    ReachStep(x, s, Tries(n));
  }

  lemma Asks(x: Setup, s: Cluster, all: set<NodeId>, n: NodeId) returns (s': Cluster)
    requires Reached(x, s, all) && n in all && n !in x.p.masters
    requires !s.nodes[n].authSent && s.nodes[n].authTime <= s.now <= s.nodes[n].authTime + x.p.timeout
    ensures Reached(x, s', all)
    ensures s' == s.(nodes := s.nodes[n := Asking(s.nodes[n])],
                     net := s.net + {VoteRequest(n, s.nodes[n].currentEpoch + 1, 0, s.now, s.ledgers[n].life)},
                     ledgers := s.ledgers[n := s.ledgers[n].(asked := s.nodes[n].currentEpoch + 1)])
  {
    assert s.nodes[n].config[n] == 0;
    hide Reachable, Apply, Enabled, Zeros;
    AskingEffect(x.p, s, n);
    s' := Apply(x.p, s, Tries(n));
    ReachStep(x, s, Tries(n));
  }

  lemma Wins(x: Setup, s: Cluster, n: NodeId) returns (s': Cluster)
    requires Reachable(x, s) && WellFormed(s) && n in s.nodes && n !in x.p.masters
    requires s.nodes[n].authSent && s.nodes[n].authTime <= s.now <= s.nodes[n].authTime + x.p.timeout
    requires s.nodes[n].authCount >= Quorum(x.p)
    ensures Reachable(x, s') && WellFormed(s') && s'.now == s.now
    ensures s'.wins == s.wins + {Win(n, s.nodes[n].authEpoch, s.ledgers[n].counted, s.ledgers[n].stale)}
    ensures s'.nodes.Keys == s.nodes.Keys && forall k :: k in s.nodes && k != n ==> s'.nodes[k] == s.nodes[k]
  {
    hide Reachable, Apply, Enabled;
    Winning(x.p, s, n);
    s' := Apply(x.p, s, Tries(n));
    ReachStep(x, s, Tries(n));
  }

  lemma Restarts(x: Setup, s: Cluster, all: set<NodeId>, n: NodeId) returns (s': Cluster)
    requires Reached(x, s, all) && n in all && s.nodes[n].lastVoteEpoch <= s.nodes[n].currentEpoch && s.ledgers[n].asked <= s.nodes[n].currentEpoch
    ensures Reached(x, s', all)
    ensures s' == s.(nodes := s.nodes[n := s.nodes[n].(authTime := 0, authCount := 0, authSent := false, authEpoch := 0)],
                     ledgers := s.ledgers[n := s.ledgers[n].(counted := {}, stale := 0, life := s.ledgers[n].life + 1)])
  {
    assert Persisted(s.nodes[n], s.ledgers[n].asked, s.nodes[n].currentEpoch);
    hide Reachable, Apply, Enabled, Zeros;
    var e := Restart(n, s.nodes[n].currentEpoch);
    Restarting(x.p, s, n);
    s' := Apply(x.p, s, e);
    ReachStep(x, s, e);
  }

  lemma Hears(x: Setup, s: Cluster, all: set<NodeId>, n: NodeId, m: Message) returns (s': Cluster)
    requires Reached(x, s, all) && n in all && m in s.net && m.VoteRequest? && m.src in all && m.cfg == 0 && s.nodes[n].currentEpoch <= m.cur
    ensures Reached(x, s', all)
    ensures s' == s.(nodes := s.nodes[n := s.nodes[n].(currentEpoch := m.cur)])
  {
    assert m.src in s.nodes[n].config;
    hide Reachable, Apply, Enabled, Zeros;
    HearingEffect(x.p, s, n, m);
    s' := Apply(x.p, s, Hearing(n, m, false));
    ReachStep(x, s, Hearing(n, m, false));
  }

  /** Master v votes for the slave that asks. */
  lemma Votes(x: Setup, s: Cluster, all: set<NodeId>, v: NodeId, m: Message) returns (s': Cluster)
    requires Reached(x, s, all) && v in all && m in s.net && m.VoteRequest? && m.src in all && m.cfg == 0
    requires v in x.p.masters && v != x.failed && m.src !in x.p.masters && VotedLongAgo(x, s, v)
    requires s.nodes[v].currentEpoch <= m.cur && s.nodes[v].lastVoteEpoch < m.cur
    ensures Reached(x, s', all)
    ensures s' == s.(nodes := s.nodes[v := s.nodes[v].(currentEpoch := m.cur, lastVoteEpoch := m.cur)],
                     net := s.net + {VoteOf(v, m)},
                     votes := s.votes[(v, m.cur) := m.src],
                     ledgers := s.ledgers[v := s.ledgers[v].(votedAt := Some(s.now))])
  {
    assert m.src in s.nodes[v].config && s.nodes[v].config[v] == 0;
    hide Reachable, Apply, Enabled, Zeros;
    Voting(x.p, s, v, m);
    s' := Apply(x.p, s, Hearing(v, m, true));
    ReachStep(x, s, Hearing(v, m, true));
  }

  /** Slave n takes in a vote, for its running election or for the one it has scheduled. */
  lemma Counts(x: Setup, s: Cluster, all: set<NodeId>, n: NodeId, m: Message) returns (s': Cluster)
    requires Reached(x, s, all) && n in all && m in s.net && m.Vote? && m.dst == n && m.src in all && m.src in x.p.masters && m.cfg == 0
    requires s.nodes[n].authEpoch <= m.cur <= s.nodes[n].currentEpoch
    requires s.now <= m.askedAt + x.bound && (x.outlive || m.life == s.ledgers[n].life)
    ensures Reached(x, s', all) && Counted(s, s', n, 1) && s'.net == s.net - {m}
  {
    hide Reachable, Reached, WellFormed, Apply, Enabled, Zeros;
    KnowsAll(x, s, all, n, m.src);
    Delivering(x.p, s, n, m);
    s' := Apply(x.p, s, ReceiveVote(n, m));
    ReachStep(x, s, ReceiveVote(n, m));
    StillReached(x, s, s', all);
  }

  lemma KnowsAll(x: Setup, s: Cluster, all: set<NodeId>, n: NodeId, k: NodeId)
    requires Reached(x, s, all) && n in all && k in all
    ensures Reachable(x, s) && WellFormed(s) && s.nodes.Keys == all && s.ledgers.Keys == all
    ensures k in s.nodes[n].config && s.nodes[n].config[k] == 0
  {
  }

  lemma StillReached(x: Setup, s: Cluster, s': Cluster, all: set<NodeId>)
    requires Reached(x, s, all) && Reachable(x, s') && WellFormed(s') && s'.nodes.Keys == all
    requires forall n :: n in all ==> s'.nodes[n].config == s.nodes[n].config
    ensures Reached(x, s', all)
  {
    hide Reachable, WellFormed, Zeros;
  }

  // ---------- all voters ----------

  /** These masters may vote in an epoch. */
  ghost predicate CanVote(x: Setup, s: Cluster, vs: set<NodeId>, epoch: nat) {
    vs <= s.nodes.Keys && vs <= s.ledgers.Keys && vs <= x.p.masters - {x.failed} &&
    forall v :: v in vs ==> s.nodes[v].currentEpoch <= epoch && s.nodes[v].lastVoteEpoch < epoch && VotedLongAgo(x, s, v)
  }

  /** Only the votes of these nodes distinguish the two states. */
  ghost predicate Voted(s: Cluster, s': Cluster, m: Message, vs: set<NodeId>)
    requires m.VoteRequest? && vs <= s.nodes.Keys && vs <= s.ledgers.Keys
  {
    && s'.now == s.now && s'.wins == s.wins
    && VotedNodes(s.nodes, s'.nodes, m.cur, vs) && VotedLedgers(s.ledgers, s'.ledgers, s.now, vs)
    && s.net <= s'.net && forall v :: v in vs ==> VoteOf(v, m) in s'.net
  }

  ghost predicate VotedNodes(nodes: map<NodeId, Node>, nodes': map<NodeId, Node>, epoch: nat, vs: set<NodeId>) {
    nodes'.Keys == nodes.Keys && forall n :: n in nodes ==>
      nodes'[n] == if n in vs then nodes[n].(currentEpoch := epoch, lastVoteEpoch := epoch) else nodes[n]
  }

  ghost predicate VotedLedgers(ledgers: map<NodeId, Ledger>, ledgers': map<NodeId, Ledger>, now: nat, vs: set<NodeId>) {
    ledgers'.Keys == ledgers.Keys && forall n :: n in ledgers ==>
      ledgers'[n] == if n in vs then ledgers[n].(votedAt := Some(now)) else ledgers[n]
  }

  lemma OneMoreVotedNode(nodes: map<NodeId, Node>, nodes': map<NodeId, Node>, epoch: nat, v: NodeId, vs: set<NodeId>)
    requires v in vs && v in nodes
    requires VotedNodes(nodes[v := nodes[v].(currentEpoch := epoch, lastVoteEpoch := epoch)], nodes', epoch, vs - {v})
    ensures VotedNodes(nodes, nodes', epoch, vs)
  {
  }

  lemma OneMoreVotedLedger(ledgers: map<NodeId, Ledger>, ledgers': map<NodeId, Ledger>, now: nat, v: NodeId, vs: set<NodeId>)
    requires v in vs && v in ledgers
    requires VotedLedgers(ledgers[v := ledgers[v].(votedAt := Some(now))], ledgers', now, vs - {v})
    ensures VotedLedgers(ledgers, ledgers', now, vs)
  {
  }

  lemma OneMoreVoted(s: Cluster, mid: Cluster, s': Cluster, m: Message, v: NodeId, vs: set<NodeId>)
    requires m.VoteRequest? && v in vs && vs <= s.nodes.Keys && vs <= s.ledgers.Keys
    requires mid == s.(nodes := s.nodes[v := s.nodes[v].(currentEpoch := m.cur, lastVoteEpoch := m.cur)], net := s.net + {VoteOf(v, m)},
                       votes := mid.votes, ledgers := s.ledgers[v := s.ledgers[v].(votedAt := Some(s.now))])
    requires vs - {v} <= mid.nodes.Keys && vs - {v} <= mid.ledgers.Keys && Voted(mid, s', m, vs - {v})
    ensures Voted(s, s', m, vs)
  {
    hide VotedNodes, VotedLedgers;
    OneMoreVotedNode(s.nodes, s'.nodes, m.cur, v, vs);
    OneMoreVotedLedger(s.ledgers, s'.ledgers, s.now, v, vs);
    forall n | n in vs ensures VoteOf(n, m) in s'.net {
      assert n == v || n in vs - {v};
    }
  }

  lemma {:induction false} AllVote(x: Setup, s: Cluster, all: set<NodeId>, m: Message, vs: set<NodeId>) returns (s': Cluster)
    requires Reached(x, s, all) && m in s.net && m.VoteRequest? && m.src in all && m.cfg == 0 && m.src !in x.p.masters
    requires CanVote(x, s, vs, m.cur)
    ensures Reached(x, s', all) && Voted(s, s', m, vs)
    decreases |vs|
  {
    hide Reached;
    assert s.nodes.Keys == all && WellFormed(s) by { ReachedFacts(x, s, all); }
    if vs == {} {
      s' := s;
    } else {
      var v :| v in vs;
      var mid := Votes(x, s, all, v, m);
      assert CanVote(x, mid, vs - {v}, m.cur);
      s' := AllVote(x, mid, all, m, vs - {v});
      hide CanVote, Voted;
      OneMoreVoted(s, mid, s', m, v, vs);
    }
  }

  lemma ReachedFacts(x: Setup, s: Cluster, all: set<NodeId>)
    requires Reached(x, s, all)
    ensures s.nodes.Keys == all && WellFormed(s) && Reachable(x, s)
  {
  }

  /** The votes of these masters are on their way and may be delivered. */
  ghost predicate Arriving(x: Setup, s: Cluster, m: Message, vs: set<NodeId>) {
    && m.VoteRequest? && m.src in s.nodes && m.src in s.ledgers && vs <= x.p.masters && vs <= s.nodes.Keys
    && s.nodes[m.src].authEpoch <= m.cur <= s.nodes[m.src].currentEpoch
    && s.now <= m.askedAt + x.bound && (x.outlive || m.life == s.ledgers[m.src].life)
    && forall v :: v in vs ==> VoteOf(v, m) in s.net
  }

  /** Only what n counted distinguishes the two states. */
  ghost predicate Counted(s: Cluster, s': Cluster, n: NodeId, votes: nat)
    requires n in s.nodes && n in s.ledgers
  {
    && s'.now == s.now && s'.wins == s.wins && n in s'.ledgers
    && s'.nodes == s.nodes[n := s.nodes[n].(authCount := s.nodes[n].authCount + votes)]
    && s'.ledgers == s.ledgers[n := s'.ledgers[n]]
    && s'.ledgers[n].life == s.ledgers[n].life && s'.ledgers[n].asked == s.ledgers[n].asked
  }

  lemma {:induction false} AllCount(x: Setup, s: Cluster, all: set<NodeId>, m: Message, vs: set<NodeId>) returns (s': Cluster)
    requires Reached(x, s, all) && Arriving(x, s, m, vs)
    ensures Reached(x, s', all) && Counted(s, s', m.src, |vs|)
    decreases |vs|
  {
    hide Reached;
    assert s.nodes.Keys == all && WellFormed(s) by { ReachedFacts(x, s, all); }
    if vs == {} {
      s' := s;
      assert s'.nodes == s.nodes[m.src := s.nodes[m.src]] && s'.ledgers == s.ledgers[m.src := s.ledgers[m.src]];
    } else {
      var v :| v in vs;
      var mid := Counts(x, s, all, m.src, VoteOf(v, m));
      assert Arriving(x, mid, m, vs - {v});
      s' := AllCount(x, mid, all, m, vs - {v});
    }
  }
}
