/**
 The handlers of a node are the events of the cluster: each method below runs one on an object that
 stands for a node of a cluster and leaves it standing for that node after the event.  And what a
 win means for the winner, in every run.
 */
module ElectionSteps {
  import opened Common
  import opened ClusterNode
  import opened Election
  import opened ClusterHandlers

  // ---------- handlers and events ----------

  /** The object holds node n of the cluster. */
  ghost predicate Stands(o: ClusterState, s: Cluster, n: NodeId)
    reads o
  {
    o.Valid() && o.me == n && n in s.nodes && o.View() == s.nodes[n]
  }

  lemma StandsKnows(o: ClusterState, s: Cluster, n: NodeId, k: NodeId)
    requires Stands(o, s, n)
    ensures k in o.nodes <==> k in s.nodes[n].config
  {
  }

  /** A PING or PONG: the header, then the test for a collision. */
  method TakePing(o: ClusterState, m: Message, ghost p: Params, ghost s: Cluster)
    requires WellFormed(s) && Stands(o, s, o.me) && m.Ping? && CanReceive(s, o.me, m)
    modifies o
    ensures var e := Event.ReceivePing(o.me, m, old(o.nodes[o.me].master && m.src in o.nodes && o.nodes[m.src].master));
      Enabled(p, s, e) && Stands(o, Apply(p, s, e), o.me)
  {
    StandsKnows(o, s, o.me, m.src);
    o.ReceiveHeader(m.src, m.cur, m.cfg);
    o.HandleConfigEpochCollision(m.src, m.cfg);
  }

  /** A request for a vote: the header, then the vote, if it is granted. */
  method TakeRequest(o: ClusterState, m: Message, request: Request, now: int, nodeTimeout: nat, reply: bool,
                     ghost p: Params, ghost s: Cluster) returns (granted: bool, ghost e: Event)
    requires WellFormed(s) && Stands(o, s, o.me) && m.VoteRequest? && CanReceive(s, o.me, m)
    requires |request.slots| == SLOTS && request.currentEpoch == m.cur
    modifies o
    ensures e.ReceiveRequest? && e.n == o.me && e.m == m && Enabled(p, s, e) && Stands(o, Apply(p, s, e), o.me)
    ensures granted <==> Grants(s, e)
  {
    StandsKnows(o, s, o.me, m.src);
    o.ReceiveHeader(m.src, m.cur, m.cfg);
    e := ReceiveRequest(o.me, m, o.VoteView(m.src, request, now, nodeTimeout), reply, o.me);
    granted := o.SendFailoverAuthIfNeeded(m.src, request, now, nodeTimeout);
  }

  /** A vote: the header, then the count.  The masters with slots are those of the cluster. */
  method TakeVote(o: ClusterState, m: Message, ghost p: Params, ghost s: Cluster)
    requires WellFormed(s) && Stands(o, s, o.me) && m.Vote? && m.dst == o.me && CanReceive(s, o.me, m)
    requires m.src in o.nodes && (o.nodes[m.src].master && o.nodes[m.src].numslots > 0 <==> m.src in p.masters)
    modifies o
    ensures var e := Event.ReceiveVote(o.me, m);
      Enabled(p, s, e) && Stands(o, Apply(p, s, e), o.me)
  {
    o.ReceiveHeader(m.src, m.cur, m.cfg);
    o.ReceiveVote(m.src, m.cur);
  }

  /** A slave considers a failover.  It wins exactly when the cluster records a win. */
  method TakeFailover(o: ClusterState, c: Settings, now: int, dataAge: int, offset: int, random: nat,
                      ghost p: Params, ghost s: Cluster) returns (action: Action, ghost e: Event)
    requires WellFormed(s) && Stands(o, s, o.me) && now == s.now
    requires o.size == |p.masters| && p.timeout == if c.nodeTimeout * 2 < 2000 then 2000 else c.nodeTimeout * 2
    modifies o
    ensures e.Failover? && e.n == o.me && Enabled(p, s, e) && Stands(o, Apply(p, s, e), o.me)
    ensures action == Act(p, s, e)
    ensures action.Promote? ==> 2 * old(o.authCount) > |p.masters| && o.nodes[o.me].configEpoch >= old(o.authEpoch)
  {
    ghost var ctx := o.FailoverView(c, dataAge, offset, random);
    e := Failover(o.me, ctx.eligible, ctx.manual, ctx.delay, ctx.rankDelay, o.me);
    o.ContextMeans(c, dataAge, offset, random);
    assert Context(p, e) == ctx;
    action := o.HandleSlaveFailover(c, now, dataAge, offset, random);
  }

  /** A unilateral bump of the epoch, unless the node already has the greatest one. */
  method TakeBump(o: ClusterState, ghost p: Params, ghost s: Cluster) returns (ok: bool, ghost e: Event)
    requires WellFormed(s) && Stands(o, s, o.me)
    modifies o
    ensures e.BumpEpoch? && e.n == o.me && Enabled(p, s, e) && Stands(o, Apply(p, s, e), o.me)
  {
    var max := o.GetMaxEpoch();
    e := BumpEpoch(o.me, max);
    ok := o.BumpConfigEpochWithoutConsensus();
  }

  // ---------- what a win means ----------

  /** No event lowers the configEpoch a node has given itself. */
  lemma OwnEpochGrows(p: Params, s: Cluster, e: Event)
    requires WellFormed(s) && Dominated(s) && Enabled(p, s, e) && HasActor(e)
    ensures e.n in s.nodes[e.n].config && e.n in NewNode(p, s, e).config
    ensures NewNode(p, s, e).config[e.n] >= s.nodes[e.n].config[e.n]
  {
    EnabledFacts(p, s, e);
    NewNodeKnowsItself(p, s, e);
    if e.ReceivePing? || e.ReceiveUpdate? || e.ReceiveRequest? || e.ReceiveVote? {
      hide *;
      ReceiverEpochGrows(p, s, e);
    } else {
      assert NodeDominated(s.nodes[e.n]);
    }
  }

  lemma ReceiverEpochGrows(p: Params, s: Cluster, e: Event)
    requires WellFormed(s) && Dominated(s) && Enabled(p, s, e)
    requires e.ReceivePing? || e.ReceiveUpdate? || e.ReceiveRequest? || e.ReceiveVote?
    ensures e.n in s.nodes[e.n].config && e.n in NewNode(p, s, e).config
    ensures NewNode(p, s, e).config[e.n] >= s.nodes[e.n].config[e.n]
  {
    var node := Header(s, e.n, e.m);
    HeaderDominated(s.nodes[e.n], e.m.src, e.m.cur, e.m.cfg);
    assert e.n in node.config && s.nodes[e.n].config[e.n] <= node.config[e.n] <= node.currentEpoch;
    hide ReceiveHeader, Dominated, WellFormed;
  }

  lemma WinTakesEpoch(p: Params, s: Cluster, e: Event)
    requires WellFormed(s) && Enabled(p, s, e) && e.Failover? && Act(p, s, e).Promote?
    ensures NewNode(p, s, e).config[e.n] >= s.nodes[e.n].authEpoch
  {
    hide HandleFailover;
    FailoverMeans(s.nodes[e.n], e.n, s.now, Context(p, e));
  }

  ghost predicate WinsTaken(s: Cluster) {
    forall w :: w in s.wins ==> w.node in s.nodes && w.node in s.nodes[w.node].config && s.nodes[w.node].config[w.node] >= w.epoch
  }

  lemma StepWinsTaken(p: Params, s: Cluster, e: Event)
    requires WellFormed(s) && Dominated(s) && Enabled(p, s, e) && WinsTaken(s)
    ensures WinsTaken(Apply(p, s, e))
  {
    hide NewNode, NewLedger, NewVotes, Sent, Lost, Dominated, Enabled, Act;
    EnabledFacts(p, s, e);
    if HasActor(e) {
      OwnEpochGrows(p, s, e);
      if e.Failover? && Act(p, s, e) == Promote {
        WinTakesEpoch(p, s, e);
      }
    }
  }

  /** In every state of every run a node that has won an election has a configEpoch of at least the epoch of the win. */
  lemma {:induction false} WinnerHasEpoch(p: Params, states: seq<Cluster>, events: seq<Event>, i: nat)
    requires Run(p, states, events) && i < |states|
    ensures forall w :: w in states[i].wins ==>
      w.node in states[i].nodes && w.node in states[i].nodes[w.node].config && states[i].nodes[w.node].config[w.node] >= w.epoch
  {
    hide Apply, Enabled, Dominated, WellFormed;
    if i > 0 {
      WinnerHasEpoch(p, states, events, i - 1);
      EpochDominance(p, states, events, i - 1);
      assert Step(p, states[i - 1], events[i - 1], states[i]);
      StepWinsTaken(p, states[i - 1], events[i - 1]);
    }
  }
}
