/**
 The resolution of configEpoch collisions between masters.  Masters ping each other; a master that
 hears its own epoch from a master with a greater name takes a new epoch.  Packets may arrive late,
 out of order, more than once or never.
 */
module EpochCollision {
  import opened Common
  import opened ClusterNode

  /** A ping of a master: its currentEpoch and configEpoch when it was sent. */
  datatype Ping = Ping(src: NodeId, cur: nat, cfg: nat)

  datatype Masters = Masters(
    nodes: map<NodeId, Node>,
    net: set<Ping>,
    // bookkeeping
    held: map<NodeId, set<nat>>,    // every configEpoch each master has had
    moves: map<NodeId, nat>)        // how often it took a new one

  datatype Event = Send(n: NodeId) | Receive(n: NodeId, ping: Ping)

  predicate Descending(ids: seq<NodeId>) {
    forall a, b :: 0 <= a < b < |ids| ==> ids[b] < ids[a]
  }

  /** The masters are `ids`, greatest name first; every master knows every master. */
  ghost predicate WellFormed(ids: seq<NodeId>, s: Masters) {
    && Descending(ids)
    && (forall n :: n in ids <==> n in s.nodes)
    && s.held.Keys == s.nodes.Keys && s.moves.Keys == s.nodes.Keys
    && (forall n, x :: n in s.nodes && x in s.nodes ==> x in s.nodes[n].config)
  }

  /** Any epochs, as long as nobody is ahead of its currentEpoch or of what it knows of others. */
  ghost predicate Initial(ids: seq<NodeId>, s: Masters) {
    && WellFormed(ids, s)
    && s.net == {}
    && (forall n :: n in s.nodes ==> s.held[n] == {s.nodes[n].config[n]} && s.moves[n] == 0)
    && EpochsOk(s)
  }

  /** What a master stores of another is not newer than the truth, and at most its currentEpoch. */
  ghost predicate EpochsOk(s: Masters)
    requires forall n, x :: n in s.nodes && x in s.nodes ==> x in s.nodes[n].config
  {
    forall n, x :: n in s.nodes && x in s.nodes ==>
      s.nodes[n].config[x] <= s.nodes[x].config[x] && s.nodes[n].config[x] <= s.nodes[n].currentEpoch
  }

  function Fresh(s: Masters, n: NodeId): Ping
    requires n in s.nodes && n in s.nodes[n].config
  {
    Ping(n, s.nodes[n].currentEpoch, s.nodes[n].config[n])
  }

  /** The receiver of a ping: header, then collision. */
  function AfterPing(node: Node, me: NodeId, ping: Ping): (node': Node)
    requires me in node.config && ping.src in node.config
    ensures node'.config.Keys == node.config.Keys
  {
    ResolveCollision(ReceiveHeader(node, ping.src, ping.cur, ping.cfg), me, ping.src, ping.cfg, true)
  }

  /** The receiver takes a new epoch. */
  predicate Collides(node: Node, me: NodeId, ping: Ping)
    requires me in node.config && ping.src in node.config
  {
    me < ping.src && ping.cfg == node.config[me] && node.config[ping.src] <= ping.cfg
  }

  ghost predicate Enabled(ids: seq<NodeId>, s: Masters, e: Event) {
    WellFormed(ids, s) && e.n in s.nodes && (e.Receive? ==> e.ping in s.net && e.ping.src in s.nodes && e.ping.src != e.n)
  }

  ghost function Apply(ids: seq<NodeId>, s: Masters, e: Event): Masters
    requires Enabled(ids, s, e)
  {
    match e
    case Send(n) => s.(net := s.net + {Fresh(s, n)})
    case Receive(n, ping) =>
      var node := AfterPing(s.nodes[n], n, ping);
      var s' := s.(nodes := s.nodes[n := node]);
      if Collides(s.nodes[n], n, ping)
      then s'.(held := s.held[n := s.held[n] + {node.config[n]}], moves := s.moves[n := s.moves[n] + 1])
      else s'
  }

  ghost predicate Run(ids: seq<NodeId>, states: seq<Masters>, events: seq<Event>) {
    && |states| == |events| + 1
    && Initial(ids, states[0])
    && forall i :: 0 <= i < |events| ==> Enabled(ids, states[i], events[i]) && states[i + 1] == Apply(ids, states[i], events[i])
  }

  // ---------- invariant ----------

  lemma AfterPingEffect(node: Node, me: NodeId, ping: Ping)
    requires me in node.config && ping.src in node.config && ping.src != me && node.config[me] <= node.currentEpoch
    ensures var node' := AfterPing(node, me, ping);
      && node'.config.Keys == node.config.Keys
      && node.currentEpoch <= node'.currentEpoch && ping.cur <= node'.currentEpoch
      && node'.config[ping.src] == Max(node.config[ping.src], ping.cfg)
      && (forall x :: x in node.config && x != me && x != ping.src ==> node'.config[x] == node.config[x])
      && if Collides(node, me, ping) then node.config[me] < node'.config[me] <= node'.currentEpoch
         else node'.config[me] == node.config[me]
  {
  }

  /** A ping carries an epoch its sender has had, not above its currentEpoch then or its epoch now. */
  ghost predicate PingOk(s: Masters, ping: Ping) {
    ping.src in s.nodes && ping.src in s.held && ping.src in s.nodes[ping.src].config
    && ping.cfg in s.held[ping.src] && ping.cfg <= ping.cur && ping.cfg <= s.nodes[ping.src].config[ping.src]
  }

  /** An epoch a master gave up is one that a master with a greater name has had. */
  ghost predicate GivenUp(s: Masters, n: NodeId)
    requires n in s.nodes && n in s.nodes[n].config && n in s.held
  {
    forall e :: e in s.held[n] && e != s.nodes[n].config[n] ==>
      exists j :: j in s.nodes && n < j && j in s.held && e in s.held[j]
  }

  ghost predicate HistoryOk(s: Masters, n: NodeId)
    requires n in s.nodes && n in s.nodes[n].config && n in s.held && n in s.moves
  {
    && s.nodes[n].config[n] in s.held[n]
    && |s.held[n]| == s.moves[n] + 1
    && (forall e :: e in s.held[n] ==> e <= s.nodes[n].config[n])
    && GivenUp(s, n)
  }

  ghost predicate Invariant(ids: seq<NodeId>, s: Masters) {
    && WellFormed(ids, s) && EpochsOk(s)
    && (forall ping :: ping in s.net ==> PingOk(s, ping))
    && (forall n :: n in s.nodes ==> HistoryOk(s, n))
  }

  lemma InitialInvariant(ids: seq<NodeId>, s: Masters)
    requires Initial(ids, s)
    ensures Invariant(ids, s)
  {
  }

  // Facts of the invariant, one at a time.

  lemma MasterFacts(ids: seq<NodeId>, s: Masters, n: NodeId)
    requires Invariant(ids, s) && n in s.nodes
    ensures WellFormed(ids, s) && n in s.nodes[n].config && n in s.held && n in s.moves && HistoryOk(s, n)
    ensures s.nodes[n].config[n] <= s.nodes[n].currentEpoch
  {
  }

  lemma PairFacts(ids: seq<NodeId>, s: Masters, n: NodeId, x: NodeId)
    requires Invariant(ids, s) && n in s.nodes && x in s.nodes
    ensures x in s.nodes[n].config && x in s.nodes[x].config
    ensures s.nodes[n].config[x] <= s.nodes[x].config[x] && s.nodes[n].config[x] <= s.nodes[n].currentEpoch
  {
  }

  lemma PingFacts(ids: seq<NodeId>, s: Masters, ping: Ping)
    requires Invariant(ids, s) && ping in s.net
    ensures PingOk(s, ping)
  {
  }

  lemma ReceiverEffect(ids: seq<NodeId>, s: Masters, e: Event)
    requires Invariant(ids, s) && Enabled(ids, s, e) && e.Receive?
    ensures e.n in s.nodes[e.n].config && e.ping.src in s.nodes[e.n].config
    ensures var node, node' := s.nodes[e.n], AfterPing(s.nodes[e.n], e.n, e.ping);
      && node'.config.Keys == node.config.Keys
      && node.currentEpoch <= node'.currentEpoch && e.ping.cur <= node'.currentEpoch
      && node'.config[e.ping.src] == Max(node.config[e.ping.src], e.ping.cfg)
      && (forall x :: x in node.config && x != e.n && x != e.ping.src ==> node'.config[x] == node.config[x])
      && if Collides(node, e.n, e.ping) then node.config[e.n] < node'.config[e.n] <= node'.currentEpoch
         else node'.config[e.n] == node.config[e.n]
  {
    hide Invariant;
    MasterFacts(ids, s, e.n);
    AfterPingEffect(s.nodes[e.n], e.n, e.ping);
  }

  lemma StepShape(ids: seq<NodeId>, s: Masters, e: Event)
    requires Invariant(ids, s) && Enabled(ids, s, e)
    ensures WellFormed(ids, Apply(ids, s, e)) && Apply(ids, s, e).nodes.Keys == s.nodes.Keys
  {
    hide AfterPing, Collides, Invariant, WellFormed;
    MasterFields(ids, s, e.n);
    if e.Receive? {
      ReceiverEffect(ids, s, e);
    }
    SameShape(ids, s, Apply(ids, s, e));
  }

  lemma SameShape(ids: seq<NodeId>, s: Masters, s': Masters)
    requires WellFormed(ids, s) && s'.nodes.Keys == s.nodes.Keys && s'.held.Keys == s.held.Keys && s'.moves.Keys == s.moves.Keys
    requires forall n :: n in s.nodes ==> s'.nodes[n].config.Keys == s.nodes[n].config.Keys
    ensures WellFormed(ids, s')
  {
    hide Descending;
    assert forall n :: n in s.nodes <==> n in s'.nodes;
    forall n, x | n in s'.nodes && x in s'.nodes ensures x in s'.nodes[n].config {
      assert x in s.nodes[n].config;
    }
  }

  lemma StepPair(ids: seq<NodeId>, s: Masters, e: Event, n: NodeId, x: NodeId)
    requires Invariant(ids, s) && Enabled(ids, s, e) && n in s.nodes && x in s.nodes
    ensures var s' := Apply(ids, s, e);
      && n in s'.nodes && x in s'.nodes && x in s'.nodes[n].config && x in s'.nodes[x].config
      && s'.nodes[n].config[x] <= s'.nodes[x].config[x] && s'.nodes[n].config[x] <= s'.nodes[n].currentEpoch
  {
    hide AfterPing, Collides, Invariant, WellFormed;
    MasterFacts(ids, s, n);
    PairFacts(ids, s, n, x);
    if e.Receive? {
      PingFacts(ids, s, e.ping);
      ReceiverEffect(ids, s, e);
    }
  }

  lemma StepEpochs(ids: seq<NodeId>, s: Masters, e: Event)
    requires Invariant(ids, s) && Enabled(ids, s, e)
    ensures WellFormed(ids, Apply(ids, s, e)) && EpochsOk(Apply(ids, s, e))
  {
    hide Apply, Invariant, Enabled;
    StepShape(ids, s, e);
    forall n, x | n in s.nodes && x in s.nodes
      ensures var s' := Apply(ids, s, e);
        s'.nodes[n].config[x] <= s'.nodes[x].config[x] && s'.nodes[n].config[x] <= s'.nodes[n].currentEpoch
    {
      StepPair(ids, s, e, n, x);
    }
  }

  lemma StepPing(ids: seq<NodeId>, s: Masters, e: Event, ping: Ping)
    requires Invariant(ids, s) && Enabled(ids, s, e) && ping in Apply(ids, s, e).net
    ensures PingOk(Apply(ids, s, e), ping)
  {
    hide AfterPing, Collides, Invariant, WellFormed, GivenUp;
    if e.Receive? {
      PingFacts(ids, s, ping);
      ReceiverEffect(ids, s, e);
    } else if ping in s.net {
      PingFacts(ids, s, ping);
    } else {
      MasterFacts(ids, s, e.n);
    }
  }

  lemma StepGivenUp(ids: seq<NodeId>, s: Masters, e: Event, n: NodeId)
    requires Invariant(ids, s) && Enabled(ids, s, e) && n in s.nodes
    ensures WellFormed(ids, Apply(ids, s, e)) && GivenUp(Apply(ids, s, e), n)
  {
    hide AfterPing, Invariant, WellFormed;
    StepShape(ids, s, e);
    MasterFacts(ids, s, n);
    var s' := Apply(ids, s, e);
    MasterFields(ids, s', n);
    if e.Receive? {
      PingFacts(ids, s, e.ping);
      ReceiverEffect(ids, s, e);
    }
    forall x | x in s'.held[n] && x != s'.nodes[n].config[n]
      ensures exists j :: j in s'.nodes && n < j && j in s'.held && x in s'.held[j]
    {
      if x == s.nodes[n].config[n] {
        assert e.ping.src in s'.nodes && n < e.ping.src && e.ping.src in s'.held && x in s'.held[e.ping.src];
      } else {
        var j :| j in s.nodes && n < j && j in s.held && x in s.held[j];
        assert j in s'.nodes && j in s'.held && x in s'.held[j];
      }
    }
  }

  lemma StepHistory(ids: seq<NodeId>, s: Masters, e: Event, n: NodeId)
    requires Invariant(ids, s) && Enabled(ids, s, e) && n in s.nodes
    ensures WellFormed(ids, Apply(ids, s, e)) && HistoryOk(Apply(ids, s, e), n)
  {
    hide AfterPing, Invariant, WellFormed, GivenUp;
    StepShape(ids, s, e);
    MasterFacts(ids, s, n);
    MasterFields(ids, Apply(ids, s, e), n);
    StepGivenUp(ids, s, e, n);
    if e.Receive? {
      ReceiverEffect(ids, s, e);
    }
  }

  lemma MasterFields(ids: seq<NodeId>, s: Masters, n: NodeId)
    requires WellFormed(ids, s) && n in s.nodes
    ensures n in s.nodes[n].config && n in s.held && n in s.moves
  {
  }

  lemma StepInvariant(ids: seq<NodeId>, s: Masters, e: Event)
    requires Invariant(ids, s) && Enabled(ids, s, e)
    ensures Invariant(ids, Apply(ids, s, e))
  {
    hide Apply, HistoryOk, PingOk, EpochsOk, Enabled;
    StepShape(ids, s, e);
    StepEpochs(ids, s, e);
    forall ping | ping in Apply(ids, s, e).net
      ensures PingOk(Apply(ids, s, e), ping)
    {
      StepPing(ids, s, e, ping);
    }
    forall n | n in Apply(ids, s, e).nodes
      ensures HistoryOk(Apply(ids, s, e), n)
    {
      StepHistory(ids, s, e, n);
    }
  }

  lemma {:induction false} RunInvariant(ids: seq<NodeId>, states: seq<Masters>, events: seq<Event>, i: nat)
    requires Run(ids, states, events) && i < |states|
    ensures Invariant(ids, states[i])
  {
    hide Invariant, Apply, Enabled, Initial;
    if i == 0 {
      InitialInvariant(ids, states[0]);
    } else {
      RunInvariant(ids, states, events, i - 1);
      StepInvariant(ids, states[i - 1], events[i - 1]);
    }
  }

  // ---------- how many moves ----------

  /** All epochs ever held by the k masters with the greatest names. */
  ghost function HeldByTop(ids: seq<NodeId>, s: Masters, k: nat): set<nat>
    requires k <= |ids| && forall n :: n in ids ==> n in s.held
  {
    if k == 0 then {} else HeldByTop(ids, s, k - 1) + s.held[ids[k - 1]]
  }

  lemma {:induction false} HeldInTop(ids: seq<NodeId>, s: Masters, k: nat, a: nat)
    requires a < k <= |ids| && forall n :: n in ids ==> n in s.held
    ensures s.held[ids[a]] <= HeldByTop(ids, s, k)
  {
    if a < k - 1 {
      HeldInTop(ids, s, k - 1, a);
    }
  }

  /** The ids are the masters, so the bookkeeping covers them. */
  lemma IdFacts(ids: seq<NodeId>, s: Masters)
    requires WellFormed(ids, s)
    ensures Descending(ids) && forall n :: n in ids ==> n in s.nodes && n in s.held && n in s.moves
    ensures forall n :: n in s.nodes ==> n in ids
  {
  }

  lemma GivenUpIsAbove(ids: seq<NodeId>, s: Masters, k: nat, e: nat)
    requires Invariant(ids, s) && WellFormed(ids, s) && 0 < k <= |ids| && ids[k - 1] in s.held && ids[k - 1] in s.nodes
    requires forall n :: n in ids ==> n in s.held
    requires ids[k - 1] in s.nodes[ids[k - 1]].config && e in s.held[ids[k - 1]] && e != s.nodes[ids[k - 1]].config[ids[k - 1]]
    ensures e in HeldByTop(ids, s, k - 1)
  {
    hide Invariant, WellFormed, HeldByTop;
    var n := ids[k - 1];
    IdFacts(ids, s);
    MasterFacts(ids, s, n);
    var j :| j in s.nodes && n < j && j in s.held && e in s.held[j];
    var a :| 0 <= a < |ids| && ids[a] == j;
    HeldInTop(ids, s, k - 1, a);
  }

  /** The k greatest masters together never hold more than k different epochs. */
  lemma {:induction false} FewEpochs(ids: seq<NodeId>, s: Masters, k: nat)
    requires Invariant(ids, s) && k <= |ids| && forall n :: n in ids ==> n in s.held
    ensures |HeldByTop(ids, s, k)| <= k
  {
    hide Invariant, WellFormed, GivenUp;
    if k > 0 {
      FewEpochs(ids, s, k - 1);
      var n := ids[k - 1];
      assert WellFormed(ids, s) by { InvariantShape(ids, s); }
      IdFacts(ids, s);
      MasterFacts(ids, s, n);
      forall e | e in s.held[n] && e != s.nodes[n].config[n]
        ensures e in HeldByTop(ids, s, k - 1)
      {
        GivenUpIsAbove(ids, s, k, e);
      }
      assert HeldByTop(ids, s, k) == HeldByTop(ids, s, k - 1) + {s.nodes[n].config[n]};
    }
  }

  lemma InvariantShape(ids: seq<NodeId>, s: Masters)
    requires Invariant(ids, s)
    ensures WellFormed(ids, s)
  {
  }

  ghost function TotalMoves(ids: seq<NodeId>, s: Masters, k: nat): nat
    requires k <= |ids| && forall n :: n in ids ==> n in s.moves
  {
    if k == 0 then 0 else TotalMoves(ids, s, k - 1) + s.moves[ids[k - 1]]
  }

  lemma {:induction false} MovesBounded(ids: seq<NodeId>, s: Masters, k: nat)
    requires Invariant(ids, s) && k <= |ids| && forall n :: n in ids ==> n in s.moves
    ensures forall a :: 0 <= a < k ==> s.moves[ids[a]] <= a
    ensures 2 * TotalMoves(ids, s, k) <= k * (k - 1)
  {
    hide Invariant, WellFormed, GivenUp, HeldByTop;
    if k > 0 {
      MovesBounded(ids, s, k - 1);
      InvariantShape(ids, s);
      IdFacts(ids, s);
      MasterFacts(ids, s, ids[k - 1]);
      FewEpochs(ids, s, k);
      HeldInTop(ids, s, k, k - 1);
      SubsetSize(s.held[ids[k - 1]], HeldByTop(ids, s, k));
      assert s.moves[ids[k - 1]] <= k - 1;
      Triangle(k);
    }
  }

  lemma Triangle(k: nat)
    requires k > 0
    ensures (k - 1) * (k - 2) + 2 * (k - 1) == k * (k - 1)
  {
  }

  /**
   In every run the master with the greatest name never moves, the a-th greatest moves at most a
   times, and n masters move at most n(n-1)/2 times in all.
   */
  lemma CollisionsTerminate(ids: seq<NodeId>, states: seq<Masters>, events: seq<Event>, i: nat)
    requires Run(ids, states, events) && i < |states|
    ensures WellFormed(ids, states[i]) && forall n :: n in ids ==> n in states[i].moves
    ensures forall a :: 0 <= a < |ids| ==> states[i].moves[ids[a]] <= a
    ensures 2 * TotalMoves(ids, states[i], |ids|) <= |ids| * (|ids| - 1)
  {
    hide Run, Invariant, TotalMoves;
    RunInvariant(ids, states, events, i);
    InvariantShape(ids, states[i]);
    IdFacts(ids, states[i]);
    MovesBounded(ids, states[i], |ids|);
  }

  // ---------- where it ends ----------

  /** No master would move on hearing from any other right now. */
  ghost predicate Settled(ids: seq<NodeId>, s: Masters)
    requires WellFormed(ids, s)
  {
    forall n, j :: n in s.nodes && j in s.nodes && n != j ==>
      AfterPing(s.nodes[n], n, Fresh(s, j)).config[n] == s.nodes[n].config[n]
  }

  ghost predicate AllDistinct(ids: seq<NodeId>, s: Masters)
    requires WellFormed(ids, s)
  {
    forall n, j :: n in s.nodes && j in s.nodes && n != j ==> s.nodes[n].config[n] != s.nodes[j].config[j]
  }

  lemma FreshPing(ids: seq<NodeId>, s: Masters, n: NodeId, j: NodeId)
    requires Invariant(ids, s) && n in s.nodes && j in s.nodes && n != j
    ensures n in s.nodes[n].config && j in s.nodes[n].config && j in s.nodes[j].config
    ensures AfterPing(s.nodes[n], n, Fresh(s, j)).config[n] == s.nodes[n].config[n] <==>
      !(n < j && s.nodes[n].config[n] == s.nodes[j].config[j])
  {
    hide Invariant, AfterPing;
    MasterFacts(ids, s, n);
    MasterFacts(ids, s, j);
    PairFacts(ids, s, n, j);
    AfterPingEffect(s.nodes[n], n, Fresh(s, j));
  }

  /** In every state of every run, the collisions are over exactly when all masters have different epochs. */
  lemma SettledIffDistinct(ids: seq<NodeId>, states: seq<Masters>, events: seq<Event>, i: nat)
    requires Run(ids, states, events) && i < |states|
    ensures WellFormed(ids, states[i])
    ensures Settled(ids, states[i]) <==> AllDistinct(ids, states[i])
  {
    hide AfterPing, Invariant, Run;
    RunInvariant(ids, states, events, i);
    var s := states[i];
    InvariantShape(ids, s);
    forall n, j | n in s.nodes && j in s.nodes && n != j
      ensures AfterPing(s.nodes[n], n, Fresh(s, j)).config[n] == s.nodes[n].config[n] <==>
        !(n < j && s.nodes[n].config[n] == s.nodes[j].config[j])
    {
      FreshPing(ids, s, n, j);
    }
    if Settled(ids, s) {
      forall n, j | n in s.nodes && j in s.nodes && n != j
        ensures s.nodes[n].config[n] != s.nodes[j].config[j]
      {
        if n < j {
          assert AfterPing(s.nodes[n], n, Fresh(s, j)).config[n] == s.nodes[n].config[n];
        } else {
          assert AfterPing(s.nodes[j], j, Fresh(s, n)).config[j] == s.nodes[j].config[j];
        }
      }
    }
  }
}
