/**
 The handlers of cluster.c that change epochs, votes and elections, as code over the node's state.
 Each is proved to do to the protocol part of that state, `View()`, exactly what the corresponding
 function of `ClusterNode` says.
 */
module ClusterHandlers {
  import opened Common
  import opened ClusterNode

  /** What this node stores about a node of the cluster. */
  datatype NodeRecord = NodeRecord(
    configEpoch: nat,
    master: bool,
    failed: bool,
    noFailover: bool,
    slaveof: Option<NodeId>,
    slaves: seq<NodeId>,
    numslots: nat,
    votedTime: int,
    replOffset: int)

  /** A FAILOVER_AUTH_REQUEST packet. */
  datatype Request = Request(currentEpoch: nat, configEpoch: nat, slots: seq<bool>, force: bool)

  datatype Settings = Settings(nodeTimeout: nat, validityFactor: nat, pingPeriod: nat, noFailover: bool)

  /** `auth_timeout` */
  function AuthTimeout(c: Settings): nat {
    if c.nodeTimeout * 2 < 2000 then 2000 else c.nodeTimeout * 2
  }

  class ClusterState {
    const me: NodeId
    var currentEpoch: nat
    var lastVoteEpoch: nat
    var nodes: map<NodeId, NodeRecord>
    var slots: seq<Option<NodeId>>      // the owner of each slot
    var size: nat                       // number of masters with slots
    var authTime: int
    var authCount: nat
    var authSent: bool
    var authRank: nat
    var authEpoch: nat
    var manualFailover: bool            // mf_end != 0
    var manualCanStart: bool            // mf_can_start

    ghost predicate Valid()
      reads this
    {
      && me in nodes && |slots| == SLOTS
      && (forall j :: 0 <= j < SLOTS && slots[j].Some? ==> slots[j].value in nodes)
      && (forall n :: n in nodes ==> nodes[n].slaveof.Some? ==> nodes[n].slaveof.value in nodes)
      && (forall n, i :: n in nodes && 0 <= i < |nodes[n].slaves| ==> nodes[n].slaves[i] in nodes)
    }

    ghost function View(): Node
      reads this
    {
      Node(currentEpoch, lastVoteEpoch, map n | n in nodes :: nodes[n].configEpoch, authTime, authCount, authSent, authEpoch)
    }

    // ---------- epochs ----------

    method ReceiveHeader(src: NodeId, cur: nat, cfg: nat)
      requires Valid()
      modifies this
      ensures Valid() && slots == old(slots)
      ensures src in old(nodes) ==> View() == ClusterNode.ReceiveHeader(old(View()), src, cur, cfg)
      ensures src in old(nodes) ==>
        && currentEpoch == (if cur > old(currentEpoch) then cur else old(currentEpoch))
        && nodes == old(nodes)[src := old(nodes)[src].(configEpoch :=
             if cfg > old(nodes)[src].configEpoch then cfg else old(nodes)[src].configEpoch)]
      ensures src !in old(nodes) ==> unchanged(this)
    {
      if src in nodes {
        if cur > currentEpoch {
          currentEpoch := cur;
        }
        RaiseConfigEpoch(src, cfg);
      }
    }

    method RaiseConfigEpoch(n: NodeId, epoch: nat)
      requires Valid() && n in nodes
      modifies this`nodes
      ensures Valid() && View() == old(View()).(config := old(View()).config[n := Max(old(View()).config[n], epoch)])
      ensures nodes == old(nodes)[n := old(nodes)[n].(configEpoch :=
        if epoch > old(nodes)[n].configEpoch then epoch else old(nodes)[n].configEpoch)]
    {
      if epoch > nodes[n].configEpoch {
        nodes := nodes[n := nodes[n].(configEpoch := epoch)];
      } else {
        assert View().config[n := View().config[n]] == View().config;
      }
    }

    method GetMaxEpoch() returns (max: nat)
      requires Valid()
      ensures IsMaxEpoch(View(), max)
    {
      max := 0;
      var left := nodes.Keys;
      while left != {}
        invariant left <= nodes.Keys
        invariant forall n :: n in nodes && n !in left ==> nodes[n].configEpoch <= max
        invariant max == 0 || exists n :: n in nodes && nodes[n].configEpoch == max
        decreases left
      {
        var n :| n in left;
        if nodes[n].configEpoch > max {
          max := nodes[n].configEpoch;
        }
        left := left - {n};
      }
      if max < currentEpoch {
        max := currentEpoch;
      } else if max != 0 {
        ghost var n :| n in nodes && nodes[n].configEpoch == max;
        assert View().config[n] == max;
      }
    }

    method BumpConfigEpochWithoutConsensus() returns (ok: bool)
      requires Valid()
      modifies this
      ensures Valid() && slots == old(slots)
      ensures forall max :: IsMaxEpoch(old(View()), max) ==> View() == Bump(old(View()), me, max)
      ensures ok <==> View() != old(View())
      ensures ok <==> old(nodes[me].configEpoch == 0 || nodes[me].configEpoch < currentEpoch
                          || exists n :: n in nodes && nodes[n].configEpoch > nodes[me].configEpoch)
      ensures if ok then currentEpoch == old(currentEpoch) + 1 && nodes == old(nodes)[me := old(nodes)[me].(configEpoch := currentEpoch)]
              else unchanged(this)
    {
      var maxEpoch := GetMaxEpoch();
      MaxEpochUnique(View(), maxEpoch);
      GreatestMeans(maxEpoch);
      if nodes[me].configEpoch == 0 || nodes[me].configEpoch != maxEpoch {
        currentEpoch := currentEpoch + 1;
        nodes := nodes[me := nodes[me].(configEpoch := currentEpoch)];
        return true;
      }
      return false;
    }

    lemma GreatestMeans(max: nat)
      requires Valid() && IsMaxEpoch(View(), max)
      ensures nodes[me].configEpoch != max <==>
        nodes[me].configEpoch < currentEpoch || exists n :: n in nodes && nodes[n].configEpoch > nodes[me].configEpoch
    {
      assert View().config[me] == nodes[me].configEpoch;
      forall n | n in nodes ensures nodes[n].configEpoch <= max {
        assert View().config[n] == nodes[n].configEpoch;
      }
      if nodes[me].configEpoch != max && max != currentEpoch {
        var n :| n in View().config && View().config[n] == max;
        assert n in nodes && nodes[n].configEpoch > nodes[me].configEpoch;
      }
    }

    /** The collision test of the packet handler and `clusterHandleConfigEpochCollision`. */
    method HandleConfigEpochCollision(src: NodeId, cfg: nat)
      requires Valid() && src in nodes
      modifies this
      ensures Valid() && slots == old(slots)
      ensures View() == ResolveCollision(old(View()), me, src, cfg, old(nodes[me].master && nodes[src].master))
      ensures if me < src && old(nodes[me].master && nodes[src].master && cfg == nodes[me].configEpoch == nodes[src].configEpoch)
              then currentEpoch == old(currentEpoch) + 1 && nodes == old(nodes)[me := old(nodes)[me].(configEpoch := currentEpoch)]
              else unchanged(this)
    {
      if nodes[me].master && nodes[src].master && cfg == nodes[me].configEpoch {
        if nodes[src].configEpoch != nodes[me].configEpoch || !nodes[src].master || !nodes[me].master {
          return;
        }
        if src <= me {
          return;
        }
        currentEpoch := currentEpoch + 1;
        nodes := nodes[me := nodes[me].(configEpoch := currentEpoch)];
      }
    }

    // ---------- votes ----------

    ghost predicate SlotsFresh(request: Request)
      reads this
      requires Valid() && |request.slots| == SLOTS
    {
      forall j :: 0 <= j < SLOTS && request.slots[j] && slots[j].Some? ==>
        nodes[slots[j].value].configEpoch <= request.configEpoch
    }

    /** The parts of the state that decide on a vote besides the epochs. */
    ghost function VoteView(node: NodeId, request: Request, now: int, nodeTimeout: nat): VoteContext
      reads this
      requires Valid() && node in nodes && |request.slots| == SLOTS
    {
      var master := nodes[node].slaveof;
      VoteContext(
        nodes[me].master && nodes[me].numslots != 0,
        !nodes[node].master && master.Some? && (nodes[master.value].failed || request.force),
        master.Some? && now - nodes[master.value].votedTime < nodeTimeout * 2,
        SlotsFresh(request))
    }

    /** `clusterSendFailoverAuthIfNeeded`, after the header of the request was processed. */
    method SendFailoverAuthIfNeeded(node: NodeId, request: Request, now: int, nodeTimeout: nat) returns (granted: bool)
      requires Valid() && node in nodes && |request.slots| == SLOTS
      modifies this
      ensures Valid() && slots == old(slots)
      ensures granted <==> GrantsVote(old(View()), request.currentEpoch, old(VoteView(node, request, now, nodeTimeout)))
      ensures View() == HandleVoteRequest(old(View()), request.currentEpoch, old(VoteView(node, request, now, nodeTimeout)))
      ensures granted <==> (forall j :: 0 <= j < SLOTS && request.slots[j] && slots[j].Some? ==>
                              old(nodes)[slots[j].value].configEpoch <= request.configEpoch) && old(
        && nodes[me].master && nodes[me].numslots > 0
        && currentEpoch <= request.currentEpoch && lastVoteEpoch != currentEpoch
        && !nodes[node].master && nodes[node].slaveof.Some?
        && (nodes[nodes[node].slaveof.value].failed || request.force)
        && now - nodes[nodes[node].slaveof.value].votedTime >= nodeTimeout * 2)
      ensures currentEpoch == old(currentEpoch) && lastVoteEpoch == if granted then old(currentEpoch) else old(lastVoteEpoch)
      ensures granted ==>
        && old(nodes[node].slaveof.Some?)
        && old(nodes[node].slaveof.value) in nodes && nodes[old(nodes[node].slaveof.value)].votedTime == now
    {
      if !nodes[me].master || nodes[me].numslots == 0 {
        return false;
      }
      if request.currentEpoch < currentEpoch {
        return false;
      }
      if lastVoteEpoch == currentEpoch {
        return false;
      }
      if nodes[node].master || nodes[node].slaveof.None? || (!nodes[nodes[node].slaveof.value].failed && !request.force) {
        return false;
      }
      var master := nodes[node].slaveof.value;
      if now - nodes[master].votedTime < nodeTimeout * 2 {
        return false;
      }
      for j := 0 to SLOTS
        invariant forall i :: 0 <= i < j && request.slots[i] && slots[i].Some? ==>
          nodes[slots[i].value].configEpoch <= request.configEpoch
      {
        if request.slots[j] && slots[j].Some? && nodes[slots[j].value].configEpoch > request.configEpoch {
          return false;
        }
      }
      lastVoteEpoch := currentEpoch;
      nodes := nodes[master := nodes[master].(votedTime := now)];
      return true;
    }

    /** The FAILOVER_AUTH_ACK packet, after its header was processed. */
    method ReceiveVote(src: NodeId, voterEpoch: nat)
      requires Valid() && src in nodes
      modifies this
      ensures Valid() && slots == old(slots) && nodes == old(nodes)
      ensures View() == HandleVote(old(View()), voterEpoch, nodes[src].master && nodes[src].numslots > 0)
      ensures authCount == old(authCount) + if nodes[src].master && nodes[src].numslots > 0 && voterEpoch >= old(authEpoch) then 1 else 0
    {
      if nodes[src].master && nodes[src].numslots > 0 && voterEpoch >= authEpoch {
        authCount := authCount + 1;
      }
    }

    // ---------- the slave's side ----------

    /** A slave that may fail over and has a better replication offset. */
    ghost predicate Outranks(id: NodeId, offset: int)
      reads this
      requires id in nodes
    {
      id != me && !nodes[id].noFailover && nodes[id].replOffset > offset
    }

    /** Slaves of the same master that may fail over and have a better replication offset. */
    ghost function BetterSlaves(slaves: seq<NodeId>, offset: int): nat
      reads this
      requires forall i :: 0 <= i < |slaves| ==> slaves[i] in nodes
    {
      if slaves == [] then 0
      else
        var last := slaves[|slaves| - 1];
        BetterSlaves(slaves[..|slaves| - 1], offset)
        + (if Outranks(last, offset) then 1 else 0)
    }

    /** `clusterGetSlaveRank` */
    method GetSlaveRank(offset: int) returns (rank: nat)
      requires Valid() && nodes[me].slaveof.Some?
      ensures rank == BetterSlaves(nodes[nodes[me].slaveof.value].slaves, offset)
      ensures var slaves := nodes[nodes[me].slaveof.value].slaves;
        rank == |set i | 0 <= i < |slaves| && slaves[i] != me && !nodes[slaves[i]].noFailover && nodes[slaves[i]].replOffset > offset|
    {
      var slaves := nodes[nodes[me].slaveof.value].slaves;
      rank := 0;
      for j := 0 to |slaves|
        invariant rank == BetterSlaves(slaves[..j], offset)
      {
        assert slaves[..j + 1][..j] == slaves[..j];
        if slaves[j] != me && !nodes[slaves[j]].noFailover && nodes[slaves[j]].replOffset > offset {
          rank := rank + 1;
        }
      }
      assert slaves[..|slaves|] == slaves;
      BetterIsCount(slaves, offset, |slaves|);
      assert (set i | 0 <= i < |slaves| && slaves[i] != me && !nodes[slaves[i]].noFailover && nodes[slaves[i]].replOffset > offset)
        == set i | 0 <= i < |slaves| && Outranks(slaves[i], offset);
    }

    lemma {:induction false} BetterIsCount(slaves: seq<NodeId>, offset: int, n: nat)
      requires n <= |slaves| && forall i :: 0 <= i < |slaves| ==> slaves[i] in nodes
      ensures BetterSlaves(slaves[..n], offset) == |set i | 0 <= i < n && Outranks(slaves[i], offset)|
    {
      hide Outranks;
      if n > 0 {
        BetterIsCount(slaves, offset, n - 1);
        assert slaves[..n][..n - 1] == slaves[..n - 1];
        var before := set i | 0 <= i < n - 1 && Outranks(slaves[i], offset);
        var after := set i | 0 <= i < n && Outranks(slaves[i], offset);
        assert after == if Outranks(slaves[n - 1], offset) then before + {n - 1} else before;
      }
    }

    /** The replication data is recent enough for a failover. */
    predicate DataFresh(c: Settings, dataAge: int) {
      var age := if dataAge > c.nodeTimeout then dataAge - c.nodeTimeout else dataAge;
      c.validityFactor == 0 || age <= c.pingPeriod * 1000 + c.nodeTimeout * c.validityFactor
    }

    ghost predicate Eligible(c: Settings, dataAge: int)
      reads this
      requires Valid()
    {
      var manual := manualFailover && manualCanStart;
      && !nodes[me].master && nodes[me].slaveof.Some?
      && (nodes[nodes[me].slaveof.value].failed || manual)
      && (!c.noFailover || manual)
      && nodes[nodes[me].slaveof.value].numslots != 0
      && (DataFresh(c, dataAge) || manual)
    }

    /** The parts of the state that decide on a failover besides the election fields. */
    ghost function FailoverView(c: Settings, dataAge: int, offset: int, random: nat): FailoverContext
      reads this
      requires Valid()
    {
      var rank := if nodes[me].slaveof.Some? then BetterSlaves(nodes[nodes[me].slaveof.value].slaves, offset) else 0;
      FailoverContext(
        Eligible(c, dataAge),
        manualFailover,
        500 + random % 500 + rank * 1000,
        if rank > authRank then (rank - authRank) * 1000 else 0,
        AuthTimeout(c),
        size / 2 + 1)
    }

    /** The first checks of `clusterHandleSlaveFailover`. */
    method CanFailover(c: Settings, dataAge: int) returns (ok: bool)
      requires Valid()
      ensures ok <==> Eligible(c, dataAge)
    {
      var manual := manualFailover && manualCanStart;
      if nodes[me].master || nodes[me].slaveof.None? ||
         (!nodes[nodes[me].slaveof.value].failed && !manual) ||
         (c.noFailover && !manual) ||
         nodes[nodes[me].slaveof.value].numslots == 0
      {
        return false;
      }
      return DataFresh(c, dataAge) || manual;
    }

    /** Set up a new election, to start after a delay that grows with the rank. */
    method ScheduleElection(now: int, rank: nat, random: nat)
      requires Valid()
      modifies this
      ensures Valid() && slots == old(slots) && nodes == old(nodes)
      ensures View() == old(View()).(
        authTime := if old(manualFailover) then now else now + (500 + random % 500 + rank * 1000), authCount := 0, authSent := false)
    {
      authTime := now + 500 + random % 500;
      authCount := 0;
      authSent := false;
      authRank := rank;
      authTime := authTime + authRank * 1000;
      if manualFailover {
        authTime := now;
        authRank := 0;
      }
    }

    /** Slaves that turned out to be more up to date go first. */
    method DelayByRank(rank: nat)
      requires Valid()
      modifies this
      ensures Valid() && slots == old(slots) && nodes == old(nodes) && size == old(size)
      ensures View() == old(View()).(authTime :=
        if !old(authSent) && !old(manualFailover) && rank > old(authRank) then old(authTime) + (rank - old(authRank)) * 1000
        else old(authTime))
    {
      if !authSent && !manualFailover && rank > authRank {
        authTime := authTime + (rank - authRank) * 1000;
        authRank := rank;
      }
    }

    /** Ask for votes in a new epoch. */
    method StartAsking()
      requires Valid()
      modifies this
      ensures Valid() && slots == old(slots) && nodes == old(nodes)
      ensures View() == old(View()).(currentEpoch := old(currentEpoch) + 1, authEpoch := old(currentEpoch) + 1, authSent := true)
    {
      currentEpoch := currentEpoch + 1;
      authEpoch := currentEpoch;
      authSent := true;
    }

    lemma ViewFields()
      requires Valid()
      ensures me in nodes && View().config.Keys == nodes.Keys && View().currentEpoch == currentEpoch
      ensures View().config[me] == nodes[me].configEpoch
      ensures View().authTime == authTime && View().authSent == authSent && View().authCount == authCount && View().authEpoch == authEpoch
    {
    }

    /** The election won: its epoch becomes this node's configEpoch. */
    method AdoptElectionEpoch()
      requires Valid()
      modifies this
      ensures Valid() && slots == old(slots)
      ensures View() == old(View()).(config := old(View()).config[me := Max(old(View()).config[me], old(authEpoch))])
    {
      RaiseConfigEpoch(me, authEpoch);
    }

    /**
     `clusterHandleSlaveFailover`, up to the takeover of the slots.  A slave is promoted only by more than
     half of the masters with slots, inside the window of its election, and takes its epoch.
     */
    method HandleSlaveFailover(c: Settings, now: int, dataAge: int, offset: int, random: nat) returns (action: Action)
      requires Valid()
      modifies this
      ensures Valid() && slots == old(slots)
      ensures (View(), action) == HandleFailover(old(View()), me, now, old(FailoverView(c, dataAge, offset, random)))
      ensures action.Promote? ==> old(authSent) && 2 * old(authCount) > old(size)
      ensures action.Promote? ==> nodes[me].configEpoch >= old(authEpoch) && nodes[me].configEpoch >= old(nodes[me].configEpoch)
      ensures !action.Promote? ==> nodes[me].configEpoch == old(nodes[me].configEpoch)
      ensures action.AskVotes? ==> !old(authSent) && authSent && authEpoch == currentEpoch == old(currentEpoch) + 1
      ensures !action.AskVotes? ==> currentEpoch == old(currentEpoch) && authEpoch == old(authEpoch)
      ensures !action.Nothing? ==> authTime <= now && now - old(authTime) <= (if c.nodeTimeout * 2 < 2000 then 2000 else c.nodeTimeout * 2)
      ensures old(authSent) && !authSent ==>
        && now - old(authTime) > 2 * (if c.nodeTimeout * 2 < 2000 then 2000 else c.nodeTimeout * 2)
        && authCount == 0 && if old(manualFailover) then authTime == now else authTime >= now + 500
      ensures !action.Nothing? ==> old(!nodes[me].master && nodes[me].slaveof.Some?
        && nodes[nodes[me].slaveof.value].numslots > 0
        && ((manualFailover && manualCanStart) ||
            (nodes[nodes[me].slaveof.value].failed && !c.noFailover &&
             (c.validityFactor == 0 ||
              (if dataAge > c.nodeTimeout then dataAge - c.nodeTimeout else dataAge)
                <= c.pingPeriod * 1000 + c.nodeTimeout * c.validityFactor))))
    {
      hide View, Valid, FailoverView;
      ghost var was, ctx := View(), FailoverView(c, dataAge, offset, random);
      ViewFields();
      ContextMeans(c, dataAge, offset, random);
      action := Failover(c, now, dataAge, offset, random);
      ViewFields();
      FailoverMeans(was, me, now, ctx);
    }

    lemma ContextMeans(c: Settings, dataAge: int, offset: int, random: nat)
      requires Valid()
      ensures me in nodes
      ensures var ctx := FailoverView(c, dataAge, offset, random);
        && ctx.manual == manualFailover && ctx.delay >= 500 && ctx.quorum == size / 2 + 1 && ctx.timeout == (if c.nodeTimeout * 2 < 2000 then 2000 else c.nodeTimeout * 2)
        && (ctx.eligible <==>
              && !nodes[me].master && nodes[me].slaveof.Some? && nodes[me].slaveof.value in nodes
              && nodes[nodes[me].slaveof.value].numslots > 0
              && ((manualFailover && manualCanStart) ||
                  (nodes[nodes[me].slaveof.value].failed && !c.noFailover &&
                   (c.validityFactor == 0 ||
                    (if dataAge > c.nodeTimeout then dataAge - c.nodeTimeout else dataAge)
                      <= c.pingPeriod * 1000 + c.nodeTimeout * c.validityFactor))))
    {
      hide BetterSlaves;
    }

    method Failover(c: Settings, now: int, dataAge: int, offset: int, random: nat) returns (action: Action)
      requires Valid()
      modifies this
      ensures Valid() && slots == old(slots)
      ensures (View(), action) == HandleFailover(old(View()), me, now, old(FailoverView(c, dataAge, offset, random)))
    {
      hide Eligible, BetterSlaves, AuthTimeout, View, Valid;
      ViewFields();
      var authAge := now - authTime;
      var authTimeout := AuthTimeout(c);
      var ok := CanFailover(c, dataAge);
      if !ok {
        return Nothing;
      }
      EligibleIsSlave(c, dataAge);
      var rank := GetSlaveRank(offset);
      if authAge > authTimeout * 2 {
        ScheduleElection(now, rank, random);
        return Nothing;
      }
      DelayByRank(rank);
      ViewFields();
      if now < authTime || authAge > authTimeout {
        return Nothing;
      }
      if !authSent {
        StartAsking();
        return AskVotes;
      }
      if authCount >= size / 2 + 1 {
        AdoptElectionEpoch();
        return Promote;
      }
      return Nothing;
    }

    lemma EligibleIsSlave(c: Settings, dataAge: int)
      requires Valid() && Eligible(c, dataAge)
      ensures nodes[me].slaveof.Some?
    {
    }
  }

  lemma MaxEpochUnique(s: Node, max: nat)
    requires IsMaxEpoch(s, max)
    ensures forall m :: IsMaxEpoch(s, m) ==> m == max
  {
  }
}
