/**
 When elections are safe.  A candidate forgets its votes when it schedules a new election but keeps
 the old epoch until it asks for votes again, and a restarted one keeps none, so a vote that arrives
 in between is counted for the wrong election.  If every vote arrives within auth_timeout of its
 request, and none that was asked for before a restart arrives after it, this cannot happen and no
 two nodes win the same epoch.
 */
module ElectionTiming {
  import opened ClusterNode
  import opened Election

  /** The vote, if the event delivers one, arrives within some time of its request. */
  predicate Within(bound: nat, s: Cluster, e: Event) {
    e.ReceiveVote? && e.m.Vote? ==> s.now <= e.m.askedAt + bound
  }

  predicate Timely(p: Params, s: Cluster, e: Event) {
    Within(p.timeout, s, e)
  }

  /** The vote, if the event delivers one, was asked for since the last restart of the candidate. */
  predicate SameLife(s: Cluster, e: Event) {
    e.ReceiveVote? && e.m.Vote? ==> e.n in s.ledgers && e.m.life == s.ledgers[e.n].life
  }

  ghost predicate TimelyRun(p: Params, states: seq<Cluster>, events: seq<Event>) {
    Run(p, states, events) && forall i :: 0 <= i < |events| ==> Timely(p, states[i], events[i])
  }

  /** No vote asked for before a restart is delivered after it. */
  ghost predicate NoVoteOutlivesRestart(states: seq<Cluster>, events: seq<Event>) {
    |states| > |events| && forall i :: 0 <= i < |events| ==> SameLife(states[i], events[i])
  }

  /**
   The packet of candidate c, asked for or granted at askedAt in some life, is of an earlier life,
   too late, or belongs to c's running election.
   */
  ghost predicate LiveOrLate(p: Params, s: Cluster, c: NodeId, epoch: nat, askedAt: nat, life: nat) {
    && c in s.nodes && c in s.ledgers && askedAt <= s.now && life <= s.ledgers[c].life
    && (|| life < s.ledgers[c].life
        || askedAt + p.timeout < s.now
        || (s.nodes[c].authSent && epoch == s.nodes[c].authEpoch && askedAt <= s.nodes[c].authTime + p.timeout))
  }

  ghost predicate PacketTimed(p: Params, s: Cluster, m: Message) {
    match m
    case VoteRequest(src, cur, _, askedAt, life) => LiveOrLate(p, s, src, cur, askedAt, life)
    case Vote(_, cur, _, dst, askedAt, life) => LiveOrLate(p, s, dst, cur, askedAt, life)
    case _ => true
  }

  ghost predicate Timed(p: Params, s: Cluster) {
    && (forall m :: m in s.net ==> PacketTimed(p, s, m))
    && (forall n :: n in s.ledgers ==> s.ledgers[n].stale == 0)
    && (forall w :: w in s.wins ==> w.stale == 0)
  }

  lemma LiveOrLateKept(p: Params, s: Cluster, e: Event, c: NodeId, epoch: nat, askedAt: nat, life: nat)
    requires Invariant(p, s) && Enabled(p, s, e) && LiveOrLate(p, s, c, epoch, askedAt, life)
    ensures LiveOrLate(p, Apply(p, s, e), c, epoch, askedAt, life)
  {
    hide NewNode, NewLedger, Sent, Lost, NewVotes, NewWins, Enabled, Invariant, Act, Accepts;
    InvariantParts(p, s);
    EnabledFacts(p, s, e);
    if HasActor(e) && e.n == c {
      LedgerFields(p, s, e);
      AuthFields(p, s, e);
      if e.Failover? {
        FailoverFields(p, s, e);
      }
    }
  }

  lemma InvariantParts(p: Params, s: Cluster)
    requires Invariant(p, s)
    ensures WellFormed(s) && Dominated(s) && PacketsOk(s)
  {
  }

  lemma SentTimed(p: Params, s: Cluster, e: Event, m: Message)
    requires Invariant(p, s) && Timed(p, s) && Enabled(p, s, e) && m in Sent(p, s, e)
    ensures PacketTimed(p, Apply(p, s, e), m)
  {
    hide NewNode, Lost, NewVotes, NewLedger, NewWins, Invariant;
    InvariantParts(p, s);
    if e.ReceiveRequest? {
      VoteIsNew(p, s, e);
      assert PacketTimed(p, s, e.m);
      LiveOrLateKept(p, s, e, e.m.src, e.m.cur, e.m.askedAt, e.m.life);
    } else if e.Failover? {
      FailoverFields(p, s, e);
      LedgerFields(p, s, e);
    }
  }

  lemma NetTimed(p: Params, s: Cluster, e: Event, m: Message)
    requires Invariant(p, s) && Timed(p, s) && Enabled(p, s, e)
    requires WellFormed(s) && m in Apply(p, s, e).net
    ensures PacketTimed(p, Apply(p, s, e), m)
  {
    hide NewNode, Sent, NewVotes, NewLedger, NewWins, Invariant, Enabled, LiveOrLate;
    if m in Sent(p, s, e) {
      SentTimed(p, s, e, m);
    } else {
      assert PacketTimed(p, s, m);
      if m.VoteRequest? {
        LiveOrLateKept(p, s, e, m.src, m.cur, m.askedAt, m.life);
      } else if m.Vote? {
        LiveOrLateKept(p, s, e, m.dst, m.cur, m.askedAt, m.life);
      }
    }
  }

  lemma StaleTimed(p: Params, s: Cluster, e: Event)
    requires Invariant(p, s) && Timed(p, s) && Enabled(p, s, e) && Timely(p, s, e) && SameLife(s, e) && WellFormed(s)
    ensures HasActor(e) ==> NewLedger(p, s, e).stale == 0
    ensures forall w :: w in NewWins(p, s, e) ==> w.stale == 0
  {
    hide Invariant, Enabled, Act, Accepts, NewLedger;
    EnabledFacts(p, s, e);
    if HasActor(e) {
      LedgerFields(p, s, e);
    }
    if e.ReceiveVote? {
      assert PacketTimed(p, s, e.m);
    }
  }

  lemma StepTimed(p: Params, s: Cluster, e: Event)
    requires Invariant(p, s) && Timed(p, s) && Enabled(p, s, e) && Timely(p, s, e) && SameLife(s, e)
    ensures WellFormed(s) && Timed(p, Apply(p, s, e))
  {
    hide NewNode, NewLedger, Sent, Lost, NewVotes, NewWins, Invariant, Enabled, PacketTimed;
    InvariantParts(p, s);
    StaleTimed(p, s, e);
    forall m | m in Apply(p, s, e).net
      ensures PacketTimed(p, Apply(p, s, e), m)
    {
      NetTimed(p, s, e, m);
    }
  }

  lemma {:induction false} RunTimed(p: Params, states: seq<Cluster>, events: seq<Event>, i: nat)
    requires TimelyRun(p, states, events) && NoVoteOutlivesRestart(states, events) && i < |states|
    ensures Timed(p, states[i])
  {
    hide Timed, Apply, Enabled, Invariant, Timely, SameLife;
    if i == 0 {
      assert Timed(p, states[0]) by { InitialTimed(p, states[0]); }
    } else {
      RunTimed(p, states, events, i - 1);
      RunInvariant(p, states, events, i - 1);
      assert Step(p, states[i - 1], events[i - 1], states[i]);
      StepTimed(p, states[i - 1], events[i - 1]);
    }
  }

  lemma InitialTimed(p: Params, s: Cluster)
    requires Initial(s)
    ensures Timed(p, s)
  {
  }

  /** Election safety: if votes are timely and none outlives a restart, no two nodes ever win an election in the same epoch. */
  lemma ElectionSafety(p: Params, states: seq<Cluster>, events: seq<Event>, i: nat, w: Win, w': Win)
    requires TimelyRun(p, states, events) && NoVoteOutlivesRestart(states, events) && i < |states|
    requires w in states[i].wins && w' in states[i].wins && w.epoch == w'.epoch
    ensures w.node == w'.node
  {
    RunTimed(p, states, events, i);
    HonestWinsAgree(p, states, events, i, w, w');
  }
}
