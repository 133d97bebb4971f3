/**
 Redis Cluster as a distributed step system: nodes exchanging packets over a network that may
 delay, drop and reorder them, with failover elections, epoch collisions, unilateral epoch bumps,
 membership changes and restarts.  A run is any sequence of events.
 */
module Election {
  import opened Common
  import opened ClusterNode

  /** Every packet carries its sender's currentEpoch and a configEpoch the sender stores. */
  datatype Message =
    | Ping(src: NodeId, cur: nat, cfg: nat)
    | Update(src: NodeId, cur: nat, cfg: nat, about: NodeId, aboutEpoch: nat)
    | VoteRequest(src: NodeId, cur: nat, cfg: nat, askedAt: nat, life: nat)
    | Vote(src: NodeId, cur: nat, cfg: nat, dst: NodeId, askedAt: nat, life: nat)  // answers the request sent at askedAt in that life

  /** A won election: who counted as voters, and how many counted votes were left over from an earlier one. */
  datatype Win = Win(node: NodeId, epoch: nat, voters: set<NodeId>, stale: nat)

  /** What nobody in the cluster can see about a node. */
  datatype Ledger = Ledger(
    counted: set<NodeId>,   // the voters it counted since it asked for votes
    stale: nat,             // the votes it counted after scheduling that election, before asking
    asked: nat,             // the last epoch it asked for votes in
    life: nat,              // how often it was restarted
    votedAt: Option<nat>)   // when it last gave a vote

  datatype Cluster = Cluster(
    nodes: map<NodeId, Node>,
    net: set<Message>,
    now: nat,
    votes: map<(NodeId, nat), NodeId>,    // the candidate each node voted for, per epoch
    ledgers: map<NodeId, Ledger>,
    wins: set<Win>)

  /** The fixed set of masters with slots that every node knows, and auth_timeout. */
  datatype Params = Params(masters: set<NodeId>, timeout: nat)

  function Quorum(p: Params): nat {
    |p.masters| / 2 + 1
  }

  datatype Event =
    | Tick
    | Drop(m: Message)
    | SendPing(n: NodeId, about: NodeId)
    | SendUpdate(n: NodeId, about: NodeId, header: NodeId)
    | ReceivePing(n: NodeId, m: Message, bothMasters: bool)
    | ReceiveUpdate(n: NodeId, m: Message)
    | ReceiveRequest(n: NodeId, m: Message, vote: VoteContext, reply: bool, header: NodeId)
    | ReceiveVote(n: NodeId, m: Message)
    | Failover(n: NodeId, eligible: bool, manual: bool, delay: nat, rankDelay: nat, header: NodeId)
    | BumpEpoch(n: NodeId, max: nat)
    | SetEpoch(n: NodeId, epoch: nat)
    | Learn(n: NodeId, other: NodeId)
    | Forget(n: NodeId, other: NodeId)
    | Restart(n: NodeId, epoch: nat)

  /** The node can process a packet: it knows the sender. */
  predicate CanReceive(s: Cluster, n: NodeId, m: Message) {
    n in s.nodes && m in s.net && m.src in s.nodes[n].config
  }

  ghost predicate Enabled(p: Params, s: Cluster, e: Event) {
    match e
    case Tick => true
    case Drop(m) => m in s.net
    case SendPing(n, about) => n in s.nodes && about in s.nodes[n].config
    case SendUpdate(n, about, header) => n in s.nodes && about in s.nodes[n].config && header in s.nodes[n].config
    case ReceivePing(n, m, _) => CanReceive(s, n, m) && m.Ping?
    case ReceiveUpdate(n, m) => CanReceive(s, n, m) && m.Update?
    case ReceiveRequest(n, m, _, _, header) => CanReceive(s, n, m) && m.VoteRequest? && header in s.nodes[n].config
    case ReceiveVote(n, m) => CanReceive(s, n, m) && m.Vote? && m.dst == n
    case Failover(n, _, _, _, _, header) => n in s.nodes && header in s.nodes[n].config
    case BumpEpoch(n, max) => n in s.nodes && IsMaxEpoch(s.nodes[n], max)
    case SetEpoch(n, _) => n in s.nodes && s.nodes[n].config == map[n := 0]
    case Learn(n, other) => n in s.nodes && other !in s.nodes[n].config
    case Forget(n, other) => n in s.nodes && other in s.nodes[n].config && other != n
    case Restart(n, epoch) => n in s.nodes && n in s.ledgers && Persisted(s.nodes[n], s.ledgers[n].asked, epoch)
  }

  /** The currentEpoch a node may come back with: at least what it saved before asking or answering anybody. */
  ghost predicate Persisted(s: Node, asked: nat, epoch: nat) {
    && s.lastVoteEpoch <= epoch && asked <= epoch <= s.currentEpoch
    && forall x :: x in s.config ==> s.config[x] <= epoch
  }

  ghost predicate WellFormed(s: Cluster) {
    && s.ledgers.Keys == s.nodes.Keys
    && forall n :: n in s.nodes ==> n in s.nodes[n].config
  }

  /** As `clusterInit` leaves it; the nodes may have met already. */
  ghost predicate IsFresh(node: Node, me: NodeId) {
    && node == Node(0, 0, node.config, 0, 0, false, 0)
    && me in node.config && forall x :: x in node.config ==> node.config[x] == 0
  }

  ghost predicate Initial(s: Cluster) {
    && (forall n :: n in s.nodes ==> IsFresh(s.nodes[n], n))
    && s.net == {} && s.votes == map[] && s.wins == {}
    && s.ledgers.Keys == s.nodes.Keys && forall n :: n in s.ledgers ==> s.ledgers[n] == Ledger({}, 0, 0, 0, None)
  }

  // ---------- the effect of an event ----------

  predicate HasActor(e: Event) {
    !e.Tick? && !e.Drop?
  }

  /** The node after the header of the packet it processes. */
  function Header(s: Cluster, n: NodeId, m: Message): Node
    requires CanReceive(s, n, m)
  {
    ReceiveHeader(s.nodes[n], m.src, m.cur, m.cfg)
  }

  function Context(p: Params, e: Event): FailoverContext
    requires e.Failover?
  {
    FailoverContext(e.eligible, e.manual, e.delay, e.rankDelay, p.timeout, Quorum(p))
  }

  /** The new state of the node that acts. */
  ghost function NewNode(p: Params, s: Cluster, e: Event): Node
    requires WellFormed(s) && Enabled(p, s, e) && HasActor(e)
  {
    var node := s.nodes[e.n];
    match e
    case SendPing(_, _) => node
    case SendUpdate(_, _, _) => node
    case ReceivePing(n, m, bothMasters) => ResolveCollision(Header(s, n, m), n, m.src, m.cfg, bothMasters)
    case ReceiveUpdate(n, m) => ClusterNode.ReceiveUpdate(Header(s, n, m), m.about, m.aboutEpoch)
    case ReceiveRequest(n, m, ctx, _, _) => HandleVoteRequest(Header(s, n, m), m.cur, ctx)
    case ReceiveVote(n, m) => HandleVote(Header(s, n, m), m.cur, m.src in p.masters)
    case Failover(n, _, _, _, _, _) => HandleFailover(node, n, s.now, Context(p, e)).0
    case BumpEpoch(n, max) => Bump(node, n, max)
    case SetEpoch(n, epoch) => node.(config := map[n := epoch], currentEpoch := Max(node.currentEpoch, epoch))
    case Learn(_, other) => node.(config := node.config[other := 0])
    case Forget(_, other) => node.(config := node.config - {other})
    case Restart(_, epoch) => node.(currentEpoch := epoch, authTime := 0, authCount := 0, authSent := false, authEpoch := 0)
  }

  predicate Grants(s: Cluster, e: Event)
    requires e.ReceiveRequest? && CanReceive(s, e.n, e.m)
  {
    GrantsVote(Header(s, e.n, e.m), e.m.cur, e.vote)
  }

  function Act(p: Params, s: Cluster, e: Event): Action
    requires e.Failover? && e.n in s.nodes && e.n in s.nodes[e.n].config
  {
    HandleFailover(s.nodes[e.n], e.n, s.now, Context(p, e)).1
  }

  /** The packets it sends. */
  ghost function Sent(p: Params, s: Cluster, e: Event): set<Message>
    requires WellFormed(s) && Enabled(p, s, e)
  {
    match e
    case SendPing(n, about) => {Ping(n, s.nodes[n].currentEpoch, s.nodes[n].config[about])}
    case SendUpdate(n, about, header) =>
      {Update(n, s.nodes[n].currentEpoch, s.nodes[n].config[header], about, s.nodes[n].config[about])}
    case ReceiveRequest(n, m, _, reply, header) =>
      if Grants(s, e) && reply
      then {Vote(n, Header(s, n, m).currentEpoch, Header(s, n, m).config[header], m.src, m.askedAt, m.life)} else {}
    case Failover(n, _, _, _, _, header) =>
      if Act(p, s, e) == AskVotes
      then {VoteRequest(n, s.nodes[n].currentEpoch + 1, s.nodes[n].config[header], s.now, s.ledgers[n].life)} else {}
    case _ => {}
  }

  /** The packets that disappear: a vote is delivered once. */
  ghost function Lost(s: Cluster, e: Event): set<Message> {
    match e
    case Drop(m) => {m}
    case ReceiveVote(_, m) => {m}
    case _ => {}
  }

  ghost function NewVotes(p: Params, s: Cluster, e: Event): map<(NodeId, nat), NodeId>
    requires WellFormed(s) && Enabled(p, s, e)
  {
    if e.ReceiveRequest? && Grants(s, e) then s.votes[(e.n, Header(s, e.n, e.m).currentEpoch) := e.m.src] else s.votes
  }

  /** The event makes a candidate start counting from zero. */
  predicate Resets(p: Params, s: Cluster, e: Event)
    requires HasActor(e) ==> e.n in s.nodes
  {
    e.Restart? || (e.Failover? && e.eligible && s.now - s.nodes[e.n].authTime > 2 * p.timeout)
  }

  predicate Accepts(p: Params, s: Cluster, e: Event)
    requires e.ReceiveVote? && CanReceive(s, e.n, e.m)
  {
    AcceptsVote(Header(s, e.n, e.m), e.m.cur, e.m.src in p.masters)
  }

  ghost function NewLedger(p: Params, s: Cluster, e: Event): Ledger
    requires WellFormed(s) && Enabled(p, s, e) && HasActor(e)
  {
    var was := s.ledgers[e.n];
    match e
    case Restart(_, _) => was.(counted := {}, stale := 0, life := was.life + 1)
    case Failover(_, _, _, _, _, _) =>
      if Resets(p, s, e) then was.(counted := {}, stale := 0)
      else if Act(p, s, e) == AskVotes then was.(asked := s.nodes[e.n].currentEpoch + 1)
      else was
    case ReceiveVote(_, m) =>
      if !Accepts(p, s, e) then was
      else if s.nodes[e.n].authSent then was.(counted := was.counted + {m.src})
      else was.(stale := was.stale + 1)
    case ReceiveRequest(_, _, _, _, _) => if Grants(s, e) then was.(votedAt := Some(s.now)) else was
    case _ => was
  }

  ghost function NewWins(p: Params, s: Cluster, e: Event): set<Win>
    requires WellFormed(s) && Enabled(p, s, e)
  {
    if e.Failover? && Act(p, s, e) == Promote
    then s.wins + {Win(e.n, s.nodes[e.n].authEpoch, s.ledgers[e.n].counted, s.ledgers[e.n].stale)} else s.wins
  }

  ghost function Apply(p: Params, s: Cluster, e: Event): Cluster
    requires WellFormed(s) && Enabled(p, s, e)
  {
    Cluster(
      if HasActor(e) then s.nodes[e.n := NewNode(p, s, e)] else s.nodes,
      (s.net - Lost(s, e)) + Sent(p, s, e),
      if e.Tick? then s.now + 1 else s.now,
      NewVotes(p, s, e),
      if HasActor(e) then s.ledgers[e.n := NewLedger(p, s, e)] else s.ledgers,
      NewWins(p, s, e))
  }

  lemma NewNodeKnowsItself(p: Params, s: Cluster, e: Event)
    requires WellFormed(s) && Enabled(p, s, e) && HasActor(e)
    ensures e.n in s.nodes && e.n in NewNode(p, s, e).config
  {
  }

  lemma ApplyWellFormed(p: Params, s: Cluster, e: Event)
    requires WellFormed(s) && Enabled(p, s, e)
    ensures WellFormed(Apply(p, s, e)) && Apply(p, s, e).nodes.Keys == s.nodes.Keys
  {
    hide NewNode, NewLedger, Enabled, Sent, Lost, NewVotes, NewWins;
    var s' := Apply(p, s, e);
    if HasActor(e) {
      NewNodeKnowsItself(p, s, e);
      assert s'.nodes == s.nodes[e.n := NewNode(p, s, e)];
      assert s'.nodes.Keys == s.nodes.Keys + {e.n};
      assert s'.ledgers.Keys == s.ledgers.Keys + {e.n};
    }
    forall n | n in s'.nodes
      ensures n in s'.nodes[n].config
    {
    }
  }

  lemma EnabledFacts(p: Params, s: Cluster, e: Event)
    requires WellFormed(s) && Enabled(p, s, e)
    ensures HasActor(e) ==> e.n in s.nodes && e.n in s.nodes[e.n].config
    ensures e.ReceivePing? || e.ReceiveUpdate? || e.ReceiveRequest? || e.ReceiveVote? ==> CanReceive(s, e.n, e.m)
    ensures e.ReceiveVote? ==> e.m.Vote? && e.m.dst == e.n
    ensures e.ReceiveRequest? ==> e.m.VoteRequest?
  {
  }

  /** The states a run goes through: every event is enabled where it happens. */
  ghost predicate Run(p: Params, states: seq<Cluster>, events: seq<Event>) {
    && |states| == |events| + 1
    && Initial(states[0])
    && forall i :: 0 <= i < |events| ==> Step(p, states[i], events[i], states[i + 1])
  }

  ghost predicate Step(p: Params, s: Cluster, e: Event, s': Cluster) {
    WellFormed(s) && Enabled(p, s, e) && s' == Apply(p, s, e)
  }

  // ---------- epoch dominance ----------

  ghost predicate NodeDominated(node: Node) {
    && node.lastVoteEpoch <= node.currentEpoch
    && node.authEpoch <= node.currentEpoch
    && forall x :: x in node.config ==> node.config[x] <= node.currentEpoch
  }

  ghost predicate MessageDominated(m: Message) {
    m.cfg <= m.cur && (m.Update? ==> m.aboutEpoch <= m.cur)
  }

  ghost predicate Dominated(s: Cluster) {
    && (forall n :: n in s.nodes ==> NodeDominated(s.nodes[n]))
    && (forall m :: m in s.net ==> MessageDominated(m))
  }

  lemma HeaderDominated(s: Node, src: NodeId, cur: nat, cfg: nat)
    requires NodeDominated(s) && src in s.config && cfg <= cur
    ensures NodeDominated(ReceiveHeader(s, src, cur, cfg)) && cur <= ReceiveHeader(s, src, cur, cfg).currentEpoch
  {
  }

  lemma ReceiverDominated(p: Params, s: Cluster, e: Event)
    requires WellFormed(s) && Dominated(s) && Enabled(p, s, e)
    requires e.ReceivePing? || e.ReceiveUpdate? || e.ReceiveRequest? || e.ReceiveVote?
    ensures NodeDominated(NewNode(p, s, e))
  {
    hide ReceiveHeader;
    HeaderDominated(s.nodes[e.n], e.m.src, e.m.cur, e.m.cfg);
  }

  lemma NewNodeDominated(p: Params, s: Cluster, e: Event)
    requires WellFormed(s) && Dominated(s) && Enabled(p, s, e) && HasActor(e)
    ensures NodeDominated(NewNode(p, s, e))
  {
    if e.ReceivePing? || e.ReceiveUpdate? || e.ReceiveRequest? || e.ReceiveVote? {
      hide *;
      ReceiverDominated(p, s, e);
    }
  }

  lemma SentDominated(p: Params, s: Cluster, e: Event)
    requires WellFormed(s) && Dominated(s) && Enabled(p, s, e)
    ensures forall m :: m in Sent(p, s, e) ==> MessageDominated(m)
  {
    if e.ReceiveRequest? {
      HeaderDominated(s.nodes[e.n], e.m.src, e.m.cur, e.m.cfg);
    }
  }

  lemma ApplyDominated(p: Params, s: Cluster, e: Event)
    requires WellFormed(s) && Dominated(s) && Enabled(p, s, e)
    ensures Dominated(Apply(p, s, e))
  {
    hide NewLedger, NewNode, Sent, NodeDominated, MessageDominated, Enabled;
    SentDominated(p, s, e);
    if HasActor(e) {
      NewNodeDominated(p, s, e);
    }
  }

  // ---------- votes ----------

  /** What an event does to the election fields of the node that acts. */
  lemma VoteField(p: Params, s: Cluster, e: Event)
    requires WellFormed(s) && Enabled(p, s, e) && HasActor(e)
    ensures e.n in s.nodes
    ensures NewNode(p, s, e).lastVoteEpoch ==
      if e.ReceiveRequest? && Grants(s, e) then Header(s, e.n, e.m).currentEpoch else s.nodes[e.n].lastVoteEpoch
  {
  }

  lemma AuthFields(p: Params, s: Cluster, e: Event)
    requires WellFormed(s) && Enabled(p, s, e) && HasActor(e)
    ensures e.n in s.nodes
    ensures var was, next := s.nodes[e.n], NewNode(p, s, e);
      && (!e.Failover? && !e.Restart? ==>
        && next.authEpoch == was.authEpoch && next.authSent == was.authSent && next.authTime == was.authTime
        && next.authCount == was.authCount + (if e.ReceiveVote? && Accepts(p, s, e) then 1 else 0))
      && (e.Restart? ==> next.authEpoch == 0 && !next.authSent && next.authCount == 0)
  {
  }

  /** What an event does to the ledger of the node that acts. */
  lemma LedgerFields(p: Params, s: Cluster, e: Event)
    requires WellFormed(s) && Enabled(p, s, e) && HasActor(e)
    ensures e.n in s.nodes
    ensures var was, next := s.ledgers[e.n], NewLedger(p, s, e);
      && (!e.Failover? && !e.Restart? && !e.ReceiveVote? ==>
        next.counted == was.counted && next.stale == was.stale && next.asked == was.asked && next.life == was.life)
      && (e.Restart? ==> next == was.(counted := {}, stale := 0, life := was.life + 1))
      && (e.Failover? ==>
        next == (if Resets(p, s, e) then was.(counted := {}, stale := 0)
                 else if Act(p, s, e) == AskVotes then was.(asked := s.nodes[e.n].currentEpoch + 1) else was))
      && (e.ReceiveVote? ==>
        next == (if !Accepts(p, s, e) then was
                 else if s.nodes[e.n].authSent then was.(counted := was.counted + {e.m.src}) else was.(stale := was.stale + 1)))
  {
    hide Act, Accepts, Resets, Grants;
  }

  lemma FailoverFields(p: Params, s: Cluster, e: Event)
    requires WellFormed(s) && Enabled(p, s, e) && e.Failover?
    ensures e.n in s.nodes
    ensures var was, next := s.nodes[e.n], NewNode(p, s, e);
      match Act(p, s, e)
      case AskVotes =>
        && !Resets(p, s, e) && !was.authSent && next.authSent && next.authCount == was.authCount
        && next.authEpoch == was.currentEpoch + 1
        && was.authTime <= next.authTime <= s.now <= was.authTime + p.timeout
      case Promote =>
        && !Resets(p, s, e) && was.authSent && was.authCount >= Quorum(p)
        && next.authEpoch == was.authEpoch && next.authSent && next.authCount == was.authCount && next.authTime == was.authTime
      case Nothing =>
        && next.authEpoch == was.authEpoch
        && (if Resets(p, s, e) then !next.authSent && next.authCount == 0
            else next.authSent == was.authSent && next.authCount == was.authCount && (was.authSent ==> next.authTime == was.authTime))
  {
  }

  /** A vote was given in this epoch, to this candidate. */
  predicate VotedFor(s: Cluster, voter: NodeId, epoch: nat, candidate: NodeId) {
    (voter, epoch) in s.votes && s.votes[(voter, epoch)] == candidate
  }

  /** Votes are given in growing epochs, and lastVoteEpoch is the last of them. */
  ghost predicate VotesRecorded(s: Cluster) {
    forall v, e :: (v, e) in s.votes ==> v in s.nodes && e <= s.nodes[v].lastVoteEpoch
  }

  ghost predicate PacketOk(s: Cluster, m: Message) {
    match m
    case VoteRequest(src, cur, _, _, _) => src in s.ledgers && cur <= s.ledgers[src].asked
    case Vote(src, cur, _, dst, _, _) => dst in s.ledgers && cur <= s.ledgers[dst].asked && VotedFor(s, src, cur, dst)
    case _ => true
  }

  ghost predicate PacketsOk(s: Cluster) {
    forall m :: m in s.net ==> PacketOk(s, m)
  }

  lemma VoteIsNew(p: Params, s: Cluster, e: Event)
    requires WellFormed(s) && Dominated(s) && Enabled(p, s, e) && e.ReceiveRequest? && Grants(s, e)
    ensures Header(s, e.n, e.m).currentEpoch == e.m.cur
    ensures s.nodes[e.n].lastVoteEpoch < e.m.cur
  {
    HeaderDominated(s.nodes[e.n], e.m.src, e.m.cur, e.m.cfg);
  }

  /** A vote once given stays: no node votes twice in an epoch. */
  lemma VotesKept(p: Params, s: Cluster, e: Event, voter: NodeId, epoch: nat, candidate: NodeId)
    requires WellFormed(s) && Dominated(s) && VotesRecorded(s) && Enabled(p, s, e) && VotedFor(s, voter, epoch, candidate)
    ensures VotedFor(Apply(p, s, e), voter, epoch, candidate)
  {
    hide NewLedger, NewNode, Sent, Dominated, Lost, NewWins;
    if e.ReceiveRequest? && Grants(s, e) {
      VoteIsNew(p, s, e);
    }
  }

  lemma ApplyVotesRecorded(p: Params, s: Cluster, e: Event)
    requires WellFormed(s) && Dominated(s) && VotesRecorded(s) && Enabled(p, s, e)
    ensures VotesRecorded(Apply(p, s, e))
  {
    hide NewLedger, NewNode, Sent, Dominated, Lost, NewWins, Grants;
    if HasActor(e) {
      VoteField(p, s, e);
      if e.ReceiveRequest? && Grants(s, e) {
        VoteIsNew(p, s, e);
      }
    }
  }

  /** An election that is asking for votes is the last one the node asked in, also over restarts. */
  ghost predicate AskedOk(s: Cluster) {
    forall n :: n in s.nodes ==> n in s.ledgers && NodeAskedOk(s.nodes[n], s.ledgers[n].asked)
  }

  predicate NodeAskedOk(node: Node, asked: nat) {
    node.authEpoch <= asked <= node.currentEpoch && (node.authSent ==> node.authEpoch == asked)
  }

  lemma CurrentEpochField(p: Params, s: Cluster, e: Event)
    requires WellFormed(s) && Enabled(p, s, e) && HasActor(e)
    ensures e.n in s.nodes && e.n in s.ledgers
    ensures if e.Restart? then s.ledgers[e.n].asked <= NewNode(p, s, e).currentEpoch
            else s.nodes[e.n].currentEpoch <= NewNode(p, s, e).currentEpoch
    ensures e.Failover? && Act(p, s, e) == AskVotes ==> NewNode(p, s, e).currentEpoch == s.nodes[e.n].currentEpoch + 1
  {
  }

  lemma ActorAskedOk(p: Params, s: Cluster, e: Event)
    requires WellFormed(s) && AskedOk(s) && Enabled(p, s, e) && HasActor(e)
    ensures NodeAskedOk(NewNode(p, s, e), NewLedger(p, s, e).asked)
  {
    hide NewNode, NewLedger, Enabled, Act, Accepts;
    CurrentEpochField(p, s, e);
    AuthFields(p, s, e);
    LedgerFields(p, s, e);
    if e.Failover? {
      FailoverFields(p, s, e);
    }
  }

  lemma ApplyAskedOk(p: Params, s: Cluster, e: Event)
    requires WellFormed(s) && AskedOk(s) && Enabled(p, s, e)
    ensures AskedOk(Apply(p, s, e))
  {
    hide NewNode, Sent, Lost, NewVotes, NewLedger, NewWins, Enabled, Act, NodeAskedOk;
    ApplyWellFormed(p, s, e);
    if HasActor(e) {
      ActorAskedOk(p, s, e);
    }
  }

  /** The last epoch asked in only moves forward. */
  lemma AskedGrows(p: Params, s: Cluster, e: Event, n: NodeId)
    requires WellFormed(s) && AskedOk(s) && Enabled(p, s, e) && n in s.ledgers
    ensures n in Apply(p, s, e).ledgers && s.ledgers[n].asked <= Apply(p, s, e).ledgers[n].asked
  {
    hide NewNode, Sent, Lost, NewVotes, NewLedger, NewWins, Enabled, Act;
    EnabledFacts(p, s, e);
    if HasActor(e) {
      LedgerFields(p, s, e);
    }
  }

  lemma SentPacketsOk(p: Params, s: Cluster, e: Event)
    requires WellFormed(s) && Dominated(s) && AskedOk(s) && PacketsOk(s) && Enabled(p, s, e)
    ensures forall m :: m in Sent(p, s, e) ==> PacketOk(Apply(p, s, e), m)
  {
    hide NewNode, Lost, NewLedger, NewWins;
    if e.ReceiveRequest? && Grants(s, e) {
      VoteIsNew(p, s, e);
      assert PacketOk(s, e.m);
      AskedGrows(p, s, e, e.m.src);
    } else if e.Failover? {
      LedgerFields(p, s, e);
      FailoverFields(p, s, e);
    }
  }

  lemma ApplyPacketsOk(p: Params, s: Cluster, e: Event)
    requires WellFormed(s) && Dominated(s) && AskedOk(s) && VotesRecorded(s) && PacketsOk(s) && Enabled(p, s, e)
    ensures PacketsOk(Apply(p, s, e))
  {
    hide NewNode, Sent, NewVotes, NewLedger, NewWins, VotesRecorded, Dominated, AskedOk, Enabled;
    SentPacketsOk(p, s, e);
    forall m | m in s.net && m !in Lost(s, e)
      ensures PacketOk(Apply(p, s, e), m)
    {
      assert PacketOk(s, m);
      if m.VoteRequest? {
        AskedGrows(p, s, e, m.src);
      } else if m.Vote? {
        AskedGrows(p, s, e, m.dst);
        VotesKept(p, s, e, m.src, m.cur, m.dst);
      }
    }
  }

  // ---------- counting ----------

  /** The votes a candidate has counted: real votes of its election, plus stale ones. */
  ghost predicate CountOk(p: Params, s: Cluster, n: NodeId)
    requires WellFormed(s) && n in s.nodes
  {
    && s.ledgers[n].counted <= p.masters
    && (forall v :: v in s.ledgers[n].counted ==> VotedFor(s, v, s.nodes[n].authEpoch, n))
    && (!s.nodes[n].authSent ==> s.ledgers[n].counted == {})
    && s.nodes[n].authCount == |s.ledgers[n].counted| + s.ledgers[n].stale
  }

  ghost predicate CountsOk(p: Params, s: Cluster)
    requires WellFormed(s)
  {
    forall n :: n in s.nodes ==> CountOk(p, s, n)
  }

  /** A vote on its way has not been counted yet, and travels in one packet. */
  ghost predicate Undelivered(s: Cluster)
    requires WellFormed(s)
  {
    && (forall m :: m in s.net ==> NotCounted(s, m))
    && (forall m, m' :: m in s.net && m' in s.net && m.Vote? && m'.Vote? && m.src == m'.src && m.cur == m'.cur ==> m == m')
  }

  ghost predicate NotCounted(s: Cluster, m: Message)
    requires WellFormed(s)
  {
    (m.Vote? && m.dst in s.nodes && m.cur == s.nodes[m.dst].authEpoch && s.nodes[m.dst].authSent) ==>
      m.src !in s.ledgers[m.dst].counted
  }

  ghost predicate Counting(p: Params, s: Cluster) {
    WellFormed(s) && Dominated(s) && AskedOk(s) && VotesRecorded(s) && PacketsOk(s) && CountsOk(p, s) && Undelivered(s)
  }

  /** A vote that a candidate accepts after asking belongs to its present election and is a new one. */
  lemma AcceptedVote(p: Params, s: Cluster, e: Event)
    requires Counting(p, s) && Enabled(p, s, e) && e.ReceiveVote? && Accepts(p, s, e)
    ensures e.m.src in p.masters
    ensures s.nodes[e.n].authSent ==> VotedFor(s, e.m.src, s.nodes[e.n].authEpoch, e.n) && e.m.src !in s.ledgers[e.n].counted
  {
    assert PacketOk(s, e.m);
  }

  lemma CountFrame(p: Params, s: Cluster, e: Event, n: NodeId)
    requires Counting(p, s) && Enabled(p, s, e) && n in s.nodes && !(HasActor(e) && e.n == n)
    ensures WellFormed(Apply(p, s, e)) && CountOk(p, Apply(p, s, e), n)
  {
    hide Apply, Enabled, Counting, VotedFor;
    CountingCounts(p, s, n);
    CountingParts(p, s);
    ApplyWellFormed(p, s, e);
    CountedKept(p, s, e, n);
    OthersKept(p, s, e, n);
  }

  /** An event changes nothing about a node that does not take part. */
  lemma OthersKept(p: Params, s: Cluster, e: Event, n: NodeId)
    requires WellFormed(s) && Enabled(p, s, e) && n in s.nodes && !(HasActor(e) && e.n == n)
    ensures WellFormed(Apply(p, s, e)) && n in Apply(p, s, e).nodes && Apply(p, s, e).nodes[n] == s.nodes[n]
    ensures Apply(p, s, e).ledgers[n] == s.ledgers[n]
  {
    hide NewLedger, NewNode, Sent, Lost, NewVotes, NewWins, Enabled;
    ApplyWellFormed(p, s, e);
  }

  lemma CountedKept(p: Params, s: Cluster, e: Event, n: NodeId)
    requires Counting(p, s) && Enabled(p, s, e) && n in s.nodes
    ensures forall v :: v in s.ledgers[n].counted ==> VotedFor(Apply(p, s, e), v, s.nodes[n].authEpoch, n)
  {
    hide Apply, Enabled;
    CountingCounts(p, s, n);
    forall v | v in s.ledgers[n].counted
      ensures VotedFor(Apply(p, s, e), v, s.nodes[n].authEpoch, n)
    {
      VotesKept(p, s, e, v, s.nodes[n].authEpoch, n);
    }
  }

  lemma CountFailover(p: Params, s: Cluster, e: Event)
    requires Counting(p, s) && Enabled(p, s, e) && e.Failover?
    ensures WellFormed(Apply(p, s, e)) && e.n in s.nodes && CountOk(p, Apply(p, s, e), e.n)
  {
    hide NewLedger, NewNode, Sent, Lost, NewVotes, NewWins, Enabled, Counting, Act;
    CountingParts(p, s);
    EnabledFacts(p, s, e);
    ApplyWellFormed(p, s, e);
    CountingCounts(p, s, e.n);
    CountedKept(p, s, e, e.n);
    FailoverFields(p, s, e);
    LedgerFields(p, s, e);
  }

  lemma CountVote(p: Params, s: Cluster, e: Event)
    requires Counting(p, s) && Enabled(p, s, e) && e.ReceiveVote? && Accepts(p, s, e)
    ensures WellFormed(Apply(p, s, e)) && e.n in s.nodes && CountOk(p, Apply(p, s, e), e.n)
  {
    hide NewLedger, NewNode, Sent, Lost, NewVotes, NewWins, Enabled, Counting, Accepts;
    CountingParts(p, s);
    EnabledFacts(p, s, e);
    ApplyWellFormed(p, s, e);
    CountingCounts(p, s, e.n);
    CountedKept(p, s, e, e.n);
    AuthFields(p, s, e);
    LedgerFields(p, s, e);
    AcceptedVote(p, s, e);
    if s.nodes[e.n].authSent {
      VotesKept(p, s, e, e.m.src, s.nodes[e.n].authEpoch, e.n);
    }
  }

  lemma CountActor(p: Params, s: Cluster, e: Event)
    requires Counting(p, s) && Enabled(p, s, e) && HasActor(e)
    ensures WellFormed(Apply(p, s, e)) && e.n in s.nodes && CountOk(p, Apply(p, s, e), e.n)
  {
    hide NewLedger, NewNode, Sent, Lost, NewVotes, NewWins, Enabled, Counting, Accepts;
    CountingParts(p, s);
    EnabledFacts(p, s, e);
    ApplyWellFormed(p, s, e);
    if e.Failover? {
      CountFailover(p, s, e);
    } else if e.ReceiveVote? && Accepts(p, s, e) {
      CountVote(p, s, e);
    } else {
      CountingCounts(p, s, e.n);
      CountedKept(p, s, e, e.n);
      AuthFields(p, s, e);
      LedgerFields(p, s, e);
    }
  }

  lemma ApplyCountsOk(p: Params, s: Cluster, e: Event)
    requires Counting(p, s) && Enabled(p, s, e)
    ensures WellFormed(Apply(p, s, e)) && CountsOk(p, Apply(p, s, e))
  {
    hide Apply, CountOk, Counting, Enabled;
    assert WellFormed(s) by { CountingParts(p, s); }
    ApplyWellFormed(p, s, e);
    forall n | n in s.nodes
      ensures CountOk(p, Apply(p, s, e), n)
    {
      if HasActor(e) && e.n == n {
        CountActor(p, s, e);
      } else {
        CountFrame(p, s, e, n);
      }
    }
  }

  lemma CountingParts(p: Params, s: Cluster)
    requires Counting(p, s)
    ensures WellFormed(s) && Dominated(s) && VotesRecorded(s)
  {
  }

  lemma NewVoteIsAlone(p: Params, s: Cluster, e: Event, m: Message)
    requires Counting(p, s) && Enabled(p, s, e) && m in Sent(p, s, e) && m.Vote?
    ensures e.ReceiveRequest? && m.src == e.n
    ensures forall m' :: m' in s.net && m'.Vote? && m'.src == m.src ==> m'.cur != m.cur
    ensures forall d :: d in s.nodes && s.nodes[d].authEpoch == m.cur ==> m.src !in s.ledgers[d].counted
  {
    VoteIsNew(p, s, e);
    forall m' | m' in s.net && m'.Vote? && m'.src == m.src
      ensures m'.cur != m.cur
    {
      assert PacketOk(s, m');
    }
    forall d | d in s.nodes && s.nodes[d].authEpoch == m.cur
      ensures m.src !in s.ledgers[d].counted
    {
      assert CountOk(p, s, d);
    }
  }

  lemma SentNotCounted(p: Params, s: Cluster, e: Event, m: Message)
    requires Counting(p, s) && Enabled(p, s, e) && m in Sent(p, s, e)
    ensures WellFormed(Apply(p, s, e)) && NotCounted(Apply(p, s, e), m)
  {
    hide NewLedger, NewNode, Sent, Lost, NewVotes, NewWins, Counting;
    CountingParts(p, s);
    ApplyWellFormed(p, s, e);
    if m.Vote? {
      NewVoteIsAlone(p, s, e, m);
      AuthFields(p, s, e);
      LedgerFields(p, s, e);
    }
  }

  /** Two packets never carry the same vote. */
  lemma OneVotePacket(p: Params, s: Cluster, e: Event, m: Message)
    requires Counting(p, s) && Enabled(p, s, e) && m in s.net && m !in Lost(s, e)
    requires e.ReceiveVote? && Accepts(p, s, e) && s.nodes[e.n].authSent && m.Vote? && m.dst == e.n && m.cur == s.nodes[e.n].authEpoch
    ensures m.src != e.m.src
  {
    assert PacketOk(s, e.m);
  }

  lemma KeptByFailover(p: Params, s: Cluster, e: Event, m: Message)
    requires Counting(p, s) && Enabled(p, s, e) && e.Failover? && NotCounted(s, m) && m.Vote? && m.dst == e.n
    ensures WellFormed(Apply(p, s, e)) && NotCounted(Apply(p, s, e), m)
  {
    hide NewLedger, NewNode, Sent, Lost, NewVotes, NewWins, Counting, Enabled, Act;
    CountingParts(p, s);
    EnabledFacts(p, s, e);
    ApplyWellFormed(p, s, e);
    FailoverFields(p, s, e);
    LedgerFields(p, s, e);
    CountingCounts(p, s, e.n);
  }

  lemma KeptByOthers(p: Params, s: Cluster, e: Event, m: Message)
    requires Counting(p, s) && Enabled(p, s, e) && !e.Failover? && m in s.net && m !in Lost(s, e) && NotCounted(s, m)
    requires HasActor(e) && m.Vote? && m.dst == e.n
    ensures WellFormed(Apply(p, s, e)) && NotCounted(Apply(p, s, e), m)
  {
    hide NewLedger, NewNode, Sent, NewVotes, NewWins, Counting, Enabled, Accepts;
    CountingParts(p, s);
    EnabledFacts(p, s, e);
    ApplyWellFormed(p, s, e);
    AuthFields(p, s, e);
    LedgerFields(p, s, e);
    if e.ReceiveVote? && Accepts(p, s, e) && s.nodes[e.n].authSent && m.cur == s.nodes[e.n].authEpoch {
      OneVotePacket(p, s, e, m);
    }
  }

  lemma KeptNotCounted(p: Params, s: Cluster, e: Event, m: Message)
    requires Counting(p, s) && Enabled(p, s, e) && m in s.net && m !in Lost(s, e)
    ensures WellFormed(Apply(p, s, e)) && NotCounted(Apply(p, s, e), m)
  {
    hide NewLedger, NewNode, Sent, Lost, NewVotes, NewWins, Counting, Enabled, Accepts;
    CountingParts(p, s);
    EnabledFacts(p, s, e);
    ApplyWellFormed(p, s, e);
    CountingNotCounted(p, s, m);
    if HasActor(e) && m.Vote? && m.dst == e.n {
      if e.Failover? {
        KeptByFailover(p, s, e, m);
      } else {
        KeptByOthers(p, s, e, m);
      }
    }
  }

  lemma CountingNotCounted(p: Params, s: Cluster, m: Message)
    requires Counting(p, s) && m in s.net
    ensures NotCounted(s, m)
  {
  }

  lemma CountingCounts(p: Params, s: Cluster, n: NodeId)
    requires Counting(p, s) && n in s.nodes
    ensures CountOk(p, s, n)
  {
  }

  lemma ApplyUndelivered(p: Params, s: Cluster, e: Event)
    requires Counting(p, s) && Enabled(p, s, e)
    ensures WellFormed(Apply(p, s, e)) && Undelivered(Apply(p, s, e))
  {
    hide NewLedger, NewNode, Lost, NewVotes, NewWins, Dominated, VotesRecorded, CountsOk, PacketsOk, NotCounted;
    ApplyWellFormed(p, s, e);
    forall m | m in Apply(p, s, e).net
      ensures NotCounted(Apply(p, s, e), m)
    {
      if m in Sent(p, s, e) {
        SentNotCounted(p, s, e, m);
      } else {
        KeptNotCounted(p, s, e, m);
      }
    }
    forall m | m in Sent(p, s, e) && m.Vote?
      ensures forall m' :: m' in s.net && m'.Vote? && m'.src == m.src ==> m'.cur != m.cur
    {
      NewVoteIsAlone(p, s, e, m);
    }
  }

  // ---------- winning ----------

  ghost predicate WinOk(p: Params, s: Cluster, w: Win) {
    && w.voters <= p.masters
    && (forall v :: v in w.voters ==> VotedFor(s, v, w.epoch, w.node))
    && |w.voters| + w.stale >= Quorum(p)
  }

  ghost predicate WinsOk(p: Params, s: Cluster) {
    forall w :: w in s.wins ==> WinOk(p, s, w)
  }

  lemma ApplyWinsOk(p: Params, s: Cluster, e: Event)
    requires Counting(p, s) && WinsOk(p, s) && Enabled(p, s, e)
    ensures WinsOk(p, Apply(p, s, e))
  {
    hide NewLedger, NewNode, Sent, Lost, NewVotes, Dominated, VotesRecorded, PacketsOk, Undelivered;
    forall w | w in Apply(p, s, e).wins
      ensures WinOk(p, Apply(p, s, e), w)
    {
      if w !in s.wins {
        CountingCounts(p, s, e.n);
        FailoverFields(p, s, e);
      }
      assert WinOk(p, s, w);
      forall v | v in w.voters
        ensures VotedFor(Apply(p, s, e), v, w.epoch, w.node)
      {
        VotesKept(p, s, e, v, w.epoch, w.node);
      }
    }
  }

  // ---------- every run ----------

  ghost predicate Invariant(p: Params, s: Cluster) {
    Counting(p, s) && WinsOk(p, s)
  }

  lemma InitialInvariant(p: Params, s: Cluster)
    requires Initial(s)
    ensures Invariant(p, s)
  {
  }

  lemma StepInvariant(p: Params, s: Cluster, e: Event)
    requires Invariant(p, s) && Enabled(p, s, e)
    ensures Invariant(p, Apply(p, s, e))
  {
    hide Apply, Enabled, WellFormed, Dominated, AskedOk, VotesRecorded, PacketsOk, CountsOk, Undelivered, WinsOk;
    ApplyWellFormed(p, s, e);
    ApplyDominated(p, s, e);
    ApplyAskedOk(p, s, e);
    ApplyVotesRecorded(p, s, e);
    ApplyPacketsOk(p, s, e);
    ApplyCountsOk(p, s, e);
    ApplyUndelivered(p, s, e);
    ApplyWinsOk(p, s, e);
  }

  lemma {:induction false} RunInvariant(p: Params, states: seq<Cluster>, events: seq<Event>, i: nat)
    requires Run(p, states, events) && i < |states|
    ensures Invariant(p, states[i])
  {
    hide Invariant, Initial, Apply, Enabled;
    if i == 0 {
      InitialInvariant(p, states[0]);
    } else {
      RunInvariant(p, states, events, i - 1);
      assert Step(p, states[i - 1], events[i - 1], states[i]);
      StepInvariant(p, states[i - 1], events[i - 1]);
    }
  }

  /**
   Epoch dominance: in every state of every run each node's currentEpoch is at least its lastVoteEpoch
   and every configEpoch it stores, and no packet carries a config epoch above its currentEpoch.
   */
  lemma EpochDominance(p: Params, states: seq<Cluster>, events: seq<Event>, i: nat)
    requires Run(p, states, events) && i < |states|
    ensures Dominated(states[i])
  {
    RunInvariant(p, states, events, i);
  }

  /** A node votes at most once per epoch: a recorded vote never changes. */
  lemma {:induction false} OneVotePerEpoch(p: Params, states: seq<Cluster>, events: seq<Event>, i: nat, j: nat,
                                           voter: NodeId, epoch: nat, candidate: NodeId)
    requires Run(p, states, events) && i <= j < |states| && VotedFor(states[i], voter, epoch, candidate)
    ensures VotedFor(states[j], voter, epoch, candidate)
    decreases j - i
  {
    hide Apply, Enabled, Initial, VotedFor;
    if i < j {
      OneVotePerEpoch(p, states, events, i, j - 1, voter, epoch, candidate);
      RunInvariant(p, states, events, j - 1);
      assert Step(p, states[j - 1], events[j - 1], states[j]);
      VotesKept(p, states[j - 1], events[j - 1], voter, epoch, candidate);
    }
  }

  /**
   The exact content of a candidate's vote count, in every state of every run: the distinct masters
   that voted for it in its present epoch, plus the late votes it accepted between scheduling that
   election and asking for votes.
   */
  lemma CountDecomposition(p: Params, states: seq<Cluster>, events: seq<Event>, i: nat, n: NodeId)
    requires Run(p, states, events) && i < |states| && n in states[i].nodes
    ensures WellFormed(states[i])
    ensures states[i].nodes[n].authCount == |states[i].ledgers[n].counted| + states[i].ledgers[n].stale
    ensures forall v :: v in states[i].ledgers[n].counted ==>
      v in p.masters && VotedFor(states[i], v, states[i].nodes[n].authEpoch, n)
  {
    RunInvariant(p, states, events, i);
    CountingCounts(p, states[i], n);
  }

  lemma MajoritiesMeet(a: set<NodeId>, b: set<NodeId>, all: set<NodeId>) returns (v: NodeId)
    requires a <= all && b <= all && |a| >= |all| / 2 + 1 && |b| >= |all| / 2 + 1
    ensures v in a && v in b
  {
    if a * b == {} {
      assert |a + b| == |a| + |b|;
      SubsetSize(a + b, all);
    }
    v :| v in a * b;
  }

  /** Two elections won in the same epoch without stale votes were won by the same node. */
  lemma HonestWinsAgree(p: Params, states: seq<Cluster>, events: seq<Event>, i: nat, w: Win, w': Win)
    requires Run(p, states, events) && i < |states|
    requires w in states[i].wins && w' in states[i].wins && w.epoch == w'.epoch
    requires w.stale == 0 && w'.stale == 0
    ensures w.node == w'.node
  {
    RunInvariant(p, states, events, i);
    assert WinOk(p, states[i], w) && WinOk(p, states[i], w');
    var v := MajoritiesMeet(w.voters, w'.voters, p.masters);
  }
}
