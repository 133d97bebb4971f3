/**
 The epochs and votes one cluster node keeps, and what its message and timer handlers do to them
 (cluster.c).  Each handler is a function from the node's state; `ClusterHandlers` holds the
 imperative code that is proved to compute them.
 */
module ClusterNode {
  import opened Common

  /** A node name; names are compared as byte strings, of which only the order matters. */
  type NodeId = nat

  datatype Node = Node(
    currentEpoch: nat,
    lastVoteEpoch: nat,
    config: map<NodeId, nat>,   // the configEpoch stored for every known node, this one included
    authTime: int,              // time of the previous or next election, in milliseconds
    authCount: nat,             // votes received so far
    authSent: bool,             // whether votes were already asked for
    authEpoch: nat)             // epoch of the current election

  /** Processing the header of a packet from a known sender. */
  function ReceiveHeader(s: Node, src: NodeId, cur: nat, cfg: nat): Node
    requires src in s.config
  {
    s.(currentEpoch := Max(s.currentEpoch, cur), config := s.config[src := Max(s.config[src], cfg)])
  }

  /** `clusterHandleConfigEpochCollision` and the test of its caller; bothMasters is what the flags say. */
  function ResolveCollision(s: Node, me: NodeId, src: NodeId, cfg: nat, bothMasters: bool): Node
    requires me in s.config && src in s.config
  {
    if bothMasters && cfg == s.config[me] && s.config[src] == s.config[me] && me < src
    then s.(currentEpoch := s.currentEpoch + 1, config := s.config[me := s.currentEpoch + 1])
    else s
  }

  /** The UPDATE packet: a newer configEpoch for some known node. */
  function ReceiveUpdate(s: Node, about: NodeId, epoch: nat): Node {
    if about in s.config && s.config[about] < epoch then s.(config := s.config[about := epoch]) else s
  }

  /** `clusterGetMaxEpoch` */
  ghost predicate IsMaxEpoch(s: Node, max: nat) {
    && s.currentEpoch <= max
    && (forall n :: n in s.config ==> s.config[n] <= max)
    && (max == s.currentEpoch || exists n :: n in s.config && s.config[n] == max)
  }

  /**
   `clusterBumpConfigEpochWithoutConsensus`: a new epoch unless this node already has the greatest
   one and it is not 0.
   */
  function Bump(s: Node, me: NodeId, max: nat): Node
    requires me in s.config
  {
    if s.config[me] == 0 || s.config[me] != max
    then s.(currentEpoch := s.currentEpoch + 1, config := s.config[me := s.currentEpoch + 1])
    else s
  }

  // ---------- votes ----------

  /** What the rest of the node's state says about a vote request. */
  datatype VoteContext = VoteContext(
    canVote: bool,        // this node is a master serving slots
    mayFailover: bool,    // the candidate is a slave of a known master that failed, or the vote is forced
    votedRecently: bool,  // a vote for a slave of that master was given less than two node timeouts ago
    slotsFresh: bool)     // no claimed slot is served with a greater configEpoch than the request's

  predicate GrantsVote(s: Node, requestEpoch: nat, ctx: VoteContext) {
    && ctx.canVote
    && requestEpoch >= s.currentEpoch
    && s.lastVoteEpoch != s.currentEpoch
    && ctx.mayFailover && !ctx.votedRecently && ctx.slotsFresh
  }

  /** `clusterSendFailoverAuthIfNeeded` */
  function HandleVoteRequest(s: Node, requestEpoch: nat, ctx: VoteContext): Node {
    if GrantsVote(s, requestEpoch, ctx) then s.(lastVoteEpoch := s.currentEpoch) else s
  }

  /** A vote is counted if the voter is a master with slots and not behind this election. */
  predicate AcceptsVote(s: Node, voterEpoch: nat, fromMaster: bool) {
    fromMaster && voterEpoch >= s.authEpoch
  }

  function HandleVote(s: Node, voterEpoch: nat, fromMaster: bool): Node {
    if AcceptsVote(s, voterEpoch, fromMaster) then s.(authCount := s.authCount + 1) else s
  }

  // ---------- the slave's side ----------

  /** What the rest of the state and the configuration say when a slave considers a failover. */
  datatype FailoverContext = FailoverContext(
    eligible: bool,    // a slave of a failed master with slots (or a manual failover), with recent enough data
    manual: bool,      // a manual failover is in progress
    delay: nat,        // fixed, random and rank delay of a newly scheduled election
    rankDelay: nat,    // delay added because the rank got worse
    timeout: nat,      // auth_timeout
    quorum: nat)       // votes needed

  datatype Action = Nothing | AskVotes | Promote

  /** `clusterHandleSlaveFailover` */
  function HandleFailover(s: Node, me: NodeId, now: int, ctx: FailoverContext): (Node, Action)
    requires me in s.config
  {
    var age := now - s.authTime;
    if !ctx.eligible then (s, Nothing)
    else if age > 2 * ctx.timeout then
      (s.(authTime := if ctx.manual then now else now + ctx.delay, authCount := 0, authSent := false), Nothing)
    else
      var s := if !s.authSent && !ctx.manual then s.(authTime := s.authTime + ctx.rankDelay) else s;
      if now < s.authTime || age > ctx.timeout then (s, Nothing)
      else if !s.authSent then
        (s.(currentEpoch := s.currentEpoch + 1, authEpoch := s.currentEpoch + 1, authSent := true), AskVotes)
      else if s.authCount >= ctx.quorum then
        (s.(config := s.config[me := Max(s.config[me], s.authEpoch)]), Promote)
      else (s, Nothing)
  }

  /** What asking and winning mean for the node. */
  lemma FailoverMeans(s: Node, me: NodeId, now: int, ctx: FailoverContext)
    requires me in s.config
    ensures var (s', action) := HandleFailover(s, me, now, ctx);
      && s'.config.Keys == s.config.Keys
      && (action.Promote? ==> s.authSent && s.authCount >= ctx.quorum && s'.config[me] >= s.authEpoch && s'.config[me] >= s.config[me])
      && (!action.Promote? ==> s'.config == s.config)
      && (action.AskVotes? ==> !s.authSent && s'.authSent && s'.authEpoch == s'.currentEpoch == s.currentEpoch + 1)
      && (!action.AskVotes? ==> s'.currentEpoch == s.currentEpoch && s'.authEpoch == s.authEpoch)
      && (s.authSent && !s'.authSent ==>
            now - s.authTime > 2 * ctx.timeout && s'.authCount == 0 && s'.authTime == if ctx.manual then now else now + ctx.delay)
      && (!action.Nothing? ==> ctx.eligible && s'.authTime <= now && now - s.authTime <= ctx.timeout)
  {
  }
}
