/**
 How slot claims spread.  Every master claims a set of slots under its configEpoch; a node hears these
 claims in PING, PONG and UPDATE packets, and the epochs alone in other packets, in any order and any
 number of times.
 */
module SlotClaims {
  import opened Common
  import opened ClusterNode
  import opened SlotTable

  function NoImports(): seq<Option<NodeId>> {
    seq(SLOTS, _ => None)
  }

  ghost predicate ClaimsOk(claims: map<NodeId, Claim>) {
    && (forall n :: n in claims ==> |claims[n].slots| == SLOTS / 8)
    && (forall n, k :: n in claims && k in claims && n != k ==> claims[n].epoch != claims[k].epoch)
  }

  predicate Claims(claims: map<NodeId, Claim>, n: NodeId, j: nat)
    requires n in claims && |claims[n].slots| == SLOTS / 8 && j < SLOTS
  {
    TestBit(claims[n].slots, j)
  }

  /** owner is the claimant of slot j with the highest epoch among `done`, if there is one. */
  ghost predicate Highest(claims: map<NodeId, Claim>, done: set<NodeId>, j: nat, owner: Option<NodeId>)
    requires ClaimsOk(claims) && done <= claims.Keys && j < SLOTS
  {
    && (owner.None? ==> forall n :: n in done ==> !Claims(claims, n, j))
    && (owner.Some? ==>
      && owner.value in done && Claims(claims, owner.value, j)
      && forall n :: n in done && Claims(claims, n, j) && n != owner.value ==> claims[n].epoch < claims[owner.value].epoch)
  }

  lemma HighestUnique(claims: map<NodeId, Claim>, done: set<NodeId>, j: nat, a: Option<NodeId>, b: Option<NodeId>)
    requires ClaimsOk(claims) && done <= claims.Keys && j < SLOTS
    requires Highest(claims, done, j, a) && Highest(claims, done, j, b)
    ensures a == b
  {
  }

  /** The slots are those of the claims of `done`; other epochs may be known, too. */
  ghost predicate Knows(claims: map<NodeId, Claim>, done: set<NodeId>, v: SlotView)
    requires ClaimsOk(claims) && done <= claims.Keys
  {
    && |v.slots| == SLOTS && v.importing == NoImports() && claims.Keys <= v.epochs.Keys
    && (forall n :: n in claims ==> if n in done then v.epochs[n] == claims[n].epoch else v.epochs[n] <= claims[n].epoch)
    && (forall j :: 0 <= j < SLOTS ==> Highest(claims, done, j, v.slots[j]))
  }

  /** The claim is processed: it comes in a ping, or in an UPDATE that is newer than the stored epoch. */
  predicate Takes(v: SlotView, claim: Claim, h: Hearing)
    requires h.n in v.epochs
  {
    h.Ping? || (h.Update? && v.epochs[h.n] < claim.epoch)
  }

  /** An UPDATE changes nothing exactly when its epoch is known already. */
  lemma UpdateIgnored(v: SlotView, claim: Claim, n: NodeId)
    requires |v.slots| == |v.importing| == SLOTS && n in v.epochs && |claim.slots| == SLOTS / 8
    ensures Hear(v, claim, Update(n)) == v <==> v.epochs[n] >= claim.epoch
  {
    if v.epochs[n] < claim.epoch {
      assert Hear(v, claim, Update(n)).epochs[n] == claim.epoch;
    }
  }

  lemma TakenSlot(claims: map<NodeId, Claim>, done: set<NodeId>, v: SlotView, n: NodeId, j: nat)
    requires ClaimsOk(claims) && done <= claims.Keys && Knows(claims, done, v) && n in claims && j < SLOTS
    ensures |HearClaim(v, n, claims[n]).slots| == SLOTS
    ensures Highest(claims, done + {n}, j, HearClaim(v, n, claims[n]).slots[j])
  {
    hide TestBit;
    assert Highest(claims, done, j, v.slots[j]);
    assert done + {n} <= claims.Keys;
    if n in done {
      assert done + {n} == done;
    }
  }

  /** Hearing of n in any way keeps what is known, and adds n's claim if it is taken. */
  lemma HearStep(claims: map<NodeId, Claim>, done: set<NodeId>, v: SlotView, h: Hearing)
    requires ClaimsOk(claims) && done <= claims.Keys && Knows(claims, done, v) && h.n in claims
    ensures Knows(claims, if Takes(v, claims[h.n], h) then done + {h.n} else done, Hear(v, claims[h.n], h))
  {
    hide Highest;
    if Takes(v, claims[h.n], h) {
      var v' := HearClaim(v, h.n, claims[h.n]);
      forall j | 0 <= j < SLOTS
        ensures Highest(claims, done + {h.n}, j, v'.slots[j])
      {
        TakenSlot(claims, done, v, h.n, j);
      }
    }
  }

  /**
   A node before it hears of the others: a claimant owns what it claims, any other node, such as a slave,
   knows of no owner, and none knows newer epochs than those of the claims.
   */
  ghost predicate Start(claims: map<NodeId, Claim>, me: NodeId, v: SlotView)
    requires ClaimsOk(claims)
  {
    && |v.slots| == SLOTS && v.importing == NoImports() && claims.Keys <= v.epochs.Keys
    && (me in claims ==> v.epochs[me] == claims[me].epoch)
    && (forall n :: n in claims && n != me ==> v.epochs[n] <= claims[n].epoch)
    && (forall j :: 0 <= j < SLOTS ==> v.slots[j] == if me in claims && Claims(claims, me, j) then Some(me) else None)
  }

  ghost predicate Run(claims: map<NodeId, Claim>, me: NodeId, views: seq<SlotView>, heard: seq<Hearing>)
    requires ClaimsOk(claims)
  {
    && |views| == |heard| + 1
    && Start(claims, me, views[0])
    && forall i :: 0 <= i < |heard| ==>
      && heard[i].n in claims && heard[i].n != me
      && |views[i].slots| == |views[i].importing| == SLOTS && heard[i].n in views[i].epochs
      && views[i + 1] == Hear(views[i], claims[heard[i].n], heard[i])
  }

  /** The node itself, if it claims slots, and those whose claims were taken by the first i hearings. */
  ghost function Taken(claims: map<NodeId, Claim>, me: NodeId, views: seq<SlotView>, heard: seq<Hearing>, i: nat): set<NodeId>
    requires ClaimsOk(claims) && Run(claims, me, views, heard) && i <= |heard|
  {
    if i == 0 then {me} * claims.Keys
    else
      var done := Taken(claims, me, views, heard, i - 1);
      if Takes(views[i - 1], claims[heard[i - 1].n], heard[i - 1]) then done + {heard[i - 1].n} else done
  }

  /**
   Convergence: whatever the order and the repetitions, every slot belongs to the highest-epoch
   claimant whose claim was taken so far.
   */
  lemma {:induction false} ClaimsConverge(claims: map<NodeId, Claim>, me: NodeId, views: seq<SlotView>, heard: seq<Hearing>, i: nat)
    requires ClaimsOk(claims) && Run(claims, me, views, heard) && i <= |heard|
    ensures Taken(claims, me, views, heard, i) <= claims.Keys
    ensures Knows(claims, Taken(claims, me, views, heard, i), views[i])
  {
    hide TestBit;
    if i > 0 {
      ClaimsConverge(claims, me, views, heard, i - 1);
      HearStep(claims, Taken(claims, me, views, heard, i - 1), views[i - 1], heard[i - 1]);
    }
  }

  /** A claim that came in a ping has been taken. */
  lemma {:induction false} PingTaken(claims: map<NodeId, Claim>, me: NodeId, views: seq<SlotView>, heard: seq<Hearing>, k: nat, i: nat)
    requires ClaimsOk(claims) && Run(claims, me, views, heard) && k < i <= |heard| && heard[k].Ping?
    ensures heard[k].n in Taken(claims, me, views, heard, i)
  {
    if k < i - 1 {
      PingTaken(claims, me, views, heard, k, i - 1);
    }
  }

  /**
   UPDATE packets are no substitute for pings: once n's epoch is known, from whatever packet, a node that
   gets no ping of n never learns a slot of n, however many UPDATEs about n it gets.
   */
  lemma {:induction false} UpdatesComeTooLate(claims: map<NodeId, Claim>, me: NodeId, views: seq<SlotView>, heard: seq<Hearing>, n: NodeId, i: nat)
    requires ClaimsOk(claims) && Run(claims, me, views, heard) && i <= |heard|
    requires n in claims && n != me && views[0].epochs[n] == claims[n].epoch
    requires forall k :: 0 <= k < |heard| && heard[k].n == n ==> !heard[k].Ping?
    ensures n in views[i].epochs && views[i].epochs[n] == claims[n].epoch && n !in Taken(claims, me, views, heard, i)
    ensures |views[i].slots| == SLOTS && forall j :: 0 <= j < SLOTS ==> views[i].slots[j] != Some(n)
  {
    hide TestBit, Rebound;
    ClaimsConverge(claims, me, views, heard, i);
    if i > 0 {
      UpdatesComeTooLate(claims, me, views, heard, n, i - 1);
    }
    forall j | 0 <= j < SLOTS ensures views[i].slots[j] != Some(n) {
      assert Highest(claims, Taken(claims, me, views, heard, i), j, views[i].slots[j]);
    }
  }

  /** Nodes that have taken the same claims have the same slot table. */
  lemma NodesAgree(claims: map<NodeId, Claim>, me: NodeId, views: seq<SlotView>, heard: seq<Hearing>,
                   me': NodeId, views': seq<SlotView>, heard': seq<Hearing>)
    requires ClaimsOk(claims) && Run(claims, me, views, heard) && Run(claims, me', views', heard')
    requires Taken(claims, me, views, heard, |heard|) == Taken(claims, me', views', heard', |heard'|)
    ensures views[|heard|].slots == views'[|heard'|].slots
  {
    hide Run, Taken;
    assert |views| == |heard| + 1 && |views'| == |heard'| + 1 by { RunLength(claims, me, views, heard); RunLength(claims, me', views', heard'); }
    ClaimsConverge(claims, me, views, heard, |heard|);
    ClaimsConverge(claims, me', views', heard', |heard'|);
    var done := Taken(claims, me, views, heard, |heard|);
    forall j | 0 <= j < SLOTS
      ensures views[|heard|].slots[j] == views'[|heard'|].slots[j]
    {
      HighestUnique(claims, done, j, views[|heard|].slots[j], views'[|heard'|].slots[j]);
    }
  }

  /** All nodes that have been pinged by all claimants have the same slot table. */
  lemma PingedNodesAgree(claims: map<NodeId, Claim>, me: NodeId, views: seq<SlotView>, heard: seq<Hearing>,
                         me': NodeId, views': seq<SlotView>, heard': seq<Hearing>)
    requires ClaimsOk(claims) && Run(claims, me, views, heard) && Run(claims, me', views', heard')
    requires forall n :: n in claims && n != me ==> Ping(n) in heard
    requires forall n :: n in claims && n != me' ==> Ping(n) in heard'
    ensures views[|heard|].slots == views'[|heard'|].slots
  {
    hide Run, Taken, TestBit;
    assert |views| == |heard| + 1 && |views'| == |heard'| + 1 by { RunLength(claims, me, views, heard); RunLength(claims, me', views', heard'); }
    AllTaken(claims, me, views, heard);
    AllTaken(claims, me', views', heard');
    NodesAgree(claims, me, views, heard, me', views', heard');
  }

  lemma AllTaken(claims: map<NodeId, Claim>, me: NodeId, views: seq<SlotView>, heard: seq<Hearing>)
    requires ClaimsOk(claims) && Run(claims, me, views, heard) && forall n :: n in claims && n != me ==> Ping(n) in heard
    ensures Taken(claims, me, views, heard, |heard|) == claims.Keys
  {
    ClaimsConverge(claims, me, views, heard, |heard|);
    if me in claims {
      SelfTaken(claims, me, views, heard, |heard|);
    }
    hide Run, Taken, TestBit;
    forall n | n in claims ensures n in Taken(claims, me, views, heard, |heard|) {
      if n != me {
        var k :| 0 <= k < |heard| && heard[k] == Ping(n);
        PingTaken(claims, me, views, heard, k, |heard|);
      }
    }
  }

  lemma {:induction false} SelfTaken(claims: map<NodeId, Claim>, me: NodeId, views: seq<SlotView>, heard: seq<Hearing>, i: nat)
    requires ClaimsOk(claims) && Run(claims, me, views, heard) && i <= |heard| && me in claims
    ensures me in Taken(claims, me, views, heard, i)
  {
    if i > 0 {
      SelfTaken(claims, me, views, heard, i - 1);
    }
  }

  lemma RunLength(claims: map<NodeId, Claim>, me: NodeId, views: seq<SlotView>, heard: seq<Hearing>)
    requires ClaimsOk(claims) && Run(claims, me, views, heard)
    ensures |views| == |heard| + 1
  {
  }
}
