/**
 The slot table of a cluster node: the owner of each of the 16384 hash slots, and for every node a
 bitmap and a count of the slots it serves.  The two views are kept in step by every operation.
 */
module SlotTable {
  import opened BitBytes
  import BitStrings
  import Words
  import opened Common
  import opened ClusterNode

  type Bitmap = seq<bv8>

  // ---------- bitmaps ----------

  predicate TestBit(b: Bitmap, pos: nat)
    requires |b| == SLOTS / 8 && pos < SLOTS
  {
    TestByte(b[pos / 8], pos % 8)
  }

  function SetBit(b: Bitmap, pos: nat): (r: Bitmap)
    requires |b| == SLOTS / 8 && pos < SLOTS
    ensures |r| == |b|
    ensures forall p :: 0 <= p < SLOTS ==> TestBit(r, p) == (p == pos || TestBit(b, p))
  {
    BitEffect(b, pos);
    b[pos / 8 := SetByte(b[pos / 8], pos % 8)]
  }

  function ClearBit(b: Bitmap, pos: nat): (r: Bitmap)
    requires |b| == SLOTS / 8 && pos < SLOTS
    ensures |r| == |b|
    ensures forall p :: 0 <= p < SLOTS ==> TestBit(r, p) == (p != pos && TestBit(b, p))
  {
    BitEffect(b, pos);
    b[pos / 8 := ClearByte(b[pos / 8], pos % 8)]
  }

  lemma BitEffect(b: Bitmap, pos: nat)
    requires |b| == SLOTS / 8 && pos < SLOTS
    ensures forall p :: 0 <= p < SLOTS ==>
      && TestBit(b[pos / 8 := SetByte(b[pos / 8], pos % 8)], p) == (p == pos || TestBit(b, p))
      && TestBit(b[pos / 8 := ClearByte(b[pos / 8], pos % 8)], p) == (p != pos && TestBit(b, p))
  {
    hide TestByte, SetByte, ClearByte;
    forall p | 0 <= p < SLOTS
      ensures TestBit(b[pos / 8 := SetByte(b[pos / 8], pos % 8)], p) == (p == pos || TestBit(b, p))
      ensures TestBit(b[pos / 8 := ClearByte(b[pos / 8], pos % 8)], p) == (p != pos && TestBit(b, p))
    {
      assert pos == 8 * (pos / 8) + pos % 8 && p == 8 * (p / 8) + p % 8;
      BitEffects(b[pos / 8], pos % 8, p % 8);
    }
  }

  /** Slot pos is the binary digit worth 2^(pos % 8) of byte pos / 8. */
  lemma TestBitIsDigit(b: Bitmap, pos: nat)
    requires |b| == SLOTS / 8 && pos < SLOTS
    ensures TestBit(b, pos) <==> b[pos / 8] as nat / Words.Pow2(pos % 8) % 2 == 1
  {
    hide TestByte, Words.Pow2;
    BitStrings.TestByteIsDigit(b[pos / 8], pos % 8);
  }

  /** The number of bits set below n. */
  function Population(b: Bitmap, n: nat): nat
    requires |b| == SLOTS / 8 && n <= SLOTS
  {
    if n == 0 then 0 else Population(b, n - 1) + (if TestBit(b, n - 1) then 1 else 0)
  }

  lemma {:induction false} PopulationOfChange(b: Bitmap, b': Bitmap, pos: nat, n: nat)
    requires |b| == |b'| == SLOTS / 8 && pos < SLOTS && n <= SLOTS
    requires !TestBit(b, pos) && forall p :: 0 <= p < SLOTS ==> TestBit(b', p) == (p == pos || TestBit(b, p))
    ensures Population(b', n) == Population(b, n) + (if pos < n then 1 else 0)
  {
    hide TestBit;
    if n > 0 {
      PopulationOfChange(b, b', pos, n - 1);
    }
  }

  lemma {:induction false} PopulationZero(b: Bitmap, n: nat)
    requires |b| == SLOTS / 8 && n <= SLOTS
    ensures Population(b, n) == 0 <==> forall p :: 0 <= p < n ==> !TestBit(b, p)
  {
    hide TestBit;
    if n > 0 {
      PopulationZero(b, n - 1);
    }
  }

  // ---------- the table ----------

  datatype SlotNode = SlotNode(bitmap: Bitmap, numslots: nat, configEpoch: nat, master: bool, slaveof: Option<NodeId>)

  function FreshSlotNode(master: bool, slaveof: Option<NodeId>): SlotNode {
    SlotNode(seq(SLOTS / 8, _ => 0), 0, 0, master, slaveof)
  }

  /** The bitmap of n says which slots n owns, and its count how many. */
  ghost predicate Serves(n: NodeId, node: SlotNode, slots: seq<Option<NodeId>>) {
    && |slots| == SLOTS && |node.bitmap| == SLOTS / 8
    && (forall j :: 0 <= j < SLOTS ==> (TestBit(node.bitmap, j) <==> slots[j] == Some(n)))
    && node.numslots == Population(node.bitmap, SLOTS)
  }

  /** The master of a slave, where it is known, is a known node, and a master has none. */
  ghost predicate RolesOk(nodes: map<NodeId, SlotNode>) {
    forall n :: n in nodes && nodes[n].slaveof.Some? ==> !nodes[n].master && nodes[n].slaveof.value in nodes
  }

  lemma ServesBit(n: NodeId, node: SlotNode, slots: seq<Option<NodeId>>, j: nat)
    requires Serves(n, node, slots) && j < SLOTS
    ensures |slots| == SLOTS && |node.bitmap| == SLOTS / 8 && (TestBit(node.bitmap, j) <==> slots[j] == Some(n))
  {
  }

  lemma ServesCount(n: NodeId, node: SlotNode, slots: seq<Option<NodeId>>)
    requires Serves(n, node, slots)
    ensures |slots| == SLOTS && (node.numslots == 0 <==> forall j :: 0 <= j < SLOTS ==> slots[j] != Some(n))
  {
    hide TestBit;
    PopulationZero(node.bitmap, SLOTS);
  }

  lemma ServesStill(n: NodeId, node: SlotNode, node': SlotNode, slots: seq<Option<NodeId>>, slot: nat, owner: Option<NodeId>)
    requires Serves(n, node, slots) && slot < |slots| && slots[slot] != Some(n) && owner != Some(n)
    requires node'.bitmap == node.bitmap && node'.numslots == node.numslots
    ensures Serves(n, node', slots[slot := owner])
  {
    hide TestBit, Population;
  }

  lemma ServesMore(n: NodeId, node: SlotNode, node': SlotNode, slots: seq<Option<NodeId>>, slot: nat)
    requires Serves(n, node, slots) && slot < SLOTS && slots[slot] == None
    requires node'.bitmap == SetBit(node.bitmap, slot) && node'.numslots == node.numslots + 1
    ensures Serves(n, node', slots[slot := Some(n)])
  {
    hide TestBit;
    PopulationOfChange(node.bitmap, node'.bitmap, slot, SLOTS);
  }

  lemma ServesLess(n: NodeId, node: SlotNode, node': SlotNode, slots: seq<Option<NodeId>>, slot: nat)
    requires Serves(n, node, slots) && slot < SLOTS && slots[slot] == Some(n)
    requires node'.bitmap == ClearBit(node.bitmap, slot) && node'.numslots == node.numslots - 1
    ensures Serves(n, node', slots[slot := None])
  {
    hide TestBit;
    PopulationOfChange(node'.bitmap, node.bitmap, slot, SLOTS);
  }

  class Table {
    const me: NodeId
    var nodes: map<NodeId, SlotNode>
    var slots: seq<Option<NodeId>>
    var importing: seq<Option<NodeId>>
    var migrating: seq<Option<NodeId>>

    /** Slot j's owner is n exactly when bit j of n's bitmap is set, and n's count is the number of its bits. */
    ghost predicate Consistent()
      reads this
    {
      && me in nodes && |slots| == SLOTS && |importing| == SLOTS && |migrating| == SLOTS
      && (forall j :: 0 <= j < SLOTS && slots[j].Some? ==> slots[j].value in nodes)
      && (forall n :: n in nodes ==> Serves(n, nodes[n], slots))
      && RolesOk(nodes)
    }

    ghost function Epochs(): map<NodeId, nat>
      reads this
    {
      map n | n in nodes :: nodes[n].configEpoch
    }

    ghost function View(): SlotView
      reads this
    {
      SlotView(slots, importing, Epochs())
    }

    /** Everything but the assignment of slots is as it was. */
    twostate predicate OnlySlotsChanged()
      reads this
    {
      && importing == old(importing) && migrating == old(migrating)
      && SameButSlots(old(nodes), nodes) && Epochs() == old(Epochs())
    }

    constructor (me: NodeId)
      ensures Consistent() && this.me == me && nodes.Keys == {me}
      ensures forall j :: 0 <= j < SLOTS ==> slots[j] == None
    {
      this.me := me;
      nodes := map[me := FreshSlotNode(true, None)];
      slots := seq(SLOTS, _ => None);
      importing := seq(SLOTS, _ => None);
      migrating := seq(SLOTS, _ => None);
      new;
      FreshServes(me, true, None, slots);
    }

    method AddNode(n: NodeId, master: bool, slaveof: Option<NodeId>)
      requires Consistent() && n !in nodes
      requires slaveof.Some? ==> !master && slaveof.value in nodes
      modifies this
      ensures Consistent() && slots == old(slots) && nodes == old(nodes)[n := FreshSlotNode(master, slaveof)]
    {
      FreshServes(n, master, slaveof, slots);
      hide Serves;
      nodes := nodes[n := FreshSlotNode(master, slaveof)];
    }

    /** `clusterAddSlot` */
    method AddSlot(n: NodeId, slot: nat) returns (ok: bool)
      requires Consistent() && n in nodes && slot < SLOTS
      modifies this
      ensures Consistent() && OnlySlotsChanged()
      ensures ok <==> old(slots)[slot].None?
      ensures slots == if ok then old(slots)[slot := Some(n)] else old(slots)
    {
      hide TestBit, Serves, RolesOk;
      if slots[slot].Some? {
        return false;
      }
      var node := nodes[n];
      ServesBit(n, node, slots, slot);
      var bitmap := SetBit(node.bitmap, slot);
      var node' := node.(bitmap := bitmap, numslots := node.numslots + (if TestBit(node.bitmap, slot) then 0 else 1));
      ServesMore(n, node, node', slots, slot);
      OthersServe(n, slot, Some(n));
      SameRoles(nodes, n, node');
      nodes := nodes[n := node'];
      slots := slots[slot := Some(n)];
      return true;
    }

    lemma OthersServe(n: NodeId, slot: nat, owner: Option<NodeId>)
      requires Consistent() && slot < SLOTS && (slots[slot] == None || slots[slot] == Some(n)) && (owner == None || owner == Some(n))
      ensures forall k :: k in nodes && k != n ==> Serves(k, nodes[k], slots[slot := owner])
    {
      forall k | k in nodes && k != n ensures Serves(k, nodes[k], slots[slot := owner]) {
        ServesStill(k, nodes[k], nodes[k], slots, slot, owner);
      }
    }

    /** `clusterDelSlot`; the assertion is the one in the code. */
    method DelSlot(slot: nat) returns (ok: bool)
      requires Consistent() && slot < SLOTS
      modifies this
      ensures Consistent() && OnlySlotsChanged()
      ensures ok <==> old(slots)[slot].Some?
      ensures slots == old(slots)[slot := None]
      ensures forall k :: k in nodes ==>
        nodes[k].numslots == old(nodes)[k].numslots - (if old(slots)[slot] == Some(k) then 1 else 0)
    {
      hide TestBit, Serves, RolesOk;
      if slots[slot].None? {
        return false;
      }
      var n := slots[slot].value;
      var node := nodes[n];
      ServesBit(n, node, slots, slot);
      ServesCount(n, node, slots);
      var bitmap := ClearBit(node.bitmap, slot);
      var wasSet := TestBit(node.bitmap, slot);
      assert wasSet;
      var node' := node.(bitmap := bitmap, numslots := if wasSet then node.numslots - 1 else node.numslots);
      ServesLess(n, node, node', slots, slot);
      OthersServe(n, slot, None);
      SameRoles(nodes, n, node');
      nodes := nodes[n := node'];
      slots := slots[slot := None];
      return true;
    }

    // ---------- consequences of consistency ----------

    lemma OwnerBit(n: NodeId, j: nat)
      requires Consistent() && n in nodes && j < SLOTS
      ensures |nodes[n].bitmap| == SLOTS / 8 && (TestBit(nodes[n].bitmap, j) <==> slots[j] == Some(n))
    {
      ServesBit(n, nodes[n], slots, j);
    }

    lemma NoSlots(n: NodeId)
      requires Consistent() && n in nodes
      ensures nodes[n].numslots == 0 <==> forall j :: 0 <= j < SLOTS ==> slots[j] != Some(n)
    {
      ServesCount(n, nodes[n], slots);
    }

    // ---------- operations on many slots ----------

    /** `clusterDelNodeSlots` */
    method DelNodeSlots(n: NodeId) returns (deleted: nat)
      requires Consistent() && n in nodes
      modifies this
      ensures Consistent() && OnlySlotsChanged()
      ensures forall j :: 0 <= j < SLOTS ==> slots[j] == if old(slots)[j] == Some(n) then None else old(slots)[j]
      ensures deleted == old(nodes)[n].numslots && nodes[n].numslots == 0
    {
      hide TestBit, Serves, RolesOk;
      deleted := 0;
      for j := 0 to SLOTS
        invariant Consistent() && OnlySlotsChanged()
        invariant forall i :: 0 <= i < SLOTS ==>
          slots[i] == if i < j && old(slots)[i] == Some(n) then None else old(slots)[i]
        invariant deleted + nodes[n].numslots == old(nodes)[n].numslots
      {
        OwnerBit(n, j);
        if TestBit(nodes[n].bitmap, j) {
          var _ := DelSlot(j);
          deleted := deleted + 1;
        }
      }
      NoSlots(n);
    }

    /** `clusterDelNode` */
    method DelNode(n: NodeId)
      requires Consistent() && n in nodes && n != me
      modifies this
      ensures Consistent() && nodes.Keys == old(nodes.Keys) - {n}
      ensures forall k :: k in nodes ==>
        && nodes[k].configEpoch == old(nodes)[k].configEpoch && nodes[k].master == old(nodes)[k].master
        && nodes[k].slaveof == if old(nodes)[k].slaveof == Some(n) then None else old(nodes)[k].slaveof
      ensures forall j :: 0 <= j < SLOTS ==>
        && slots[j] == (if old(slots)[j] == Some(n) then None else old(slots)[j])
        && importing[j] == (if old(importing)[j] == Some(n) then None else old(importing)[j])
        && migrating[j] == (if old(migrating)[j] == Some(n) then None else old(migrating)[j])
    {
      hide TestBit, Serves, RolesOk;
      for j := 0 to SLOTS
        invariant Consistent() && SameButSlots(old(nodes), nodes)
        invariant forall i :: 0 <= i < SLOTS ==>
          && slots[i] == (if i < j then Without(old(slots)[i], n) else old(slots)[i])
          && importing[i] == (if i < j then Without(old(importing)[i], n) else old(importing)[i])
          && migrating[i] == (if i < j then Without(old(migrating)[i], n) else old(migrating)[i])
      {
        ReleaseSlot(j, n);
      }
      ForgetNode(n);
    }

    /** The body of the loop of `clusterDelNode`. */
    method ReleaseSlot(j: nat, n: NodeId)
      requires Consistent() && j < SLOTS
      modifies this
      ensures Consistent() && SameButSlots(old(nodes), nodes)
      ensures slots == old(slots)[j := Without(old(slots)[j], n)]
      ensures importing == old(importing)[j := Without(old(importing)[j], n)]
      ensures migrating == old(migrating)[j := Without(old(migrating)[j], n)]
    {
      hide TestBit, Serves, RolesOk;
      if importing[j] == Some(n) {
        SetImporting(j, None);
      }
      if migrating[j] == Some(n) {
        SetMigrating(j, None);
      }
      if slots[j] == Some(n) {
        var _ := DelSlot(j);
      }
    }

    method SetImporting(slot: nat, from: Option<NodeId>)
      requires Consistent() && slot < SLOTS
      modifies this`importing
      ensures Consistent() && importing == old(importing)[slot := from]
    {
      importing := importing[slot := from];
    }

    method SetMigrating(slot: nat, to: Option<NodeId>)
      requires Consistent() && slot < SLOTS
      modifies this`migrating
      ensures Consistent() && migrating == old(migrating)[slot := to]
    {
      migrating := migrating[slot := to];
    }

    /** `clusterCloseAllSlots` */
    method CloseAllSlots()
      requires Consistent()
      modifies this`importing, this`migrating
      ensures Consistent() && forall j :: 0 <= j < SLOTS ==> importing[j] == migrating[j] == None
    {
      importing := seq(SLOTS, _ => None);
      migrating := seq(SLOTS, _ => None);
    }

    /** Take n out of the table; the master of its slaves is no longer known. */
    method ForgetNode(n: NodeId)
      requires Consistent() && n in nodes && n != me && forall j :: 0 <= j < SLOTS ==> slots[j] != Some(n)
      modifies this`nodes
      ensures Consistent() && nodes == Orphaned(old(nodes), n)
    {
      hide Serves, TestBit;
      forall k | k in nodes && k != n ensures Serves(k, Orphaned(nodes, n)[k], slots) {
        ServesSame(k, nodes[k], Orphaned(nodes, n)[k], slots);
      }
      nodes := Orphaned(nodes, n);
    }

    /** `clusterSetNodeAsMaster` */
    method SetNodeAsMaster(n: NodeId)
      requires Consistent() && n in nodes
      modifies this`nodes
      ensures Consistent() && nodes == old(nodes)[n := old(nodes)[n].(master := true, slaveof := None)]
      ensures Epochs() == old(Epochs())
    {
      hide Serves;
      if nodes[n].master {
        assert nodes[n].slaveof == None;
        return;
      }
      ServesSame(n, nodes[n], nodes[n].(master := true, slaveof := None), slots);
      nodes := nodes[n := nodes[n].(master := true, slaveof := None)];
    }

    /** `clusterReset`: turn into a master, release all slots and forget all other nodes. */
    method Reset()
      requires Consistent()
      modifies this
      ensures Consistent() && nodes.Keys == {me}
      ensures nodes[me].master && nodes[me].slaveof == None && nodes[me].configEpoch == old(nodes)[me].configEpoch
      ensures forall j :: 0 <= j < SLOTS ==> slots[j] == importing[j] == migrating[j] == None
    {
      hide TestBit, Serves;
      if !nodes[me].master {
        SetNodeAsMaster(me);
      }
      assert nodes[me].slaveof == None;
      hide RolesOk;
      CloseAllSlots();
      for j := 0 to SLOTS
        invariant Consistent() && forall i :: 0 <= i < SLOTS ==> importing[i] == migrating[i] == None
        invariant nodes[me].master && nodes[me].slaveof == None && nodes[me].configEpoch == old(nodes)[me].configEpoch
        invariant forall i :: 0 <= i < j ==> slots[i] == None
      {
        var _ := DelSlot(j);
      }
      while nodes.Keys != {me}
        invariant Consistent()
        invariant nodes[me].master && nodes[me].slaveof == None && nodes[me].configEpoch == old(nodes)[me].configEpoch
        invariant forall i :: 0 <= i < SLOTS ==> slots[i] == importing[i] == migrating[i] == None
        decreases nodes.Keys
      {
        assert nodes.Keys - {me} != {};
        var n :| n in nodes.Keys - {me};
        DelNode(n);
      }
    }

    /** `clusterFailoverReplaceYourMaster`: a slave becomes a master and takes over its master's slots. */
    method ReplaceMaster()
      requires Consistent()
      modifies this
      ensures Consistent() && Epochs() == old(Epochs())
      ensures old(nodes[me].master || nodes[me].slaveof.None?) ==> unchanged(this)
      ensures old(!nodes[me].master && nodes[me].slaveof.Some?) ==>
        && nodes[me].master && nodes[me].slaveof == None
        && forall j :: 0 <= j < SLOTS ==> slots[j] == if old(slots)[j] == old(nodes[me].slaveof) then Some(me) else old(slots)[j]
    {
      if nodes[me].master || nodes[me].slaveof.None? {
        return;
      }
      var oldmaster := nodes[me].slaveof.value;
      SetNodeAsMaster(me);
      TakeOver(oldmaster);
    }

    /** The loop of `clusterFailoverReplaceYourMaster`. */
    method TakeOver(oldmaster: NodeId)
      requires Consistent() && oldmaster in nodes
      modifies this
      ensures Consistent() && OnlySlotsChanged()
      ensures forall j :: 0 <= j < SLOTS ==> slots[j] == if old(slots)[j] == Some(oldmaster) then Some(me) else old(slots)[j]
      ensures oldmaster != me ==> nodes[oldmaster].numslots == 0
    {
      hide TestBit, Serves, RolesOk;
      for j := 0 to SLOTS
        invariant Consistent() && OnlySlotsChanged()
        invariant forall i :: 0 <= i < SLOTS ==>
          slots[i] == if i < j && old(slots)[i] == Some(oldmaster) then Some(me) else old(slots)[i]
      {
        OwnerBit(oldmaster, j);
        if TestBit(nodes[oldmaster].bitmap, j) {
          var _ := DelSlot(j);
          var _ := AddSlot(me, j);
        }
      }
      NoSlots(oldmaster);
    }

    /** The body of the loop of `clusterUpdateSlotsConfigWith`. */
    method ClaimSlot(j: nat, sender: NodeId, epoch: nat, claimed: bool) returns (rebound: bool)
      requires Consistent() && sender in nodes && j < SLOTS
      modifies this
      ensures Consistent() && OnlySlotsChanged()
      ensures rebound <==> Rebinds(old(slots)[j], importing[j], old(Epochs()), sender, epoch, claimed)
      ensures slots == if rebound then old(slots)[j := Some(sender)] else old(slots)
    {
      hide Serves, RolesOk;
      if claimed {
        if slots[j] == Some(sender) {
          return false;
        }
        if importing[j].Some? {
          return false;
        }
        if slots[j].None? || nodes[slots[j].value].configEpoch < epoch {
          var _ := DelSlot(j);
          var _ := AddSlot(sender, j);
          return true;
        }
      }
      return false;
    }

    /** The node whose slots this node serves or replicates. */
    function CurMaster(): Option<NodeId>
      reads this
      requires me in nodes
    {
      if nodes[me].master then Some(me) else nodes[me].slaveof
    }

    /**
     `clusterUpdateSlotsConfigWith`: rebind the claimed slots whose owner has an older configuration,
     and say what this node must do about slots it loses.
     */
    method UpdateSlotsConfigWith(sender: NodeId, epoch: nat, claimed: Bitmap, keys: seq<nat>) returns (outcome: Outcome)
      requires Consistent() && sender in nodes && |claimed| == SLOTS / 8 && |keys| == SLOTS
      modifies this
      ensures Consistent() && OnlySlotsChanged()
      ensures sender == me ==> slots == old(slots) && outcome == Unaffected
      ensures sender != me ==> slots == Rebound(old(slots), importing, old(Epochs()), sender, epoch, claimed)
      ensures sender != me ==> forall j :: 0 <= j < SLOTS ==>
        slots[j] == if TestBit(claimed, j) && importing[j].None? &&
                       (old(slots)[j].None? || old(nodes)[old(slots)[j].value].configEpoch < epoch)
                    then Some(sender) else old(slots)[j]
      ensures Judged(outcome, old(slots), slots, old(if nodes[me].master then Some(me) else nodes[me].slaveof), me, keys)
      ensures outcome == BecomeReplica <==>
        && old(nodes[me].master || nodes[me].slaveof.Some?)
        && (exists j :: 0 <= j < SLOTS && old(slots)[j] == old(if nodes[me].master then Some(me) else nodes[me].slaveof)
                        && slots[j] != old(slots)[j])
        && (forall j :: 0 <= j < SLOTS ==> slots[j] != old(if nodes[me].master then Some(me) else nodes[me].slaveof))
      ensures outcome.DropKeys? ==> outcome.dirty != [] && forall j :: j in outcome.dirty <==>
        0 <= j < SLOTS && old(slots)[j] == Some(me) && slots[j] != Some(me) && keys[j] > 0
      ensures outcome == Unaffected ==>
        forall j :: 0 <= j < SLOTS && old(slots)[j] == Some(me) && slots[j] != Some(me) ==> keys[j] == 0
      ensures outcome == Crashed <==>
        && sender != me && old(!nodes[me].master && nodes[me].slaveof.None?)
        && exists j :: 0 <= j < SLOTS && old(slots)[j] == None && importing[j] == None && TestBit(claimed, j)
    {
      assert CurMaster().Some? ==> CurMaster().value in nodes;
      ReboundAt(slots, importing, nodes, sender, epoch, claimed);
      hide TestBit, Serves, Epochs, RolesOk, Judged, Rebound;
      var curmaster := CurMaster();
      if sender == me {
        NothingLost(slots, curmaster, me, keys);
        JudgedMeans(Unaffected, slots, slots, curmaster, me, keys);
        return Unaffected;
      }
      outcome := Settle(sender, epoch, claimed, keys, curmaster);
      JudgedMeans(outcome, old(slots), slots, curmaster, me, keys);
      CrashedBy(old(slots), importing, old(Epochs()), sender, epoch, claimed);
    }

    /** The loop of `clusterUpdateSlotsConfigWith` and what follows from it. */
    method Settle(sender: NodeId, epoch: nat, claimed: Bitmap, keys: seq<nat>, curmaster: Option<NodeId>) returns (outcome: Outcome)
      requires Consistent() && sender in nodes && |claimed| == SLOTS / 8 && |keys| == SLOTS
      requires curmaster.Some? ==> curmaster.value in nodes
      modifies this
      ensures Consistent() && OnlySlotsChanged()
      ensures slots == Rebound(old(slots), importing, old(Epochs()), sender, epoch, claimed)
      ensures Judged(outcome, old(slots), slots, curmaster, me, keys)
    {
      hide TestBit, Serves, Epochs, RolesOk, Judged, Rebound;
      var newmaster, dirty := ClaimSlots(sender, epoch, claimed, keys, curmaster);
      ghost var left := 0;
      if curmaster.Some? {
        NoSlots(curmaster.value);
        left := nodes[curmaster.value].numslots;
      }
      JudgedBy(old(slots), slots, curmaster, me, keys, newmaster, dirty, left);
      if newmaster && curmaster.None? {
        return Crashed;
      }
      if newmaster && nodes[curmaster.value].numslots == 0 {
        return BecomeReplica;
      } else if |dirty| > 0 {
        return DropKeys(dirty);
      }
      return Unaffected;
    }

    /** The loop of `clusterUpdateSlotsConfigWith`: does curmaster lose a slot, and which slots of this node with keys are lost? */
    method ClaimSlots(sender: NodeId, epoch: nat, claimed: Bitmap, keys: seq<nat>, curmaster: Option<NodeId>)
      returns (newmaster: bool, dirty: seq<nat>)
      requires Consistent() && sender in nodes && |claimed| == SLOTS / 8 && |keys| == SLOTS
      modifies this
      ensures Consistent() && OnlySlotsChanged()
      ensures slots == Rebound(old(slots), importing, old(Epochs()), sender, epoch, claimed)
      ensures newmaster <==> exists i :: 0 <= i < SLOTS && old(slots)[i] == curmaster && slots[i] != old(slots)[i]
      ensures Ascending(dirty) && forall i :: i in dirty <==> 0 <= i < SLOTS && LostWithKeys(old(slots)[i], slots[i], me, keys[i])
    {
      hide TestBit, Serves, Epochs, RolesOk, Rebinds;
      ghost var epochs := Epochs();
      newmaster, dirty := false, [];
      for j := 0 to SLOTS
        invariant Consistent() && OnlySlotsChanged()
        invariant forall i :: 0 <= i < SLOTS ==>
          slots[i] == if i < j && Rebinds(old(slots)[i], importing[i], epochs, sender, epoch, TestBit(claimed, i))
                      then Some(sender) else old(slots)[i]
        invariant newmaster <==> exists i :: (
          0 <= i < j && old(slots)[i] == curmaster &&
          Rebinds(old(slots)[i], importing[i], epochs, sender, epoch, TestBit(claimed, i)))
        invariant Ascending(dirty) && forall i :: i in dirty <==> (
          0 <= i < j && old(slots)[i] == Some(me) && keys[i] > 0 &&
          Rebinds(old(slots)[i], importing[i], epochs, sender, epoch, TestBit(claimed, i)))
      {
        var owner := slots[j];
        var rebound := ClaimSlot(j, sender, epoch, TestBit(claimed, j));
        if rebound {
          if owner == Some(me) && keys[j] > 0 {
            AscendingSnoc(dirty, j);
            dirty := dirty + [j];
          }
          if owner == curmaster {
            newmaster := true;
          }
        }
      }
      RebindsChanges(old(slots), importing, epochs, sender, epoch, claimed);
    }

    /** The header of any packet of n announces its configEpoch. */
    method RaiseEpoch(n: NodeId, epoch: nat)
      requires Consistent() && n in nodes
      modifies this`nodes
      ensures Consistent() && View() == HearEpoch(old(View()), n, epoch)
      ensures nodes == old(nodes)[n := old(nodes)[n].(configEpoch := Max(old(nodes)[n].configEpoch, epoch))]
    {
      hide Serves;
      if epoch > nodes[n].configEpoch {
        ServesSame(n, nodes[n], nodes[n].(configEpoch := epoch), slots);
        nodes := nodes[n := nodes[n].(configEpoch := epoch)];
      } else {
        assert Epochs()[n := Epochs()[n]] == Epochs();
      }
    }

    /** A claim equal to the bitmap stored for the sender rebinds nothing. */
    lemma KnownClaim(sender: NodeId, epoch: nat, claimed: Bitmap)
      requires Consistent() && sender in nodes && claimed == nodes[sender].bitmap
      ensures |claimed| == SLOTS / 8 && Rebound(slots, importing, Epochs(), sender, epoch, claimed) == slots
      ensures forall j :: 0 <= j < SLOTS ==> (TestBit(claimed, j) <==> slots[j] == Some(sender))
    {
      hide TestBit;
      assert Serves(sender, nodes[sender], slots);
    }

    /**
     The configuration part of a PING or PONG of a master.  The code compares the claim with the stored
     bitmap first and skips the scan if they are equal; that never changes the result.
     */
    method ReceivePing(sender: NodeId, epoch: nat, claimed: Bitmap, keys: seq<nat>) returns (outcome: Outcome)
      requires Consistent() && sender in nodes && sender != me
      requires |claimed| == SLOTS / 8 && |keys| == SLOTS
      modifies this
      ensures Consistent() && View() == Hear(old(View()), Claim(epoch, claimed), Ping(sender))
      ensures forall j :: 0 <= j < SLOTS ==>
        slots[j] == if TestBit(claimed, j) && importing[j].None? &&
                       (old(slots)[j].None? || old(nodes)[old(slots)[j].value].configEpoch < epoch)
                    then Some(sender) else old(slots)[j]
      ensures RolesAfter(sender)
      ensures Judged(outcome, old(slots), slots, if nodes[me].master then Some(me) else nodes[me].slaveof, me, keys)
    {
      hide Serves, Epochs, Rebound, TestBit, RolesOk, Judged;
      RaiseEpoch(sender, epoch);
      SetNodeAsMaster(sender);
      if nodes[sender].bitmap != claimed {
        outcome := UpdateSlotsConfigWith(sender, epoch, claimed, keys);
      } else {
        KnownClaim(sender, epoch, claimed);
        NothingLost(slots, CurMaster(), me, keys);
        outcome := Unaffected;
      }
    }

    /** The UPDATE packet about n: ignored unless it is newer than what is known. */
    method ReceiveUpdate(n: NodeId, epoch: nat, claimed: Bitmap, keys: seq<nat>) returns (outcome: Outcome)
      requires Consistent() && n in nodes
      requires |claimed| == SLOTS / 8 && |keys| == SLOTS
      modifies this
      ensures Consistent()
      ensures View() == if n == me then HearEpoch(old(View()), me, epoch) else Hear(old(View()), Claim(epoch, claimed), Update(n))
      ensures old(nodes)[n].configEpoch >= epoch ==> unchanged(this)
      ensures old(nodes)[n].configEpoch < epoch ==> RolesAfter(n)
      ensures old(nodes)[n].configEpoch < epoch && n != me ==> forall j :: 0 <= j < SLOTS ==>
        slots[j] == if TestBit(claimed, j) && importing[j].None? &&
                       (old(slots)[j].None? || old(nodes)[old(slots)[j].value].configEpoch < epoch)
                    then Some(n) else old(slots)[j]
      ensures Judged(outcome, old(slots), slots, if nodes[me].master then Some(me) else nodes[me].slaveof, me, keys)
    {
      hide Serves, Epochs, Rebound, TestBit, RolesOk, Judged;
      if nodes[n].configEpoch >= epoch {
        EpochsAt(n);
        NothingLost(slots, CurMaster(), me, keys);
        return Unaffected;
      }
      EpochsAt(n);
      SetNodeAsMaster(n);
      RaiseEpoch(n, epoch);
      outcome := UpdateSlotsConfigWith(n, epoch, claimed, keys);
    }

    lemma EpochsAt(n: NodeId)
      requires n in nodes
      ensures n in Epochs() && Epochs()[n] == nodes[n].configEpoch
    {
    }

    /** The node is a master now, and no other role has changed. */
    twostate predicate RolesAfter(n: NodeId)
      reads this
    {
      && nodes.Keys == old(nodes.Keys) && n in nodes && nodes[n].master && nodes[n].slaveof == None
      && forall k :: k in nodes && k != n ==>
        nodes[k].master == old(nodes)[k].master && nodes[k].slaveof == old(nodes)[k].slaveof
    }
  }

  /** What a node does about slots it lost: replicate the new owner, delete the keys of some slots, or nothing; or it crashes. */
  datatype Outcome = BecomeReplica | DropKeys(dirty: seq<nat>) | Unaffected | Crashed

  predicate Ascending(s: seq<nat>) {
    forall a, b :: 0 <= a < b < |s| ==> s[a] < s[b]
  }

  /** A slot that is rebound has a new owner. */
  lemma RebindsChanges(before: seq<Option<NodeId>>, importing: seq<Option<NodeId>>, epochs: map<NodeId, nat>,
                       sender: NodeId, epoch: nat, claimed: Bitmap)
    requires |before| == |importing| == SLOTS && |claimed| == SLOTS / 8
    ensures var after := Rebound(before, importing, epochs, sender, epoch, claimed);
      forall i :: 0 <= i < SLOTS ==>
        (after[i] != before[i] <==> Rebinds(before[i], importing[i], epochs, sender, epoch, TestBit(claimed, i)))
  {
    hide TestBit;
  }

  lemma AscendingSnoc(s: seq<nat>, x: nat)
    requires Ascending(s) && forall i :: i in s ==> i < x
    ensures Ascending(s + [x])
  {
    assert forall a :: 0 <= a < |s| ==> s[a] in s;
  }

  predicate LostWithKeys(before: Option<NodeId>, after: Option<NodeId>, me: NodeId, keys: nat) {
    before == Some(me) && after != Some(me) && keys > 0
  }

  /**
   The outcome for a node that serves or replicates the slots of `master`, when a claim turns the
   table `before` into `after` and slot j holds keys[j] keys.  A slave that does not know its master takes
   a slot without an owner for one of its master's, and crashes when it counts its master's slots.
   */
  ghost predicate Judged(outcome: Outcome, before: seq<Option<NodeId>>, after: seq<Option<NodeId>>,
                         master: Option<NodeId>, me: NodeId, keys: seq<nat>)
    requires |before| == |after| == |keys| == SLOTS
  {
    && (outcome == Crashed <==> master.None? && exists j :: 0 <= j < SLOTS && before[j] == None && after[j] != None)
    && (outcome == BecomeReplica <==>
      && master.Some?
      && (exists j :: 0 <= j < SLOTS && before[j] == master && after[j] != before[j])
      && (forall j :: 0 <= j < SLOTS ==> after[j] != master))
    && (outcome.DropKeys? ==>
      && outcome.dirty != [] && Ascending(outcome.dirty)
      && forall j :: j in outcome.dirty <==> 0 <= j < SLOTS && LostWithKeys(before[j], after[j], me, keys[j]))
    && (outcome == Unaffected ==> forall j :: 0 <= j < SLOTS ==> !LostWithKeys(before[j], after[j], me, keys[j]))
  }

  /** A slot is claimed that has no owner and is not being imported. */
  ghost predicate ClaimsFree(slots: seq<Option<NodeId>>, importing: seq<Option<NodeId>>, claimed: Bitmap)
    requires |slots| == |importing| == SLOTS && |claimed| == SLOTS / 8
  {
    exists j :: 0 <= j < SLOTS && slots[j] == None && importing[j] == None && TestBit(claimed, j)
  }

  lemma CrashedBy(before: seq<Option<NodeId>>, importing: seq<Option<NodeId>>, epochs: map<NodeId, nat>,
                  sender: NodeId, epoch: nat, claimed: Bitmap)
    requires |before| == |importing| == SLOTS && |claimed| == SLOTS / 8
    ensures var after := Rebound(before, importing, epochs, sender, epoch, claimed);
      (exists i :: 0 <= i < SLOTS && before[i] == None && after[i] != before[i]) <==> ClaimsFree(before, importing, claimed)
  {
    hide TestBit;
    RebindsChanges(before, importing, epochs, sender, epoch, claimed);
    if ClaimsFree(before, importing, claimed) {
      var j :| 0 <= j < SLOTS && before[j] == None && importing[j] == None && TestBit(claimed, j);
      assert Rebound(before, importing, epochs, sender, epoch, claimed)[j] == Some(sender);
    }
  }

  lemma JudgedMeans(outcome: Outcome, before: seq<Option<NodeId>>, after: seq<Option<NodeId>>,
                    master: Option<NodeId>, me: NodeId, keys: seq<nat>)
    requires |before| == |after| == |keys| == SLOTS && Judged(outcome, before, after, master, me, keys)
    ensures outcome == BecomeReplica <==>
      && master.Some? && (exists j :: 0 <= j < SLOTS && before[j] == master && after[j] != before[j])
      && (forall j :: 0 <= j < SLOTS ==> after[j] != master)
    ensures outcome.DropKeys? ==> outcome.dirty != [] && forall j :: j in outcome.dirty <==>
      0 <= j < SLOTS && before[j] == Some(me) && after[j] != Some(me) && keys[j] > 0
    ensures outcome == Unaffected ==> forall j :: 0 <= j < SLOTS && before[j] == Some(me) && after[j] != Some(me) ==> keys[j] == 0
    ensures outcome == Crashed <==> master.None? && exists j :: 0 <= j < SLOTS && before[j] == None && after[j] != None
  {
    if outcome == Unaffected {
      forall j | 0 <= j < SLOTS && before[j] == Some(me) && after[j] != Some(me) ensures keys[j] == 0 {
        assert !LostWithKeys(before[j], after[j], me, keys[j]);
      }
    }
  }

  lemma NothingLost(slots: seq<Option<NodeId>>, master: Option<NodeId>, me: NodeId, keys: seq<nat>)
    requires |slots| == |keys| == SLOTS
    ensures Judged(Unaffected, slots, slots, master, me, keys)
  {
  }

  lemma JudgedBy(before: seq<Option<NodeId>>, after: seq<Option<NodeId>>, master: Option<NodeId>, me: NodeId, keys: seq<nat>,
                 newmaster: bool, dirty: seq<nat>, left: nat)
    requires |before| == |after| == |keys| == SLOTS
    requires newmaster <==> exists i :: 0 <= i < SLOTS && before[i] == master && after[i] != before[i]
    requires Ascending(dirty) && forall i :: i in dirty <==> 0 <= i < SLOTS && LostWithKeys(before[i], after[i], me, keys[i])
    requires master.Some? ==> (left == 0 <==> forall j :: 0 <= j < SLOTS ==> after[j] != master)
    ensures Judged(if newmaster && master.None? then Crashed
                   else if newmaster && left == 0 then BecomeReplica
                   else if |dirty| > 0 then DropKeys(dirty)
                   else Unaffected,
                   before, after, master, me, keys)
  {
    hide Ascending, LostWithKeys;
  }

  /** The same nodes with the same epochs and roles. */
  ghost predicate SameButSlots(nodes: map<NodeId, SlotNode>, nodes': map<NodeId, SlotNode>) {
    && nodes'.Keys == nodes.Keys
    && forall n :: n in nodes ==>
      && nodes'[n].configEpoch == nodes[n].configEpoch
      && nodes'[n].master == nodes[n].master && nodes'[n].slaveof == nodes[n].slaveof
  }

  /** The nodes without n, whose slaves no longer know their master. */
  function Orphaned(nodes: map<NodeId, SlotNode>, n: NodeId): map<NodeId, SlotNode> {
    map k | k in nodes && k != n :: if nodes[k].slaveof == Some(n) then nodes[k].(slaveof := None) else nodes[k]
  }

  // ---------- what a node believes ----------

  /** The slots a master claims under its configEpoch. */
  datatype Claim = Claim(epoch: nat, slots: Bitmap)

  /** Slot owners, slots being imported and the configEpoch of every node. */
  datatype SlotView = SlotView(slots: seq<Option<NodeId>>, importing: seq<Option<NodeId>>, epochs: map<NodeId, nat>)

  /** How a node hears of n: the header of some packet of n, n's own PING or PONG, or an UPDATE about n. */
  datatype Hearing = Header(n: NodeId) | Ping(n: NodeId) | Update(n: NodeId)

  function HearEpoch(v: SlotView, n: NodeId, epoch: nat): SlotView
    requires n in v.epochs
  {
    v.(epochs := v.epochs[n := Max(v.epochs[n], epoch)])
  }

  function HearClaim(v: SlotView, n: NodeId, claim: Claim): SlotView
    requires |v.slots| == |v.importing| == SLOTS && n in v.epochs && |claim.slots| == SLOTS / 8
  {
    var v' := HearEpoch(v, n, claim.epoch);
    v'.(slots := Rebound(v.slots, v.importing, v'.epochs, n, claim.epoch, claim.slots))
  }

  /** Only an UPDATE with a newer epoch than the stored one is processed. */
  function Hear(v: SlotView, claim: Claim, h: Hearing): SlotView
    requires |v.slots| == |v.importing| == SLOTS && h.n in v.epochs && |claim.slots| == SLOTS / 8
  {
    match h
    case Header(n) => HearEpoch(v, n, claim.epoch)
    case Ping(n) => HearClaim(v, n, claim)
    case Update(n) => if v.epochs[n] >= claim.epoch then v else HearClaim(v, n, claim)
  }

  function Without(owner: Option<NodeId>, n: NodeId): Option<NodeId> {
    if owner == Some(n) then None else owner
  }

  /** A slot goes to the node claiming it if it has no owner or one with an older configEpoch. */
  predicate Rebinds(owner: Option<NodeId>, importing: Option<NodeId>, epochs: map<NodeId, nat>,
                    sender: NodeId, epoch: nat, claimed: bool)
  {
    && claimed && owner != Some(sender) && importing.None?
    && (owner.None? || (owner.value in epochs && epochs[owner.value] < epoch))
  }

  function Rebound(slots: seq<Option<NodeId>>, importing: seq<Option<NodeId>>, epochs: map<NodeId, nat>,
                   sender: NodeId, epoch: nat, claimed: Bitmap): seq<Option<NodeId>>
    requires |slots| == |importing| == SLOTS && |claimed| == SLOTS / 8
  {
    seq(SLOTS, i requires 0 <= i < SLOTS =>
      if Rebinds(slots[i], importing[i], epochs, sender, epoch, TestBit(claimed, i)) then Some(sender) else slots[i])
  }

  lemma ServesSame(n: NodeId, node: SlotNode, node': SlotNode, slots: seq<Option<NodeId>>)
    requires Serves(n, node, slots) && node'.bitmap == node.bitmap && node'.numslots == node.numslots
    ensures Serves(n, node', slots)
  {
    hide TestBit, Population;
  }

  lemma SameRoles(nodes: map<NodeId, SlotNode>, n: NodeId, node: SlotNode)
    requires RolesOk(nodes) && n in nodes && node.master == nodes[n].master && node.slaveof == nodes[n].slaveof
    ensures RolesOk(nodes[n := node])
  {
  }

  /** What rebinding does to a single slot. */
  lemma ReboundAt(slots: seq<Option<NodeId>>, importing: seq<Option<NodeId>>, nodes: map<NodeId, SlotNode>,
                  sender: NodeId, epoch: nat, claimed: Bitmap)
    requires |slots| == |importing| == SLOTS && |claimed| == SLOTS / 8
    requires forall j :: 0 <= j < SLOTS && slots[j].Some? ==> slots[j].value in nodes
    ensures var epochs := map n | n in nodes :: nodes[n].configEpoch;
      var after := Rebound(slots, importing, epochs, sender, epoch, claimed);
      forall j :: 0 <= j < SLOTS ==>
        after[j] == if TestBit(claimed, j) && importing[j].None? && (slots[j].None? || nodes[slots[j].value].configEpoch < epoch)
                    then Some(sender) else slots[j]
  {
    hide TestBit;
  }

  lemma FreshServes(n: NodeId, master: bool, slaveof: Option<NodeId>, slots: seq<Option<NodeId>>)
    requires |slots| == SLOTS && forall j :: 0 <= j < SLOTS ==> slots[j] != Some(n)
    ensures Serves(n, FreshSlotNode(master, slaveof), slots)
  {
    hide TestBit, Population;
    FreshNodeEmpty(master, slaveof);
  }

  lemma FreshNodeEmpty(master: bool, slaveof: Option<NodeId>)
    ensures var b := FreshSlotNode(master, slaveof).bitmap;
      (forall p :: 0 <= p < SLOTS ==> !TestBit(b, p)) && Population(b, SLOTS) == 0
  {
    var b := FreshSlotNode(master, slaveof).bitmap;
    forall p | 0 <= p < SLOTS
      ensures !TestBit(b, p)
    {
      ZeroByte(UnitMask(p % 8));
      assert b[p / 8] == 0;
    }
    PopulationZero(b, SLOTS);
  }

  lemma ZeroByte(m: bv8)
    ensures 0 & m == 0
  {
  }
}
