/**
 What a network header commits (chain/tiers.py, `RootWorkload`, `SoloWorkload`): which ledger, which seats and which
 children, said of the ledger and the world themselves.
 */
module HeaderCommitments {
  import opened Basics
  import opened SealAccumulator
  import opened SealTheorems
  import opened Locality
  import opened Register
  import opened GridWorld
  import opened Growth
  import opened Ledger
  import opened GridWorkload
  import opened TierBlocks
  import S = Seats

  // ---- the ledger ----

  /** The committed leaves are, slot by slot, the domain leaf and the ledger's notes, spent ones buried, and its
      nullifiers; the witness tree holds the same leaves at their places. */
  ghost predicate Commits(roots: Roots, t: Ledger) {
    && roots.utxoCount == |t.utxo.items| && |roots.utxo| == roots.utxoCount + 1 && roots.utxo[0] == DomainLeaf("utxo")
    && (forall i | 0 <= i < |t.utxo.items| ::
          roots.utxo[i + 1] == LeafOf("utxo", if i in t.utxo.dead then Buried(t.utxo.items[i]) else t.utxo.items[i]))
    && roots.nfCount == |t.nullifiers.items| && |roots.nf| == roots.nfCount + 1 && roots.nf[0] == DomainLeaf("nf")
    && (forall i | 0 <= i < |t.nullifiers.items| :: roots.nf[i + 1] == LeafOf("nf", t.nullifiers.items[i]))
    && (forall p: nat :: p in roots.witnessed <==> p < |roots.utxo|)
    && (forall p: nat | p < |roots.utxo| :: roots.witnessed[p] == roots.utxo[p])
  }

  lemma RootsCommit(t: Ledger)
    requires t.Valid()
    ensures Commits(RootsOf(t), t)
  {
    PositionedAt(0, t.utxo.Leaves("utxo"));
    forall i | 0 <= i < |t.nullifiers.items|
      ensures t.nullifiers.Leaves("nf")[i + 1] == LeafOf("nf", t.nullifiers.items[i]) {
      assert t.nullifiers.SlotLeaf("nf", i) == LeafOf("nf", t.nullifiers.items[i]);
    }
    forall i | 0 <= i < |t.utxo.items|
      ensures t.utxo.Leaves("utxo")[i + 1] ==
              LeafOf("utxo", if i in t.utxo.dead then Buried(t.utxo.items[i]) else t.utxo.items[i]) {
      assert t.utxo.Leaves("utxo")[i + 1] == t.utxo.SlotLeaf("utxo", i);
    }
  }

  /** Committed roots are of one ledger: the notes in their order, which of them are spent, and the nullifiers, but not
      the fees burned. */
  lemma RootsPinTheLedger(a: Ledger, b: Ledger)
    requires a.Valid() && b.Valid() && forall v :: v in a.utxo.items || v in b.utxo.items ==> !Reserved(v)
    ensures RootsOf(a) == RootsOf(b) <==> a.utxo == b.utxo && a.nullifiers == b.nullifiers
  {
    if RootsOf(a) == RootsOf(b) {
      RootsCommit(a);
      RootsCommit(b);
      LeavesPinTheNotes(RootsOf(a), a, b);
      LeavesPinTheNullifiers(RootsOf(a), a, b);
    }
  }

  lemma LeavesPinTheNotes(roots: Roots, a: Ledger, b: Ledger)
    requires Commits(roots, a) && Commits(roots, b) && a.Valid() && b.Valid()
    requires forall v :: v in a.utxo.items || v in b.utxo.items ==> !Reserved(v)
    ensures a.utxo == b.utxo
  {
    forall i: nat | i < |a.utxo.items|
      ensures a.utxo.items[i] == b.utxo.items[i] && (i in a.utxo.dead <==> i in b.utxo.dead) {
      assert a.utxo.items[i] in a.utxo.items && b.utxo.items[i] in b.utxo.items;
      SameLeafSameSlot("utxo", a.utxo, b.utxo, i);
    }
    assert a.utxo.items == b.utxo.items && a.utxo.dead == b.utxo.dead;
  }

  lemma LeavesPinTheNullifiers(roots: Roots, a: Ledger, b: Ledger)
    requires Commits(roots, a) && Commits(roots, b) && a.Valid() && b.Valid()
    ensures a.nullifiers == b.nullifiers
  {
    forall i: nat | i < |a.nullifiers.items| ensures a.nullifiers.items[i] == b.nullifiers.items[i] {
      var x, y := a.nullifiers.items[i], b.nullifiers.items[i];
      LeafTextInjective("nf", x, y);
    }
    assert a.nullifiers.items == b.nullifiers.items;
  }

  /** What the top tier accepts commits the ledger its epoch leaves. */
  lemma RootHeaderCommits(d: Desk, s: Ledger, spine: seq<string>, founding: Option<Founding>, merge: Option<Merge>,
                          work: RootWork, certHolds: GroupBlock -> bool, mine: Option<int>, b: NetworkBlock)
    requires s.Valid() && RootAccepts(d, s, spine, founding, merge, work, certHolds, mine, b)
    ensures Applied(s, ChildrenOf(b.groups)).Some? && Commits(b.header.roots, Applied(s, ChildrenOf(b.groups)).value)
    ensures b.header.height == d.height + 1 && b.header.prevHash == d.tip && b.header.spine == spine
    ensures b.header.epoch == work.epoch && b.header.tiers == work.tiers && b.header.leader == work.leader
            && (work.quorum != 0 ==> b.header.quorum == work.quorum)
            && b.header.founding == b.founding == founding && b.header.merge == b.merge == merge
  {
    hide Commits, RootsOf, ChildrenOf;
    AppliedIsValid(s, ChildrenOf(b.groups));
    RootsCommit(Applied(s, ChildrenOf(b.groups)).value);
  }

  lemma SoloHeaderCommits(d: Desk, s: Ledger, spine: seq<string>, rules: Rules, founding: Option<Founding>,
                          merge: Option<Merge>, g: GridId, epoch: int, b: NetworkBlock)
    requires s.Valid() && d.Covers(g) && SoloAccepts(d, s, spine, rules, founding, merge, g, epoch, b)
    ensures Applied(s, b.groups[0].children).Some? && Commits(b.header.roots, Applied(s, b.groups[0].children).value)
    ensures b.header.height == d.height + 1 && b.header.prevHash == d.tip && b.header.spine == spine
    ensures b.header.tiers == 1 && |b.groups| == 1 && |b.groups[0].children| == 1 && b.groups[0].dropped == []
    ensures var group, child := b.groups[0].header, b.groups[0].children[0].header;
            && b.header.groups == [group] && group.children == [child] && group.dropped == []
            && group.groupId == child.gridId == g && group.epoch == b.header.epoch == epoch && group.prevHash == d.tip
            && group.leader == b.header.leader == child.leader && b.header.quorum == child.quorum
            && b.header.founding == b.founding == founding && b.header.merge == b.merge == merge
  {
    hide Commits, RootsOf, ChildrenOf;
    var child := b.groups[0].children[0];
    assert b.groups[0].children == [child];
    AppliedIsValid(s, [child]);
    RootsCommit(Applied(s, [child]).value);
  }

  lemma AppliedIsValid(s: Ledger, children: seq<GridBlock>)
    requires s.Valid() && Applied(s, children).Some?
    ensures Applied(s, children).value.Valid()
  {
    ApplyKeepsValid(s, MergedOf(children));
  }

  // ---- the tiers below ----

  /** The children of several groups come group by group, each group's in its own order. */
  lemma {:induction false} ChildrenInOrder(a: seq<GroupBlock>, b: seq<GroupBlock>)
    ensures ChildrenOf(a + b) == ChildrenOf(a) + ChildrenOf(b)
    ensures |b| == 1 ==> ChildrenOf(b) == b[0].children
  {
    if b == [] {
      assert a + b == a;
    } else {
      var front := b[..|b| - 1];
      ChildrenInOrder(a, front);
      assert (a + b)[..|a + b| - 1] == a + front;
    }
  }

  /** A grid's committed seats are the nodes the topology lists there that its register has not suspended. */
  ghost predicate SeatsSay(seats: map<GridId, set<NodeId>>, w: World, g: GridId) {
    && g in seats && g in w.books && g in w.layout.members
    && forall n :: n in seats[g] <==>
         n in w.layout.members[g] && n in w.books[g].members && w.books[g].members[n].standing != Suspended
  }

  /** What the top tier accepts names every group with a certificate that holds, the seat's own among them, and commits
      the seats and the register of every child. */
  lemma RootHeaderNames(d: Desk, s: Ledger, spine: seq<string>, rules: Rules, founding: Option<Founding>,
                        merge: Option<Merge>, work: RootWork, certHolds: GroupBlock -> bool, mine: Option<int>,
                        b: NetworkBlock, i: nat)
    requires RootAccepts(d, s, spine, founding, merge, work, certHolds, mine, b) && i < |ChildrenOf(b.groups)|
    requires Grounded(d, s, rules, work.epoch, ChildrenOf(b.groups))
    ensures |b.header.groups| == |b.groups|
            && forall k | 0 <= k < |b.groups| :: b.header.groups[k] == b.groups[k].header && certHolds(b.groups[k])
    ensures mine.Some? ==> exists k :: 0 <= k < |b.groups| && b.groups[k].header.groupId == mine.value
    ensures var child := ChildrenOf(b.groups)[i].header;
            && SeatsSay(b.header.seats, d.world, child.gridId)
            && child.gridId in b.header.registers && b.header.registers[child.gridId] == child.register
  {
    hide Applied, RootsOf, Accepts, ChildrenOf, RollsOf, FaultsOf;
    var children := ChildrenOf(b.groups);
    TablesAt(children, i);
    assert ChildGrounded(d, s, rules, work.epoch, children[i]);
  }
}
