/**
 The two tiers above the grids and the block they end in (chain/tiers.py, `SuperWorkload`, `RootWorkload`,
 `SoloWorkload`, `apply_network_block`): what is built is accepted, and applying it leaves what its header says.
 */
module TierBlocks {
  import opened Basics
  import opened SealAccumulator
  import opened Locality
  import opened Register
  import opened GridWorld
  import opened Growth
  import opened Ledger
  import opened Merging
  import opened GridWorkload
  import opened Records
  import S = Seats
  import T = Transactions

  function DeltasOf(children: seq<GridBlock>): (r: seq<Delta>)
    ensures |r| == |children| && forall i | 0 <= i < |r| :: r[i] == children[i].delta
  {
    seq(|children|, i requires 0 <= i < |children| => children[i].delta)
  }

  function HeadersOf(children: seq<GridBlock>): (r: seq<GridHeader>)
    ensures |r| == |children| && forall i | 0 <= i < |r| :: r[i] == children[i].header
  {
    seq(|children|, i requires 0 <= i < |children| => children[i].header)
  }

  /** The merged delta of sibling blocks. */
  ghost function MergedOf(children: seq<GridBlock>): Delta {
    Joined(Pick(DeltasOf(children), KeptUpTo(DeltasOf(children), |children|)))
  }

  // ---- tier 1 ----

  datatype GroupHeader = GroupHeader(groupId: int, epoch: int, prevHash: Hash, children: seq<GridHeader>,
                                     dropped: seq<GridHeader>, leader: NodeId)
  datatype GroupBlock = GroupBlock(header: GroupHeader, children: seq<GridBlock>, dropped: seq<GridHeader>)

  /** One ceremony of a tier-1 grid: the blocks its seats bring, in grid order, and who leads. */
  datatype GroupWork = GroupWork(groupId: int, epoch: int, children: seq<GridBlock>, leader: NodeId)

  /** Whether a child's certificate verifies at the quorum its header names, over the grid's seats. */
  type ChildCheck = GridBlock -> bool

  ghost predicate InPartition(number: string -> nat, b: GridBlock) {
    b.header.parts > 0 && forall tx <- b.txs :: Partition(number, tx, b.header.parts) == Some(b.header.partition)
  }

  ghost predicate Names(children: seq<GridBlock>, dropped: seq<GridHeader>, g: GridId, b: GridBlock) {
    (exists i :: 0 <= i < |children| && children[i].header.gridId == g) || b.header in dropped
  }

  /** What `validate` accepts at a seat that brought the block at position `mine`, or none. */
  ghost predicate GroupAccepts(d: Desk, work: GroupWork, certHolds: ChildCheck, number: string -> nat,
                               mine: Option<nat>, b: GroupBlock) {
    && b.header.groupId == work.groupId && b.header.epoch == work.epoch && b.header.prevHash == d.tip
    && b.header.children == HeadersOf(b.children) && b.header.dropped == b.dropped && b.header.leader == work.leader
    && (forall i | 0 <= i < |b.children| :: certHolds(b.children[i]) && InPartition(number, b.children[i]))
    && (mine.Some? && mine.value < |work.children| ==>
        Names(b.children, b.dropped, work.children[mine.value].header.gridId, work.children[mine.value]))
    && KeptUpTo(DeltasOf(b.children), |b.children|) == Naturals(|b.children|)
  }

  /** Keep the children that collide with nothing before them, name the others. */
  method BuildGroup(d: Desk, work: GroupWork) returns (b: GroupBlock, ghost kept: seq<nat>)
    ensures kept == KeptUpTo(DeltasOf(work.children), |work.children|)
    ensures b.children == Pick(work.children, kept)
    ensures forall h :: h in b.dropped <==> exists i ::
              0 <= i < |work.children| && i !in kept && work.children[i].header == h
    ensures b.header == GroupHeader(work.groupId, work.epoch, d.tip, HeadersOf(b.children), b.dropped, work.leader)
  {
    hide KeptUpTo, Joined, Pick;
    var ds := DeltasOf(work.children);
    var merged, bad;
    merged, bad, kept := MergeDeltas(ds);
    var children: seq<GridBlock>, dropped: seq<GridHeader> := [], [];
    ghost var k := 0;
    KeptIsOrdered(ds, |ds|);
    PickNone(work.children, kept);
    for i := 0 to |work.children|
      invariant SplitsAt(kept, k, i)
      invariant children == Pick(work.children, kept[..k])
      invariant forall h :: h in dropped <==> exists j :: 0 <= j < i && j !in kept && work.children[j].header == h
    {
      if i in bad {
        NotKept(kept, k, i);
        dropped := dropped + [work.children[i].header];
      } else {
        KeptHere(kept, k, i);
        PickOneMore(work.children, kept[..k], i);
        children := children + [work.children[i]];
        k := k + 1;
      }
    }
    AllKept(kept, k, |work.children|);
    b := GroupBlock(GroupHeader(work.groupId, work.epoch, d.tip, HeadersOf(children), dropped, work.leader), children,
                    dropped);
  }

  /** The first k kept positions are those below i. */
  ghost predicate SplitsAt(kept: seq<nat>, k: nat, i: nat) {
    && (forall x, y {:trigger kept[x], kept[y]} | 0 <= x < y < |kept| :: kept[x] < kept[y])
    && k <= |kept| && (forall x | 0 <= x < k :: kept[x] < i) && (forall x | k <= x < |kept| :: kept[x] >= i)
  }

  lemma KeptHere(kept: seq<nat>, k: nat, i: nat)
    requires SplitsAt(kept, k, i) && i in kept
    ensures k < |kept| && kept[k] == i && kept[..k + 1] == kept[..k] + [i] && SplitsAt(kept, k + 1, i + 1)
            && Below(kept[..k], i)
  {
    var x :| 0 <= x < |kept| && kept[x] == i;
    assert k < |kept| && kept[k] >= i;
  }

  lemma NotKept(kept: seq<nat>, k: nat, i: nat)
    requires SplitsAt(kept, k, i) && i !in kept
    ensures SplitsAt(kept, k, i + 1)
  {
  }

  lemma AllKept(kept: seq<nat>, k: nat, n: nat)
    requires SplitsAt(kept, k, n) && Below(kept, n)
    ensures kept[..k] == kept
  {
    if kept != [] {
      assert kept[|kept| - 1] < n;
    }
  }

  lemma PickNone<A>(all: seq<A>, kept: seq<nat>)
    requires Below(kept, |all|)
    ensures Pick(all, kept[..0]) == []
  {
  }

  /** What is built is accepted by every seat, whichever block it brought: none is silently left out, and what is kept
      no longer collides. */
  lemma BuiltGroupIsAccepted(d: Desk, work: GroupWork, certHolds: ChildCheck, number: string -> nat, mine: Option<nat>,
                             b: GroupBlock, kept: seq<nat>)
    requires forall i | 0 <= i < |work.children| :: certHolds(work.children[i]) && InPartition(number, work.children[i])
    requires kept == KeptUpTo(DeltasOf(work.children), |work.children|) && b.children == Pick(work.children, kept)
    requires forall h :: h in b.dropped <==> exists i ::
               0 <= i < |work.children| && i !in kept && work.children[i].header == h
    requires b.header == GroupHeader(work.groupId, work.epoch, d.tip, HeadersOf(b.children), b.dropped, work.leader)
    ensures GroupAccepts(d, work, certHolds, number, mine, b)
  {
    hide InPartition, KeptUpTo;
    MergeAgain(DeltasOf(work.children), |work.children|);
    assert DeltasOf(b.children) == Pick(DeltasOf(work.children), kept);
    if mine.Some? && mine.value < |work.children| {
      var i := mine.value;
      if i in kept {
        var j :| 0 <= j < |kept| && kept[j] == i;
        assert b.children[j] == work.children[i];
      }
    }
  }

  // ---- the top tier ----

  /** What the header commits of a ledger: the two leaf sequences, the witness tree over the notes, and the counts. */
  datatype Roots = Roots(utxo: seq<Seal>, nf: seq<Seal>, witnessed: map<nat, Seal>, utxoCount: nat, nfCount: nat)

  function RootsOf(s: Ledger): Roots {
    Roots(s.utxo.Leaves("utxo"), s.nullifiers.Leaves("nf"), s.utxo.Witnessed("utxo"), |s.utxo.items|,
          |s.nullifiers.items|)
  }

  datatype NetworkHeader = NetworkHeader(
    height: int, epoch: int, prevHash: Hash, roots: Roots, spine: seq<string>, groups: seq<GroupHeader>,
      registers: map<GridId, RegisterRoot>,
    seats: map<GridId, set<NodeId>>, leader: NodeId, quorum: nat, tiers: nat, founding: Option<Founding>,
      merge: Option<Merge>)

  datatype NetworkBlock = NetworkBlock(header: NetworkHeader, groups: seq<GroupBlock>, founding: Option<Founding>,
                                       merge: Option<Merge>)

  function ChildrenOf(groups: seq<GroupBlock>): seq<GridBlock> {
    if groups == [] then [] else ChildrenOf(groups[..|groups| - 1]) + groups[|groups| - 1].children
  }

  function GroupHeaders(groups: seq<GroupBlock>): (r: seq<GroupHeader>)
    ensures |r| == |groups| && forall i | 0 <= i < |r| :: r[i] == groups[i].header
  {
    seq(|groups|, i requires 0 <= i < |groups| => groups[i].header)
  }

  /** Each grid's committed register root; a later child of one grid would replace an earlier one. */
  function RegistersOf(children: seq<GridBlock>): map<GridId, RegisterRoot> {
    if children == [] then map[]
       else RegistersOf(children[..|children| - 1])[children[|children| - 1].header.gridId :=
                                                    children[|children| - 1].header.register]
  }

  ghost predicate DistinctGrids(children: seq<GridBlock>) {
    forall i, j | 0 <= i < j < |children| :: children[i].header.gridId != children[j].header.gridId
  }

  function SeatsFor(d: Desk, ids: set<GridId>): map<GridId, set<NodeId>> {
    map g | g in ids && g in d.world.books && g in d.world.layout.members :: d.GridMembers(g)
  }

  /** The ceremony at the top: what every seat derived for itself. */
  datatype RootWork = RootWork(epoch: int, tiers: nat, quorum: nat, leader: NodeId)

  /** The growth rules, and what they read besides the state. */
  datatype GrowthRules = GrowthRules(p: Params, draws: Draws, name: Naming)

  ghost predicate Planned(w: World, r: GrowthRules, founding: Option<Founding>, merge: Option<Merge>) {
    PlansFounding(w, r.p, r.draws, r.name, founding) && PlansMerge(w, r.p, r.draws, founding, merge)
  }

  /** The ledger once the epoch's children are merged and applied; None where that is refused, a step fails, or the two
      records of a spend would part. */
  ghost function Applied(s: Ledger, children: seq<GridBlock>): Option<Ledger> {
    if CanApply(s, MergedOf(children)) && |MergedOf(children).spent| == |MergedOf(children).nullifiers|
       then Apply(s, MergedOf(children)) else None
  }

  ghost function HeaderFor(d: Desk, after: Ledger, spine: seq<string>, work: RootWork, groups: seq<GroupBlock>,
                           founding: Option<Founding>, merge: Option<Merge>): NetworkHeader {
    NetworkHeader(d.height + 1, work.epoch, d.tip, RootsOf(after), spine, GroupHeaders(groups),
                  RegistersOf(ChildrenOf(groups)),
                  SeatsFor(d, RegistersOf(ChildrenOf(groups)).Keys), work.leader, work.quorum, work.tiers,
                    founding, merge)
  }

  /** What the top tier's leader builds; None where the source raises. */
  ghost predicate IsBuiltRoot(d: Desk, s: Ledger, spine: seq<string>, r: GrowthRules, work: RootWork,
                              groups: seq<GroupBlock>, b: Option<NetworkBlock>) {
    match b
    case None => Applied(s, ChildrenOf(groups)).None?
    case Some(b) =>
      && Applied(s, ChildrenOf(groups)).Some? && Planned(d.world, r, b.founding, b.merge) && b.groups == groups
      && b.header == HeaderFor(d, Applied(s, ChildrenOf(groups)).value, spine, work, groups, b.founding, b.merge)
  }

  /** What `validate` accepts at a seat of group `mine`, or of none, given the plan that seat derives. */
  ghost predicate RootAccepts(d: Desk, s: Ledger, spine: seq<string>, founding: Option<Founding>, merge: Option<Merge>,
                              work: RootWork, certHolds: GroupBlock -> bool, mine: Option<int>, b: NetworkBlock) {
    var h := b.header;
    && h.epoch == work.epoch && h.prevHash == d.tip && h.height == d.height + 1 && h.groups == GroupHeaders(b.groups)
    && h.tiers == work.tiers
    && h.leader == work.leader && h.founding == b.founding == founding && h.merge == b.merge == merge
    && (forall i | 0 <= i < |b.groups| :: certHolds(b.groups[i]))
    && (mine.Some? ==> exists i :: 0 <= i < |b.groups| && b.groups[i].header.groupId == mine.value)
    && Applied(s, ChildrenOf(b.groups)).Some? && h.roots == RootsOf(Applied(s, ChildrenOf(b.groups)).value)
    && h.spine == spine
    && (work.quorum != 0 ==> h.quorum == work.quorum)
    && h.registers == RegistersOf(ChildrenOf(b.groups))
    && h.seats == SeatsFor(d, RegistersOf(ChildrenOf(b.groups)).Keys)
  }

  /** Every child was accepted, in its own grid, on this desk and this ledger, and repeats nothing within a
      transaction. */
  ghost predicate Grounded(d: Desk, s: Ledger, rules: Rules, epoch: int, children: seq<GridBlock>) {
    && DistinctGrids(children)
    && forall i | 0 <= i < |children| :: ChildGrounded(d, s, rules, epoch, children[i])
  }

  ghost predicate ChildGrounded(d: Desk, s: Ledger, rules: Rules, epoch: int, b: GridBlock) {
    d.Covers(b.header.gridId) && Accepts(d, s, rules, b.header.gridId, epoch, b) && EachDistinct(b.txs)
  }

  function TxsOf(children: seq<GridBlock>): (r: seq<seq<T.Transaction>>)
    ensures |r| == |children| && forall i | 0 <= i < |r| :: r[i] == children[i].txs
  {
    seq(|children|, i requires 0 <= i < |children| => children[i].txs)
  }

  /** The epoch of accepted children always applies, and applying the merged delta is running the kept grids'
      transactions one by one. So the top-tier leader never raises. */
  lemma GroundedApplies(d: Desk, s: Ledger, rules: Rules, epoch: int, children: seq<GridBlock>)
    requires s.Valid() && Grounded(d, s, rules, epoch, children)
    ensures Applied(s, children).Some? && Applied(s, children).value.Valid()
    ensures RunAll(s, Flatten(Pick(TxsOf(children), KeptUpTo(DeltasOf(children), |children|)))) == Applied(s, children)
  {
    hide CeremonySet, KeptUpTo, Joined, Apply, CanApply, Ledger.Valid, Accepts, EachDistinct, RunAll;
    var groups := TxsOf(children);
    if children != [] {
      assert ChildGrounded(d, s, rules, epoch, children[0]);
      var parts := |d.world.layout.grids|;
      forall i | 0 <= i < |children|
        ensures EachDistinct(groups[i]) && parts > 0 && IsSomeGrids(s, groups[i], rules.verify, rules.number, parts)
                && children[i].delta == FromTxs(groups[i])
      {
        assert ChildGrounded(d, s, rules, epoch, children[i]);
        AcceptedSet(d, s, rules, epoch, children[i]);
      }
      assert Deltas(groups) == DeltasOf(children);
      MergeIsSequence(s, groups, rules.verify, rules.number, parts);
    } else {
      assert Deltas(groups) == DeltasOf(children);
      MergeIsSequence(s, groups, rules.verify, rules.number, 1);
    }
    AgreeAfterIff(s, MergedOf(children));
  }

  lemma AcceptedSet(d: Desk, s: Ledger, rules: Rules, epoch: int, b: GridBlock)
    requires ChildGrounded(d, s, rules, epoch, b)
    ensures |d.world.layout.grids| > 0 && IsSomeGrids(s, b.txs, rules.verify, rules.number, |d.world.layout.grids|)
            && b.delta == FromTxs(b.txs)
  {
  }

  /** What the leader builds, every seat with the same desk, ledger and spine accepts. */
  lemma BuiltRootIsAccepted(d: Desk, s: Ledger, spine: seq<string>, r: GrowthRules, work: RootWork,
                            groups: seq<GroupBlock>, b: NetworkBlock, founding: Option<Founding>, merge: Option<Merge>,
                            certHolds: GroupBlock -> bool, mine: Option<int>)
    requires Injective(r.name) && IsBuiltRoot(d, s, spine, r, work, groups, Some(b))
             && Planned(d.world, r, founding, merge)
    requires forall i | 0 <= i < |groups| :: certHolds(groups[i])
    requires mine.Some? ==> exists i :: 0 <= i < |groups| && groups[i].header.groupId == mine.value
    ensures RootAccepts(d, s, spine, founding, merge, work, certHolds, mine, b)
  {
    hide PlansFounding, PlansMerge, Applied, RegistersOf, SeatsFor, RootsOf;
    FoundingIsUnique(d.world, r.p, r.draws, r.name, b.founding, founding);
    MergeIsUnique(d.world, r.p, r.draws, b.founding, b.merge, merge);
  }

  // ---- one tier ----

  function SoloGroup(d: Desk, epoch: int, child: GridBlock): GroupBlock {
    GroupBlock(GroupHeader(child.header.gridId, epoch, d.tip, [child.header], [], child.header.leader), [child], [])
  }

  function SoloWork(d: Desk, epoch: int, child: GridBlock): RootWork {
    RootWork(epoch, 1, child.header.quorum, child.header.leader)
  }

  /** A one-tier block wraps one grid's block, and its header is the one any seat would wrap it in. */
  ghost predicate SoloAccepts(d: Desk, s: Ledger, spine: seq<string>, rules: Rules, founding: Option<Founding>,
                              merge: Option<Merge>, g: GridId, epoch: int, b: NetworkBlock)
    requires d.Covers(g)
  {
    && b.header.tiers == 1 && |b.groups| == 1 && |b.groups[0].children| == 1
    && var child := b.groups[0].children[0];
       && Accepts(d, s, rules, g, epoch, child) && b.founding == founding && b.merge == merge
       && b.groups == [SoloGroup(d, epoch, child)]
       && Applied(s, [child]).Some?
       && b.header == HeaderFor(d, Applied(s, [child]).value, spine, SoloWork(d, epoch, child), b.groups,
                                founding, merge)
  }

  /** What the one leader wraps is accepted exactly when its grid's block is. */
  lemma BuiltSoloIsAcceptedIff(d: Desk, s: Ledger, spine: seq<string>, rules: Rules, founding: Option<Founding>,
                               merge: Option<Merge>, g: GridId, epoch: int, child: GridBlock, b: NetworkBlock)
    requires d.Covers(g) && s.Valid() && EachDistinct(child.txs) && (child.header.gridId == g)
    requires b.groups == [SoloGroup(d, epoch, child)] && b.founding == founding && b.merge == merge
    requires Applied(s, [child]).Some? ==>
               b.header == HeaderFor(d, Applied(s, [child]).value, spine, SoloWork(d, epoch, child), b.groups,
                                     founding, merge)
    ensures SoloAccepts(d, s, spine, rules, founding, merge, g, epoch, b) <==> Accepts(d, s, rules, g, epoch, child)
  {
    hide Accepts, EachDistinct, RunAll, Applied;
    if Accepts(d, s, rules, g, epoch, child) {
      assert ChildGrounded(d, s, rules, epoch, child);
      GroundedApplies(d, s, rules, epoch, [child]);
    }
  }

  // ---- applying ----

  /** The rolls a block's children carry, those that are ever applied. */
  function RollsOf(children: seq<GridBlock>): map<GridId, Roll> {
    if children == [] then map[]
    else
      var last, rest := children[|children| - 1], RollsOf(children[..|children| - 1]);
      if last.roll.Some? && last.roll.value.epoch >= 0 then rest[last.header.gridId := last.roll.value] else rest
  }

  function FaultsOf(children: seq<GridBlock>): map<GridId, set<NodeId>> {
    if children == [] then map[]
    else FaultsOf(children[..|children| - 1])[children[|children| - 1].header.gridId :=
                                              FaultedFrom(children[|children| - 1].reports)]
  }

  lemma {:induction false} TablesAt(children: seq<GridBlock>, i: nat)
    requires DistinctGrids(children) && i < |children|
    ensures var b := children[i];
            && b.header.gridId in RegistersOf(children) && RegistersOf(children)[b.header.gridId] == b.header.register
            && b.header.gridId in FaultsOf(children) && FaultsOf(children)[b.header.gridId] == FaultedFrom(b.reports)
            && (b.header.gridId in RollsOf(children) <==> b.roll.Some? && b.roll.value.epoch >= 0)
            && (b.header.gridId in RollsOf(children) ==> RollsOf(children)[b.header.gridId] == b.roll.value)
  {
    var front := children[..|children| - 1];
    assert forall k | 0 <= k < |front| :: front[k] == children[k];
    if i < |front| {
      TablesAt(front, i);
      assert children[i].header.gridId != children[|front|].header.gridId;
    } else {
      OthersOnly(front, children[i].header.gridId);
    }
  }

  lemma {:induction false} OthersOnly(children: seq<GridBlock>, g: GridId)
    requires forall k | 0 <= k < |children| :: children[k].header.gridId != g
    ensures g !in RollsOf(children)
  {
    if children != [] {
      var front := children[..|children| - 1];
      assert forall k | 0 <= k < |front| :: front[k] == children[k];
      OthersOnly(front, g);
    }
  }

  /** The registers after the block, when it founds and merges nothing. */
  ghost predicate RegistersApplied(d: Desk, children: seq<GridBlock>, after: World) {
    exists mid :: Rolled(d.world, mid, RollsOf(children), FaultsOf(children)) && after == Credited(mid, d.service)
  }

  /** After a block of accepted children that founds and merges nothing, each child's register has the root its block
      committed. */
  lemma RegisterMatches(d: Desk, s: Ledger, rules: Rules, epoch: int, children: seq<GridBlock>, after: World, i: nat)
    requires Grounded(d, s, rules, epoch, children) && RegistersApplied(d, children, after) && i < |children|
    ensures var g := children[i].header.gridId;
            g in after.books && g in RegistersOf(children) && RootOf(after.books[g]) == RegistersOf(children)[g]
  {
    hide CeremonySet, RootOf, Register.After, Register.Credited, FaultedFrom, RollsOf, Desk.RollFrom, RegistersOf;
    hide FromTxs, DistinctGrids;
    hide FaultsOf, CertFollows, Register.EntryAfter, Entry.Marked;
    var child, g := children[i], children[i].header.gridId;
    assert ChildGrounded(d, s, rules, epoch, child);
    TablesAt(children, i);
    var mid :| Rolled(d.world, mid, RollsOf(children), FaultsOf(children)) && after == Credited(mid, d.service);
    assert RolledAt(d.world, mid, RollsOf(children), FaultsOf(children), g);
    if child.roll.value.epoch >= 0 {
      AdvancedIs(d.world.books[g], mid.books[g], child.roll.value, FaultedFrom(child.reports));
    }
  }

  /** After an accepted block the ledger's roots and counts are the header's, and, when no grid is founded or folded
      away, every child's register has the root its block committed. */
  lemma AppliedMatchesHeader(d: Desk, s: Ledger, spine: seq<string>, rules: Rules, epoch: int,
                             founding: Option<Founding>, merge: Option<Merge>, work: RootWork,
                             certHolds: GroupBlock -> bool, mine: Option<int>, b: NetworkBlock, after: World, i: nat)
    requires RootAccepts(d, s, spine, founding, merge, work, certHolds, mine, b)
             && Grounded(d, s, rules, epoch, ChildrenOf(b.groups))
    requires RegistersApplied(d, ChildrenOf(b.groups), after) && i < |ChildrenOf(b.groups)|
    ensures Applied(s, ChildrenOf(b.groups)).Some? && RootsOf(Applied(s, ChildrenOf(b.groups)).value) == b.header.roots
    ensures var g := ChildrenOf(b.groups)[i].header.gridId;
            g in after.books && g in b.header.registers && RootOf(after.books[g]) == b.header.registers[g]
  {
    hide Applied, Grounded, RegistersApplied, RegistersOf, ChildrenOf, RootOf, RootsOf, SeatsFor;
    RegisterMatches(d, s, rules, epoch, ChildrenOf(b.groups), after, i);
  }

  /** The same with one grid, where no child has been accepted by a tier below. */
  lemma SoloMatchesHeader(d: Desk, s: Ledger, spine: seq<string>, rules: Rules, founding: Option<Founding>,
                          merge: Option<Merge>, g: GridId, epoch: int, b: NetworkBlock, after: World)
    requires d.Covers(g) && SoloAccepts(d, s, spine, rules, founding, merge, g, epoch, b)
    requires EachDistinct(b.groups[0].children[0].txs) && RegistersApplied(d, ChildrenOf(b.groups), after)
    ensures Applied(s, ChildrenOf(b.groups)).Some? && RootsOf(Applied(s, ChildrenOf(b.groups)).value) == b.header.roots
    ensures b.header.registers.Keys == {g} && g in after.books && RootOf(after.books[g]) == b.header.registers[g]
  {
    hide Applied, Accepts, EachDistinct, RegistersApplied, RootOf, RootsOf, SeatsFor;
    var child := b.groups[0].children[0];
    OneChild(d, epoch, child);
    AcceptedIsOwn(d, s, rules, g, epoch, child);
    assert ChildGrounded(d, s, rules, epoch, child);
    RegisterMatches(d, s, rules, epoch, [child], after, 0);
  }

  lemma AcceptedIsOwn(d: Desk, s: Ledger, rules: Rules, g: GridId, epoch: int, child: GridBlock)
    requires d.Covers(g) && Accepts(d, s, rules, g, epoch, child)
    ensures child.header.gridId == g
  {
    hide CeremonySet;
  }

  lemma OneChild(d: Desk, epoch: int, child: GridBlock)
    ensures ChildrenOf([SoloGroup(d, epoch, child)]) == [child]
    ensures RegistersOf([child]) == map[child.header.gridId := child.header.register]
  {
    assert ChildrenOf([]) == [];
    assert RegistersOf([]) == map[];
  }
}
