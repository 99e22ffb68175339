/**
 The builders and the checks of the tiers above the grids, step by step on the objects a node holds (chain/tiers.py,
 `RootWorkload`, `SoloWorkload`, and the ledger's part of `apply_network_block`).
 */
module TierWorkloads {
  import opened Basics
  import opened Locality
  import opened GridWorld
  import opened Growth
  import opened Ledger
  import opened Merging
  import opened Records
  import opened ChainState
  import opened GridWorkload
  import opened TierBlocks
  import opened TierWorld
  import opened HeaderCommitments
  import SealAccumulator
  import T = Transactions

  /** The node's world object is the one its desk describes. */
  ghost predicate Holds(w: TierWorld, d: Desk, r: GrowthRules)
    reads w, w.topology, w.repr
  {
    w.Valid() && d.world == w.world && r.p == w.p && Injective(r.name)
  }

  /** The epoch's merged delta is applied, and both trees have room for it. */
  ghost predicate Runs(st: ChainState, children: seq<GridBlock>)
    reads st, st.utxo, st.nullifiers
  {
    Applied(st.State(), children).Some? && Goes(MergedOf(children), st.State(), st.utxo.height, st.nullifiers.height)
  }

  /** What a header commits of the ledger an object holds. */
  function RootsHeld(st: ChainState): (r: Roots)
    reads st, st.utxo, st.nullifiers
    ensures r == RootsOf(st.State())
  {
    RootsOf(Ledger(SealAccumulator.Dump(st.utxo.items, st.utxo.dead),
                   SealAccumulator.Dump(st.nullifiers.items, st.nullifiers.dead), st.burned))
  }

  /** `_apply`: merge the children, look, and move a copy. */
  method ApplyEpoch(st: ChainState, children: seq<GridBlock>) returns (shadow: ChainState, ok: bool)
    requires st.Valid()
    ensures ok <==> Runs(st, children)
    ensures ok ==>
              shadow.Valid() && shadow.State() == Applied(st.State(), children).value
              && shadow.history.hashes == st.history.hashes
  {
    hide CanApply, Apply, Joined, Pick, KeptUpTo, ChainState.Valid, ChainState.State, HasRoom;
    var merged, dropped, kept := MergeDeltas(DeltasOf(children));
    shadow := new ChainState.Copy(st);
    ok := shadow.CanApplyDelta(merged);
    if ok {
      ok := shadow.ApplyDelta(merged);
    }
  }

  method PlanGrowth(w: TierWorld, r: GrowthRules) returns (founding: Option<Founding>, merge: Option<Merge>)
    requires w.Valid() && r.p == w.p && Injective(r.name)
    ensures Planned(w.world, r, founding, merge)
  {
    founding := w.PlanFoundings(r.draws, r.name);
    merge := w.PlanMerges(r.draws, founding);
  }

  // ---- the top tier ----

  /** A top-tier leader's block; None where the source raises. */
  method BuildRoot(w: TierWorld, d: Desk, st: ChainState, r: GrowthRules, work: RootWork, groups: seq<GroupBlock>)
    returns (b: Option<NetworkBlock>)
    requires st.Valid() && Holds(w, d, r)
    ensures b.Some? <==> Runs(st, ChildrenOf(groups))
    ensures b.Some? ==> IsBuiltRoot(d, st.State(), st.history.hashes, r, work, groups, b)
    ensures b.Some? ==> Commits(b.value.header.roots, Applied(st.State(), ChildrenOf(groups)).value)
  {
    hide Applied, Runs, RegistersOf, SeatsFor, RootsOf, TierWorld.Valid, ChainState.Valid, PlansFounding, PlansMerge;
    hide ChildrenOf, Commits;
    var children := ChildrenOf(groups);
    var shadow, ok := ApplyEpoch(st, children);
    if !ok {
      return None;
    }
    RunsApplies(st, children);
    CommittedBy(st, children);
    var founding, merge := PlanGrowth(w, r);
    var registers := RegistersOf(children);
    var header := NetworkHeader(d.height + 1, work.epoch, d.tip, RootsHeld(shadow), shadow.history.hashes,
                                GroupHeaders(groups), registers,
                                SeatsFor(d, registers.Keys), work.leader, work.quorum, work.tiers, founding, merge);
    return Some(NetworkBlock(header, groups, founding, merge));
  }

  lemma RunsApplies(st: ChainState, children: seq<GridBlock>)
    requires Runs(st, children)
    ensures Applied(st.State(), children).Some?
  {
  }

  lemma CommittedBy(st: ChainState, children: seq<GridBlock>)
    requires st.Valid() && Applied(st.State(), children).Some?
    ensures Commits(RootsOf(Applied(st.State(), children).value), Applied(st.State(), children).value)
  {
    hide Applied, Commits, RootsOf;
    AppliedIsValid(st.State(), children);
    RootsCommit(Applied(st.State(), children).value);
  }

  /** Every refusal of a top-tier seat's check, plans included. */
  method ValidateRoot(w: TierWorld, d: Desk, st: ChainState, r: GrowthRules, work: RootWork,
                      certHolds: GroupBlock -> bool, mine: Option<int>, b: NetworkBlock) returns (ok: bool)
    requires st.Valid() && Holds(w, d, r)
    ensures ok <==> && RootAccepts(d, st.State(), st.history.hashes, b.founding, b.merge, work, certHolds, mine, b)
                    && Planned(d.world, r, b.founding, b.merge) && Runs(st, ChildrenOf(b.groups))
    ensures ok ==> Commits(b.header.roots, Applied(st.State(), ChildrenOf(b.groups)).value)
  {
    hide Applied, Runs, RegistersOf, SeatsFor, RootsOf, TierWorld.Valid, ChainState.Valid, PlansFounding, PlansMerge;
    hide ChildrenOf, Commits;
    var h, children := b.header, ChildrenOf(b.groups);
    if h.epoch != work.epoch || h.prevHash != d.tip || h.height != d.height + 1 || h.groups != GroupHeaders(b.groups) {
      return false;
    }
    if h.tiers != work.tiers || h.leader != work.leader || h.founding != b.founding || h.merge != b.merge {
      return false;
    }
    var founding, merge := PlanGrowth(w, r);
    PlanIsUnique(d.world, r, founding, merge, b.founding, b.merge);
    if b.founding != founding || b.merge != merge {
      return false;
    }
    if exists i :: 0 <= i < |b.groups| && !certHolds(b.groups[i]) {
      return false;
    }
    if mine.Some? && forall i :: 0 <= i < |b.groups| ==> b.groups[i].header.groupId != mine.value {
      return false;
    }
    var shadow;
    shadow, ok := ApplyEpoch(st, children);
    if !ok {
      return;
    }
    RunsApplies(st, children);
    CommittedBy(st, children);
    if h.roots != RootsHeld(shadow) || h.spine != shadow.history.hashes
       || (work.quorum != 0 && h.quorum != work.quorum) {
      return false;
    }
    return h.registers == RegistersOf(children) && h.seats == SeatsFor(d, RegistersOf(children).Keys);
  }

  lemma PlanIsUnique(w: World, r: GrowthRules, founding: Option<Founding>, merge: Option<Merge>,
                     founding': Option<Founding>, merge': Option<Merge>)
    requires Injective(r.name) && Planned(w, r, founding, merge)
    ensures Planned(w, r, founding', merge') <==> founding' == founding && merge' == merge
  {
    hide PlansFounding, PlansMerge;
    if Planned(w, r, founding', merge') {
      FoundingIsUnique(w, r.p, r.draws, r.name, founding, founding');
      MergeIsUnique(w, r.p, r.draws, founding, merge, merge');
    }
  }

  // ---- one tier ----

  /** What any seat wraps one grid's block in. */
  ghost predicate IsWrapped(d: Desk, s: Ledger, spine: seq<string>, r: GrowthRules, epoch: int, child: GridBlock,
                            b: NetworkBlock) {
    && Planned(d.world, r, b.founding, b.merge) && b.groups == [SoloGroup(d, epoch, child)] && Applied(s, [child]).Some?
    && b.header == HeaderFor(d, Applied(s, [child]).value, spine, SoloWork(d, epoch, child), b.groups, b.founding,
                             b.merge)
  }

  /** `_wrap`. */
  method Wrap(w: TierWorld, d: Desk, st: ChainState, r: GrowthRules, epoch: int, child: GridBlock)
    returns (b: Option<NetworkBlock>)
    requires st.Valid() && Holds(w, d, r)
    ensures b.Some? <==> Runs(st, [child])
    ensures b.Some? ==> IsWrapped(d, st.State(), st.history.hashes, r, epoch, child, b.value)
    ensures b.Some? ==> Commits(b.value.header.roots, Applied(st.State(), [child]).value)
  {
    hide Applied, Runs, RegistersOf, SeatsFor, RootsOf, TierWorld.Valid, ChainState.Valid, PlansFounding, PlansMerge;
    hide ChildrenOf, Commits;
    var groups := [SoloGroup(d, epoch, child)];
    OneChild(d, epoch, child);
    var shadow, ok := ApplyEpoch(st, [child]);
    if !ok {
      return None;
    }
    RunsApplies(st, [child]);
    CommittedBy(st, [child]);
    var founding, merge := PlanGrowth(w, r);
    var registers := RegistersOf([child]);
    var header := NetworkHeader(d.height + 1, epoch, d.tip, RootsHeld(shadow), shadow.history.hashes,
                                GroupHeaders(groups), registers,
                                SeatsFor(d, registers.Keys), child.header.leader, child.header.quorum, 1, founding,
                                  merge);
    return Some(NetworkBlock(header, groups, founding, merge));
  }

  /** The one leader's block; None where the source raises. Every seat accepts it exactly when the grid's certificate is
      current. */
  method BuildSolo(w: TierWorld, d: Desk, st: ChainState, r: GrowthRules, rules: Rules, g: GridId, epoch: int,
                   leader: NodeId, mempool: seq<T.Transaction>, limit: Option<nat>, pending: seq<Report>)
    returns (b: Option<NetworkBlock>)
    requires st.Valid() && Holds(w, d, r) && d.Covers(g) && forall tx <- mempool :: rules.verify(tx)
    ensures b.Some? ==> && |b.value.groups| == 1 && |b.value.groups[0].children| == 1
                        && IsWrapped(d, st.State(), st.history.hashes, r, epoch, b.value.groups[0].children[0], b.value)
    ensures b.Some? ==> (SoloAccepts(d, st.State(), st.history.hashes, rules, b.value.founding, b.value.merge, g,
                                     epoch, b.value)
                         <==> CertIsCurrent(d, g))
    ensures b.Some? ==> Commits(b.value.header.roots, Applied(st.State(), b.value.groups[0].children).value)
  {
    hide Applied, Runs, RegistersOf, SeatsFor, RootsOf, TierWorld.Valid, ChainState.Valid, PlansFounding, PlansMerge;
    hide ChildrenOf, Accepts, CertFollows;
    var child := Build(d, st, rules, g, epoch, leader, mempool, limit, pending);
    b := Wrap(w, d, st, r, epoch, child);
  }

  /** Every refusal of a seat's check of a one-tier block. */
  method ValidateSolo(w: TierWorld, d: Desk, st: ChainState, r: GrowthRules, rules: Rules, g: GridId, epoch: int,
                      b: NetworkBlock) returns (ok: bool)
    requires st.Valid() && Holds(w, d, r) && d.Covers(g)
    ensures ok <==> && SoloAccepts(d, st.State(), st.history.hashes, rules, b.founding, b.merge, g, epoch, b)
                    && Planned(d.world, r, b.founding, b.merge) && Runs(st, ChildrenOf(b.groups))
    ensures ok ==> Commits(b.header.roots, Applied(st.State(), b.groups[0].children).value)
  {
    hide Applied, Runs, RegistersOf, SeatsFor, RootsOf, TierWorld.Valid, ChainState.Valid, PlansFounding, PlansMerge;
    hide ChildrenOf, Accepts;
    if b.header.tiers != 1 || |b.groups| != 1 || |b.groups[0].children| != 1 {
      return false;
    }
    var child := b.groups[0].children[0];
    OneChild(d, epoch, child);
    ok := Validate(d, st, rules, g, epoch, child);
    if !ok {
      return;
    }
    var founding, merge := PlanGrowth(w, r);
    PlanIsUnique(d.world, r, founding, merge, b.founding, b.merge);
    if b.founding != founding || b.merge != merge {
      return false;
    }
    var expected := Wrap(w, d, st, r, epoch, child);
    if expected.None? {
      return false;
    }
    PlanIsUnique(d.world, r, founding, merge, expected.value.founding, expected.value.merge);
    return expected.value.header == b.header && b.groups == expected.value.groups;
  }

  // ---- the ledger's part of applying a block ----

  /** Merge, apply and record. A block either check let through has an epoch that runs, and leaves the roots it
      committed. */
  method ApplyLedger(st: ChainState, b: NetworkBlock, hash: string) returns (ok: bool)
    requires st.Valid()
    modifies st, st.utxo, st.utxo.witnessTree, st.nullifiers, st.nullifiers.witnessTree, st.history, st.history.tree
    ensures ok <==> && old(Runs(st, ChildrenOf(b.groups)))
                    && |old(st.history.hashes)| == b.header.height - 1
                    && |old(st.history.hashes)| < Pow2(st.history.height)
    ensures ok ==> && st.Valid() && Some(st.State()) == Applied(old(st.State()), ChildrenOf(b.groups))
                   && st.history.hashes == old(st.history.hashes) + [hash] && st.height == b.header.height
                   && st.tip == hash
  {
    hide Apply, Joined, Pick, KeptUpTo, ChainState.Valid, ChainState.State, HasRoom, ChildrenOf;
    var children := ChildrenOf(b.groups);
    ghost var before := st.State();
    var merged, dropped, kept := MergeDeltas(DeltasOf(children));
    RunsIff(st, children);
    ok := st.ApplyDelta(merged);
    if ok {
      ok := st.RecordBlock(b.header.height, hash);
    }
  }

  /** Applying decides alone: what goes in could go in. */
  lemma RunsIff(st: ChainState, children: seq<GridBlock>)
    requires st.Valid()
    ensures Runs(st, children)
            <==> && Goes(MergedOf(children), st.State(), st.utxo.height, st.nullifiers.height)
                 && |MergedOf(children).spent| == |MergedOf(children).nullifiers|
    ensures Runs(st, children) ==> Applied(st.State(), children) == Apply(st.State(), MergedOf(children))
  {
    hide MergedOf, CanApply, Delta.Distinct;
    AppliesIff(st.State(), MergedOf(children));
  }
}
