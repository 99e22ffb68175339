/**
 What every reachable history keeps: branches, consumed turns, the rewrite ceiling, the fork of two
 branches and the heaviest tip (chain/hardening/history.py).
 */
module HistoryTheorems {
  import opened Basics
  import opened Seats
  import opened Stamps
  import opened Draw
  import opened History

  // ---- counting along a branch ----

  function WeightOf(branch: seq<HardenedBlock>): int {
    if branch == [] then 0 else branch[0].weight + WeightOf(branch[1..])
  }

  lemma {:induction false} TurnsBelow(s: set<nat>, n: nat)
    requires forall t <- s :: t < n
    ensures |s| <= n
  {
    if n == 0 {
      assert s == {};
    } else {
      TurnsBelow(s - {n - 1}, n - 1);
      assert |s| <= |s - {n - 1}| + 1;
    }
  }

  lemma UnionBelow(a: set<nat>, b: set<nat>, n: nat)
    requires (forall t <- a :: t < n) && forall t <- b :: t < n
    ensures forall t <- a + b :: t < n
  {
  }

  lemma {:induction false} Subset(a: set<nat>, b: set<nat>)
    requires a <= b
    ensures |a| <= |b|
  {
    if a != {} {
      var x :| x in a;
      Subset(a - {x}, b - {x});
    }
  }

  lemma PassingCommittee(c: Chain, s: Store, b: HardenedBlock)
    requires Valid(c, s) && Passes(c, s.blocks, b)
    ensures |SetOf<nat>(b.drawn)| == c.params.width && SetOf<nat>(b.drawn) !! Spent(c, s.blocks, b.prevHash)
    ensures forall t <- SetOf<nat>(b.drawn) :: t < c.spec.turns
  {
    hide TheDraw, Indexed, StampsHold;
    CommitteeIsFresh(c.probes, SeedOn(c, HeightAt(c, s.blocks, b.prevHash) + 1, b.prevHash), c.spec.turns,
                     Spent(c, s.blocks, b.prevHash), c.params.width);
  }

  lemma CommitteeOf(c: Chain, s: Store, h: Hash)
    requires Valid(c, s) && h in s.blocks
    ensures var b := s.blocks[h];
            && |SetOf<nat>(b.drawn)| == c.params.width && SetOf<nat>(b.drawn) !! Spent(c, s.blocks, b.prevHash)
            && forall t <- SetOf<nat>(b.drawn) :: t < c.spec.turns
  {
    PassingCommittee(c, s, s.blocks[h]);
  }

  /** Height is the length of the branch, cumulative its weight, and it has consumed width different
      turns a block. */
  lemma {:induction false} BranchCounts(c: Chain, s: Store, h: Hash)
    requires Valid(c, s) && Known(c, s.blocks, h)
    ensures |Branch(c, s.blocks, h)| == HeightAt(c, s.blocks, h)
    ensures WeightOf(Branch(c, s.blocks, h)) == CumulativeAt(c, s.blocks, h)
    ensures |Spent(c, s.blocks, h)| == HeightAt(c, s.blocks, h) * c.params.width
    ensures forall t <- Spent(c, s.blocks, h) :: t < c.spec.turns
    decreases Rank(s.blocks, h)
  {
    hide TheDraw, Indexed, StampsHold, HardeningParams.Threshold, HardeningParams.StampWeight;
    if h != c.genesis {
      var b := s.blocks[h];
      assert Passes(c, s.blocks, b);
      BranchCounts(c, s, b.prevHash);
      CommitteeOf(c, s, h);
      Distribute(HeightAt(c, s.blocks, b.prevHash), 1, c.params.width);
      UnionBelow(SetOf<nat>(b.drawn), Spent(c, s.blocks, b.prevHash), c.spec.turns);
      assert ([b] + Branch(c, s.blocks, b.prevHash))[1..] == Branch(c, s.blocks, b.prevHash);
    }
  }

  /** So no branch is longer than the pool allows. */
  lemma HeightIsBounded(c: Chain, s: Store, h: Hash)
    requires Valid(c, s) && Known(c, s.blocks, h)
    ensures HeightAt(c, s.blocks, h) * c.params.width <= c.spec.turns
  {
    BranchCounts(c, s, h);
    TurnsBelow(Spent(c, s.blocks, h), c.spec.turns);
  }

  /** And once fewer than `width` turns are unspent, nothing passes on top of that branch. */
  lemma PoolRunsOut(c: Chain, s: Store, hb: HardenedBlock)
    requires Valid(c, s) && Passes(c, s.blocks, hb)
    ensures (HeightAt(c, s.blocks, hb.prevHash) + 1) * c.params.width <= c.spec.turns
  {
    hide TheDraw, Indexed, StampsHold, HardeningParams.Threshold, HardeningParams.StampWeight;
    var prev := hb.prevHash;
    BranchCounts(c, s, prev);
    PassingCommittee(c, s, hb);
    Distribute(HeightAt(c, s.blocks, prev), 1, c.params.width);
    UnionBelow(SetOf<nat>(hb.drawn), Spent(c, s.blocks, prev), c.spec.turns);
    var both := SetOf<nat>(hb.drawn) + Spent(c, s.blocks, prev);
    assert |both| == |Spent(c, s.blocks, prev)| + c.params.width;
    TurnsBelow(both, c.spec.turns);
  }

  // ---- ancestors ----

  /** `f` is on the way from `h` back to genesis. */
  ghost predicate IsAncestor(c: Chain, blocks: Blocks, f: Hash, h: Hash)
    requires Rooted(c, blocks)
    decreases Rank(blocks, h)
  {
    f == h || (h != c.genesis && h in blocks && IsAncestor(c, blocks, f, blocks[h].prevHash))
  }

  lemma {:induction false} AncestorIsLower(c: Chain, blocks: Blocks, f: Hash, h: Hash)
    requires Rooted(c, blocks) && IsAncestor(c, blocks, f, h) && Known(c, blocks, h)
    ensures Known(c, blocks, f) && 0 <= HeightAt(c, blocks, f) <= HeightAt(c, blocks, h)
    ensures f != h ==> HeightAt(c, blocks, f) < HeightAt(c, blocks, h)
    decreases Rank(blocks, h)
  {
    if f != h {
      AncestorIsLower(c, blocks, f, blocks[h].prevHash);
    }
  }

  /** Two ancestors of one block lie on one line. */
  lemma {:induction false} AncestorsOrdered(c: Chain, blocks: Blocks, f: Hash, g: Hash, h: Hash)
    requires Rooted(c, blocks) && Known(c, blocks, h)
    requires IsAncestor(c, blocks, f, h) && IsAncestor(c, blocks, g, h)
             && HeightAt(c, blocks, f) <= HeightAt(c, blocks, g)
    ensures IsAncestor(c, blocks, f, g)
    decreases Rank(blocks, h)
  {
    if g != h {
      if f == h {
        AncestorIsLower(c, blocks, g, h);
      } else {
        AncestorsOrdered(c, blocks, f, g, blocks[h].prevHash);
      }
    }
  }

  lemma {:induction false} GenesisIsAncestor(c: Chain, blocks: Blocks, h: Hash)
    requires Rooted(c, blocks) && Known(c, blocks, h)
    ensures IsAncestor(c, blocks, c.genesis, h)
    decreases Rank(blocks, h)
  {
    if h != c.genesis {
      GenesisIsAncestor(c, blocks, blocks[h].prevHash);
    }
  }

  /** The deepest block both branches contain. */
  ghost predicate IsFork(c: Chain, blocks: Blocks, a: Hash, b: Hash, f: Hash)
    requires Rooted(c, blocks)
  {
    && IsAncestor(c, blocks, f, a) && IsAncestor(c, blocks, f, b)
    && forall g {:trigger IsAncestor(c, blocks, g, f)} | IsAncestor(c, blocks, g, a) && IsAncestor(c, blocks, g, b) ::
         IsAncestor(c, blocks, g, f)
  }

  lemma ForkIsUnique(c: Chain, blocks: Blocks, a: Hash, b: Hash, f: Hash, g: Hash)
    requires Rooted(c, blocks) && Known(c, blocks, a) && IsFork(c, blocks, a, b, f) && IsFork(c, blocks, a, b, g)
    ensures f == g
  {
    assert IsAncestor(c, blocks, f, g) && IsAncestor(c, blocks, g, f);
    AncestorIsLower(c, blocks, f, a);
    AncestorIsLower(c, blocks, g, a);
    if f != g {
      AncestorIsLower(c, blocks, f, g);
      AncestorIsLower(c, blocks, g, f);
    }
  }

  /** The blocks of `h`'s branch above its ancestor `f`, newest first. */
  ghost function Above(c: Chain, blocks: Blocks, f: Hash, h: Hash): seq<HardenedBlock>
    requires Rooted(c, blocks) && IsAncestor(c, blocks, f, h)
    decreases Rank(blocks, h)
  {
    if f == h then [] else [blocks[h]] + Above(c, blocks, f, blocks[h].prevHash)
  }

  lemma {:induction false} AboveIsCutFromBranch(c: Chain, blocks: Blocks, f: Hash, h: Hash)
    requires Rooted(c, blocks) && IsAncestor(c, blocks, f, h) && Known(c, blocks, h)
    ensures Branch(c, blocks, h) == Above(c, blocks, f, h) + Branch(c, blocks, f)
    ensures |Above(c, blocks, f, h)| == HeightAt(c, blocks, h) - HeightAt(c, blocks, f)
    decreases Rank(blocks, h)
  {
    if f != h {
      AboveIsCutFromBranch(c, blocks, f, blocks[h].prevHash);
    }
  }

  // ---- the ceiling ----

  /** The turns that stamped a block. */
  function Stamped(b: HardenedBlock): set<nat> {
    set i | 0 <= i < |b.stamps| && b.stamps[i].leafIndex >= 0 :: b.stamps[i].leafIndex
  }

  function StampsIn(bs: seq<HardenedBlock>): nat {
    if bs == [] then 0 else |bs[0].stamps| + StampsIn(bs[1..])
  }

  /** Every stamp in `bs` is by a turn of `owned`. */
  ghost predicate StampedOnlyBy(bs: seq<HardenedBlock>, owned: set<nat>) {
    forall i | 0 <= i < |bs| :: Stamped(bs[i]) <= owned
  }

  /** Different turns, as many as there are stamps. */
  lemma DistinctStamps(b: HardenedBlock)
    requires forall i, j | 0 <= i < j < |b.stamps| :: b.stamps[i].leafIndex != b.stamps[j].leafIndex
    requires forall i | 0 <= i < |b.stamps| :: b.stamps[i].leafIndex >= 0
    ensures |Stamped(b)| == |b.stamps|
  {
    var listed: seq<nat> := seq(|b.stamps|, i requires 0 <= i < |b.stamps| => b.stamps[i].leafIndex);
    DistinctSize(listed);
    forall t ensures t in Stamped(b) <==> t in SetOf<nat>(listed) {
      if t in SetOf<nat>(listed) {
        var i :| 0 <= i < |listed| && listed[i] == t;
        assert b.stamps[i].leafIndex == t;
      }
      if t in Stamped(b) {
        var i :| 0 <= i < |b.stamps| && b.stamps[i].leafIndex == t;
        assert listed[i] == t;
      }
    }
    assert Stamped(b) == SetOf<nat>(listed);
  }

  lemma StampedCount(c: Chain, s: Store, h: Hash)
    requires Valid(c, s) && h in s.blocks
    ensures var b := s.blocks[h];
            && |Stamped(b)| == |b.stamps| >= c.params.Threshold() && Stamped(b) <= SetOf<nat>(b.drawn)
            && b.weight == |b.stamps| * c.params.StampWeight()
  {
    hide TheDraw, Indexed;
    var b := s.blocks[h];
    assert Passes(c, s.blocks, b);
    forall i | 0 <= i < |b.stamps| ensures b.stamps[i].leafIndex >= 0 && b.stamps[i].leafIndex in SetOf<nat>(b.drawn) {
      assert StampHolds(c, b, b.stamps[i]);
    }
    DistinctStamps(b);
  }

  /** The turns a stretch of blocks was stamped with: all different, none spent before it. */
  ghost function StampingTurns(c: Chain, s: Store, f: Hash, h: Hash): set<nat>
    requires Valid(c, s) && IsAncestor(c, s.blocks, f, h)
    decreases Rank(s.blocks, h)
  {
    if f == h then {}
    else Stamped(s.blocks[h]) + StampingTurns(c, s, f, s.blocks[h].prevHash)
  }

  lemma {:induction false} StampingTurnsCount(c: Chain, s: Store, f: Hash, h: Hash, owned: set<nat>)
    requires Valid(c, s) && Known(c, s.blocks, h) && IsAncestor(c, s.blocks, f, h)
    requires StampedOnlyBy(Above(c, s.blocks, f, h), owned)
    ensures |StampingTurns(c, s, f, h)| == StampsIn(Above(c, s.blocks, f, h))
    ensures StampingTurns(c, s, f, h) <= owned - Spent(c, s.blocks, f)
    ensures StampingTurns(c, s, f, h) <= Spent(c, s.blocks, h) && Spent(c, s.blocks, f) <= Spent(c, s.blocks, h)
    decreases Rank(s.blocks, h)
  {
    if f != h {
      var b, above := s.blocks[h], Above(c, s.blocks, f, h);
      var below := Above(c, s.blocks, f, b.prevHash);
      assert above[0] == b && above[1..] == below;
      assert StampedOnlyBy(below, owned) by {
        forall i | 0 <= i < |below| ensures Stamped(below[i]) <= owned {
          assert above[i + 1] == below[i];
        }
      }
      StampingTurnsCount(c, s, f, b.prevHash, owned);
      CommitteeOf(c, s, h);
      StampedCount(c, s, h);
      assert Stamped(b) !! StampingTurns(c, s, f, b.prevHash);
    }
  }

  /** What one block adds to its branch. */
  lemma BlockWeighs(c: Chain, s: Store, f: Hash, h: Hash)
    requires Valid(c, s) && Known(c, s.blocks, h) && IsAncestor(c, s.blocks, f, h) && f != h
    ensures h in s.blocks && var b := s.blocks[h];
            && Known(c, s.blocks, b.prevHash) && IsAncestor(c, s.blocks, f, b.prevHash)
            && Rank(s.blocks, b.prevHash) < Rank(s.blocks, h)
            && Above(c, s.blocks, f, h) == [b] + Above(c, s.blocks, f, b.prevHash)
            && CumulativeAt(c, s.blocks, h) ==
               CumulativeAt(c, s.blocks, b.prevHash) + |b.stamps| * c.params.StampWeight()
            && |b.stamps| >= c.params.Threshold()
  {
    hide TheDraw, Indexed, StampsHold, HardeningParams.Threshold, HardeningParams.StampWeight;
    assert Passes(c, s.blocks, s.blocks[h]);
    StampedCount(c, s, h);
  }

  lemma {:induction false} WeighAbove(c: Chain, s: Store, f: Hash, h: Hash)
    requires Valid(c, s) && Known(c, s.blocks, h) && IsAncestor(c, s.blocks, f, h)
    ensures var above := Above(c, s.blocks, f, h);
            && CumulativeAt(c, s.blocks, h) == CumulativeAt(c, s.blocks, f) + StampsIn(above) * c.params.StampWeight()
            && StampsIn(above) >= |above| * c.params.Threshold()
    decreases Rank(s.blocks, h)
  {
    hide TheDraw, Indexed, Rooted, Passes, HardeningParams.Threshold, HardeningParams.StampWeight, CumulativeAt, Known;
    if f != h {
      BlockWeighs(c, s, f, h);
      var b := s.blocks[h];
      WeighAbove(c, s, f, b.prevHash);
      var below := Above(c, s.blocks, f, b.prevHash);
      assert ([b] + below)[1..] == below;
      Distribute(|below|, 1, c.params.Threshold());
      Distribute(StampsIn(below), |b.stamps|, c.params.StampWeight());
    }
  }

  /** The rewrite ceiling: d blocks stamped only by an owned set of turns use up at least d * threshold of
      those that were unspent at the fork. */
  lemma RewriteCeiling(c: Chain, s: Store, f: Hash, h: Hash, owned: set<nat>)
    requires Valid(c, s) && Known(c, s.blocks, h) && IsAncestor(c, s.blocks, f, h)
    requires StampedOnlyBy(Above(c, s.blocks, f, h), owned)
    ensures (HeightAt(c, s.blocks, h) - HeightAt(c, s.blocks, f)) * c.params.Threshold() <= |owned - Spent(c,
            s.blocks, f)|
  {
    StampingTurnsCount(c, s, f, h, owned);
    WeighAbove(c, s, f, h);
    AboveIsCutFromBranch(c, s.blocks, f, h);
    Subset(StampingTurns(c, s, f, h), owned - Spent(c, s.blocks, f));
  }

  /** To outweigh d blocks above a fork, with a branch of any length, an owned set must have had at least
      d * threshold turns unspent at that fork. */
  lemma OvertakingCost(c: Chain, s: Store, f: Hash, tip: Hash, rival: Hash, owned: set<nat>)
    requires Valid(c, s) && Known(c, s.blocks, tip) && Known(c, s.blocks, rival)
    requires IsAncestor(c, s.blocks, f, tip) && IsAncestor(c, s.blocks, f, rival)
    requires StampedOnlyBy(Above(c, s.blocks, f, rival), owned)
    requires CumulativeAt(c, s.blocks, rival) >= CumulativeAt(c, s.blocks, tip)
    ensures (HeightAt(c, s.blocks, tip) - HeightAt(c, s.blocks, f)) * c.params.Threshold() <= |owned - Spent(c,
            s.blocks, f)|
  {
    hide StampedOnlyBy, Passes, TheDraw, Indexed, HardeningParams.Threshold, HardeningParams.StampWeight;
    StampingTurnsCount(c, s, f, rival, owned);
    WeighAbove(c, s, f, rival);
    WeighAbove(c, s, f, tip);
    AboveIsCutFromBranch(c, s.blocks, f, tip);
    Subset(StampingTurns(c, s, f, rival), owned - Spent(c, s.blocks, f));
    var mine, theirs := Above(c, s.blocks, f, tip), Above(c, s.blocks, f, rival);
    Outweighed(CumulativeAt(c, s.blocks, f), CumulativeAt(c, s.blocks, tip), CumulativeAt(c, s.blocks, rival),
               StampsIn(mine), StampsIn(theirs), c.params.StampWeight());
    assert |mine| * c.params.Threshold() <= |owned - Spent(c, s.blocks, f)|;
    assert |mine| == HeightAt(c, s.blocks, tip) - HeightAt(c, s.blocks, f);
  }

  lemma Outweighed(base: int, mine: int, theirs: int, a: nat, b: nat, w: nat)
    requires w > 0 && mine == base + a * w && theirs == base + b * w && theirs >= mine
    ensures a <= b
  {
    Cancel(a, b, w);
  }

  lemma Cancel(a: nat, b: nat, w: nat)
    requires w > 0 && a * w <= b * w
    ensures a <= b
  {
    if a > b {
      MulStrict(b, a, w);
    }
  }

  lemma Distribute(a: int, b: int, w: int)
    ensures (a + b) * w == a * w + b * w
  {
  }

  lemma MulStrict(b: nat, a: nat, w: nat)
    requires w > 0 && b < a
    ensures b * w < a * w
  {
  }

  // ---- the heaviest tip ----

  ghost predicate Beats(c: Chain, blocks: Blocks, h: Hash, k: Hash) {
    var a, b := CumulativeAt(c, blocks, h), CumulativeAt(c, blocks, k);
    a > b || (a == b && h < k)
  }

  /** Greatest cumulative weight, least hash on ties, genesis among the candidates. */
  ghost predicate IsBest(c: Chain, blocks: Blocks, h: Hash) {
    Known(c, blocks, h) && forall k | Known(c, blocks, k) && k != h :: Beats(c, blocks, h, k)
  }

  lemma BestIsUnique(c: Chain, blocks: Blocks, g: Hash, h: Hash)
    requires IsBest(c, blocks, g) && IsBest(c, blocks, h)
    ensures g == h
  {
    assert g != h ==> Beats(c, blocks, g, h);
    assert g != h ==> Beats(c, blocks, h, g);
  }
}
