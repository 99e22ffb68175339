/**
 The hardened chain as a store of blocks, and what `check` asks of one more (chain/hardening/history.py).
 */
module History {
  import opened Basics
  import opened Seats
  import opened EraPool
  import opened Stamps
  import opened Draw

  /** `max(1, ceil(width * num / den))` stamps make a block; each weighs 2^difficulty. */
  datatype HardeningParams = HardeningParams(width: nat, thresholdNum: nat, thresholdDen: nat, difficultyBits: nat) {
    predicate Valid() {
      width >= 1 && thresholdDen > 0
    }

    function Threshold(): (t: nat)
      requires Valid()
      ensures t >= 1
    {
      var n := (width * thresholdNum + thresholdDen - 1) / thresholdDen;
      if n > 1 then n else 1
    }

    function StampWeight(): (w: nat)
      ensures w > 0
    {
      Pow2(difficultyBits)
    }
  }

  /** The seal root over a sorted list of turns, which the set determines. */
  datatype TurnRoot = RootOfTurns(turns: set<nat>) | OtherRoot(value: int)

  datatype HardenedBlock = HardenedBlock(
    blockHash: Hash, height: int, prevHash: Hash, eraId: int, drawn: seq<nat>, stamps: seq<Stamp>,
    weight: int, cumulative: int, spentRoot: TurnRoot)

  /** What one history is opened with. */
  datatype Chain = Chain(spec: EraSpec, params: HardeningParams, genesis: Hash, probes: Probes, puzzle: Puzzle)

  type Blocks = map<Hash, HardenedBlock>

  // ---- the tree of blocks ----

  predicate Known(c: Chain, blocks: Blocks, h: Hash) {
    h == c.genesis || h in blocks
  }

  function HeightAt(c: Chain, blocks: Blocks, h: Hash): int {
    if h == c.genesis then 0 else if h in blocks then blocks[h].height else 0
  }

  function CumulativeAt(c: Chain, blocks: Blocks, h: Hash): int {
    if h == c.genesis then 0 else if h in blocks then blocks[h].cumulative else 0
  }

  /** Every block hangs from genesis or from a block one lower. */
  ghost predicate Rooted(c: Chain, blocks: Blocks) {
    && c.genesis !in blocks
    && forall h {:trigger blocks[h]} | h in blocks ::
         && blocks[h].blockHash == h && Known(c, blocks, blocks[h].prevHash)
         && blocks[h].height == HeightAt(c, blocks, blocks[h].prevHash) + 1 && blocks[h].height > 0
  }

  function Rank(blocks: Blocks, h: Hash): nat {
    if h in blocks && blocks[h].height > 0 then blocks[h].height else 0
  }

  /** From a block back to genesis, newest first; an unknown hash is on no branch. */
  ghost function Branch(c: Chain, blocks: Blocks, h: Hash): seq<HardenedBlock>
    requires Rooted(c, blocks)
    decreases Rank(blocks, h)
  {
    if h == c.genesis || h !in blocks then [] else [blocks[h]] + Branch(c, blocks, blocks[h].prevHash)
  }

  /** The turns consumed on the branch that ends in `h`. */
  ghost function Spent(c: Chain, blocks: Blocks, h: Hash): set<nat>
    requires Rooted(c, blocks)
    decreases Rank(blocks, h)
  {
    if h == c.genesis || h !in blocks then {} else SetOf<nat>(blocks[h].drawn) + Spent(c, blocks, blocks[h].prevHash)
  }

  // ---- what check asks ----

  function SeedOn(c: Chain, height: int, prevHash: Hash): DrawSeed {
    DrawSeed(prevHash, height, c.spec.root)
  }

  ghost function CommitteeOn(c: Chain, blocks: Blocks, prevHash: Hash): Drawing
    requires Rooted(c, blocks)
  {
    TheDraw(c.probes, SeedOn(c, HeightAt(c, blocks, prevHash) + 1, prevHash), c.spec.turns, Spent(c, blocks, prevHash),
            c.params.width)
  }

  function AnchorOf(c: Chain, blockHash: Hash, height: int): Anchor {
    Anchor(blockHash, height, c.spec.root)
  }

  predicate StampHolds(c: Chain, hb: HardenedBlock, stamp: Stamp) {
    stamp.leafIndex in hb.drawn && Accepts(c.spec, stamp, AnchorOf(c, hb.blockHash, hb.height),
                                           c.params.difficultyBits, c.puzzle)
  }

  /** No turn stamps twice, every stamp is a drawn turn's and verifies. */
  ghost predicate StampsHold(c: Chain, hb: HardenedBlock) {
    && (forall i | 0 <= i < |hb.stamps| :: StampHolds(c, hb, hb.stamps[i]))
    && (forall i, j | 0 <= i < j < |hb.stamps| :: hb.stamps[i].leafIndex != hb.stamps[j].leafIndex)
  }

  ghost predicate Passes(c: Chain, blocks: Blocks, hb: HardenedBlock)
    requires Rooted(c, blocks) && c.params.Valid()
  {
    && hb.eraId == c.spec.eraId
    && Known(c, blocks, hb.prevHash)
    && hb.height == HeightAt(c, blocks, hb.prevHash) + 1
    && CommitteeOn(c, blocks, hb.prevHash) == Drawn(hb.drawn)
    && StampsHold(c, hb)
    && |hb.stamps| >= c.params.Threshold()
    && hb.weight == |hb.stamps| * c.params.StampWeight()
    && hb.cumulative == CumulativeAt(c, blocks, hb.prevHash) + hb.weight
    && hb.spentRoot == RootOfTurns(Spent(c, blocks, hb.prevHash) + SetOf<nat>(hb.drawn))
  }

  // ---- the store ----

  datatype Store = Store(blocks: Blocks, children: map<Hash, seq<Hash>>)

  function ChildrenOf(s: Store, h: Hash): seq<Hash> {
    if h in s.children then s.children[h] else []
  }

  /** `children` lists each block once, under its parent. */
  ghost predicate Indexed(s: Store) {
    && (forall p, h :: h in ChildrenOf(s, p) <==> h in s.blocks && s.blocks[h].prevHash == p)
    && (forall p :: Distinct(ChildrenOf(s, p)))
  }

  /** The state every reachable history is in: a tree from genesis in which every block still passes. */
  ghost predicate Valid(c: Chain, s: Store) {
    && c.params.Valid() && Rooted(c, s.blocks) && Indexed(s)
    && forall h {:trigger s.blocks[h]} | h in s.blocks :: Passes(c, s.blocks, s.blocks[h])
  }

  function Insert(s: Store, hb: HardenedBlock): Store {
    Store(s.blocks[hb.blockHash := hb], s.children[hb.prevHash := ChildrenOf(s, hb.prevHash) + [hb.blockHash]])
  }

  const Blank := Store(map[], map[])

  lemma BlankIsValid(c: Chain)
    requires c.params.Valid()
    ensures Valid(c, Blank)
  {
  }

  predicate IsFresh(c: Chain, s: Store, h: Hash) {
    h != c.genesis && h !in s.blocks
  }

  // ---- adding a fresh block changes no branch ----

  lemma InsertKeepsRooted(c: Chain, s: Store, hb: HardenedBlock)
    requires Rooted(c, s.blocks) && IsFresh(c, s, hb.blockHash)
    requires Known(c, s.blocks, hb.prevHash) && hb.height == HeightAt(c, s.blocks, hb.prevHash) + 1
    ensures Rooted(c, Insert(s, hb).blocks)
  {
    var after := Insert(s, hb).blocks;
    assert hb.prevHash != hb.blockHash;
    assert HeightAt(c, s.blocks, hb.prevHash) >= 0;
    forall h | h in after
      ensures after[h].blockHash == h && Known(c, after, after[h].prevHash)
      ensures after[h].height == HeightAt(c, after, after[h].prevHash) + 1 && after[h].height > 0
    {
      if h != hb.blockHash {
        assert after[h] == s.blocks[h];
      }
    }
  }

  lemma {:induction false} InsertKeepsBranch(c: Chain, s: Store, hb: HardenedBlock, h: Hash)
    requires Rooted(c, s.blocks) && Rooted(c, Insert(s, hb).blocks) && IsFresh(c, s, hb.blockHash)
             && Known(c, s.blocks, h)
    ensures var after := Insert(s, hb).blocks;
            && Known(c, after, h) && HeightAt(c, after, h) == HeightAt(c, s.blocks, h)
            && CumulativeAt(c, after, h) == CumulativeAt(c, s.blocks, h)
            && Branch(c, after, h) == Branch(c, s.blocks, h) && Spent(c, after, h) == Spent(c, s.blocks, h)
    decreases Rank(s.blocks, h)
  {
    if h != c.genesis {
      InsertKeepsBranch(c, s, hb, s.blocks[h].prevHash);
    }
  }

  lemma InsertKeepsPasses(c: Chain, s: Store, hb: HardenedBlock, b: HardenedBlock)
    requires Rooted(c, s.blocks) && Rooted(c, Insert(s, hb).blocks) && IsFresh(c, s, hb.blockHash) && c.params.Valid()
    requires Passes(c, s.blocks, b)
    ensures Passes(c, Insert(s, hb).blocks, b) == true
  {
    InsertKeepsBranch(c, s, hb, b.prevHash);
  }

  lemma InsertKeepsIndexed(c: Chain, s: Store, hb: HardenedBlock)
    requires Indexed(s) && IsFresh(c, s, hb.blockHash)
    ensures Indexed(Insert(s, hb))
  {
    var after := Insert(s, hb);
    forall p ensures Distinct(ChildrenOf(after, p)) {
      assert hb.blockHash !in ChildrenOf(s, p);
    }
    forall p, h ensures h in ChildrenOf(after, p) <==> h in after.blocks && after.blocks[h].prevHash == p {
      var more := if p == hb.prevHash then [hb.blockHash] else [];
      assert ChildrenOf(after, p) == ChildrenOf(s, p) + more;
      assert h in ChildrenOf(s, p) <==> h in s.blocks && s.blocks[h].prevHash == p;
    }
  }

  lemma InsertKeepsValid(c: Chain, s: Store, hb: HardenedBlock)
    requires Valid(c, s) && Passes(c, s.blocks, hb) && IsFresh(c, s, hb.blockHash)
    ensures Valid(c, Insert(s, hb))
  {
    InsertKeepsRooted(c, s, hb);
    InsertKeepsIndexed(c, s, hb);
    var after := Insert(s, hb).blocks;
    forall h | h in after ensures Passes(c, after, after[h]) {
      InsertKeepsPasses(c, s, hb, after[h]);
    }
  }

  /** A block that passes keeps the store a tree exactly when its hash is new and not genesis. `restore`
      skips hashes it holds; `accept` has no such guard, so a second delivery of a block breaks the index. */
  lemma InsertValidIff(c: Chain, s: Store, hb: HardenedBlock)
    requires Valid(c, s) && Passes(c, s.blocks, hb)
    ensures Valid(c, Insert(s, hb)) <==> IsFresh(c, s, hb.blockHash)
  {
    var after := Insert(s, hb);
    if IsFresh(c, s, hb.blockHash) {
      InsertKeepsValid(c, s, hb);
    } else if hb.blockHash in s.blocks {
      RepeatBreaksIndex(c, s, hb);
    } else {
      assert c.genesis in after.blocks;
    }
  }

  lemma RepeatBreaksIndex(c: Chain, s: Store, hb: HardenedBlock)
    requires Indexed(s) && hb.blockHash in s.blocks
    ensures !Indexed(Insert(s, hb))
  {
    var h, was, after := hb.blockHash, s.blocks[hb.blockHash].prevHash, Insert(s, hb);
    assert h in ChildrenOf(s, was);
    if was == hb.prevHash {
      var list := ChildrenOf(s, was);
      var i :| 0 <= i < |list| && list[i] == h;
      assert ChildrenOf(after, was)[i] == h && ChildrenOf(after, was)[|list|] == h;
      assert !Distinct(ChildrenOf(after, was));
    } else {
      assert h in ChildrenOf(after, was) && after.blocks[h].prevHash != was;
    }
  }

  /** Every block a history holds passes again, so delivering any of them a second time is an input `accept` takes that
      breaks the index. */
  lemma HeldBlockPassesAgain(c: Chain, s: Store, h: Hash)
    requires Valid(c, s) && h in s.blocks
    ensures Passes(c, s.blocks, s.blocks[h]) && s.blocks[h].blockHash == h && !Valid(c, Insert(s, s.blocks[h]))
  {
    InsertValidIff(c, s, s.blocks[h]);
  }

  /** A passing block that claims a held hash on top of that block's own child closes a loop: once in, its walk never
      reaches genesis. */
  lemma RepeatMakesCycle(c: Chain, s: Store, hb: HardenedBlock)
    requires Valid(c, s) && Passes(c, s.blocks, hb) && hb.blockHash in s.blocks
    requires hb.prevHash in s.blocks && s.blocks[hb.prevHash].prevHash == hb.blockHash
    ensures var after := Insert(s, hb).blocks;
            && after[after[hb.blockHash].prevHash].prevHash == hb.blockHash
            && !Rooted(c, after)
  {
    hide Passes, Indexed;
    var after := Insert(s, hb).blocks;
    assert s.blocks[hb.prevHash].height == s.blocks[hb.blockHash].height + 1;
    assert hb.prevHash != hb.blockHash;
    assert after[hb.prevHash] == s.blocks[hb.prevHash] && after[hb.blockHash] == hb;
  }
}
