/**
 Histories that exist (chain/hardening/history.py): eras, stamps and blocks put together, down to a node that halts and,
 restarted from its own log, stands elsewhere.
 */
module HistoryWitnesses {
  import opened Basics
  import opened Seats
  import opened Digests
  import opened Wots
  import opened EraPool
  import opened Stamps
  import opened Draw
  import opened History
  import opened HistoryTheorems
  import opened NetworkHistory
  import opened HistoryRuns

  // ---- eras and stamps ----

  /** Every number of turns that fits in a tree has an era. */
  lemma EraExists(turns: nat, treeHeight: nat) returns (era: Era)
    requires turns <= Pow2(treeHeight)
    ensures era.Built() && era.turns == turns && era.levels != [] && era.levels[|era.levels| - 1] != []
  {
    hide Sub, Pow2;
    var blank := Era(0, 0, treeHeight, turns, []);
    var leaves := blank.Leaves();
    var levels := seq(treeHeight + 1, k requires 0 <= k <= treeHeight =>
                        seq(Pow2(treeHeight - k), i requires 0 <= i < Pow2(treeHeight - k) => Sub(leaves, k, i)));
    era := blank.(levels := levels);
    assert era.Leaves() == leaves;
    era.SpecIsRoot();
  }

  lemma {:induction false} BigEndianBelow(m: seq<Byte>)
    ensures BigEndian(m) < Pow2(8 * |m|)
  {
    if m != [] {
      BigEndianBelow(m[..|m| - 1]);
      var k := 8 * (|m| - 1);
      assert Pow2(k + 8) == 2 * Pow2(k + 7) && Pow2(k + 7) == 2 * Pow2(k + 6) && Pow2(k + 6) == 2 * Pow2(k + 5)
        && Pow2(k + 5) == 2 * Pow2(k + 4);
      assert Pow2(k + 4) == 2 * Pow2(k + 3) && Pow2(k + 3) == 2 * Pow2(k + 2) && Pow2(k + 2) == 2 * Pow2(k + 1)
        && Pow2(k + 1) == 2 * Pow2(k);
    }
  }

  /** At difficulty zero every turn of an era can stamp any anchor. */
  lemma StampExists(era: Era, turn: nat, anchor: Anchor, puzzle: Puzzle) returns (stamp: Stamp)
    requires era.Built() && turn < era.turns <= FOUR_BYTES
    ensures stamp.leafIndex == turn && era.levels != [] && era.levels[|era.levels| - 1] != []
    ensures Accepts(era.Spec(), stamp, anchor, 0, puzzle)
  {
    hide Sub, Era.Leaves, SignatureOf, Pow2, BigEndian;
    var path := seq(era.treeHeight, l requires 0 <= l < era.treeHeight =>
                      Sub(era.Leaves(), l, Sibling(Ancestor(turn, l))));
    stamp := Stamp(turn, 0, path, SignatureOf(era.master, era.Seed(), turn, puzzle(anchor, turn, 0)));
    BigEndianBelow(puzzle(anchor, turn, 0));
    MinedIsAccepted(era, stamp, anchor, 0, puzzle);
  }

  lemma {:induction false} StampsExist(era: Era, turns: seq<nat>, anchor: Anchor, puzzle: Puzzle)
    returns (stamps: seq<Stamp>)
    requires era.Built() && era.turns <= FOUR_BYTES && forall t <- turns :: t < era.turns
    ensures era.levels != [] && era.levels[|era.levels| - 1] != [] && |stamps| == |turns|
    ensures forall i | 0 <= i < |turns| ::
              stamps[i].leafIndex == turns[i] && Accepts(era.Spec(), stamps[i], anchor, 0, puzzle)
  {
    era.SpecIsRoot();
    hide Accepts, Era.Built, Era.Spec;
    if turns == [] {
      stamps := [];
    } else {
      var most := turns[..|turns| - 1];
      forall t | t in most ensures t < era.turns {
        assert t in turns;
      }
      assert turns[|turns| - 1] in turns;
      var front := StampsExist(era, most, anchor, puzzle);
      var last := StampExists(era, turns[|turns| - 1], anchor, puzzle);
      stamps := front + [last];
    }
  }

  // ---- an easy chain, and blocks on it ----

  /** Genesis is hash 0, the probes count up, a stamp costs nothing, and one of `width` stamps is enough. */
  ghost function Easy(era: Era, width: nat, puzzle: Puzzle): Chain
    requires era.levels != [] && era.levels[|era.levels| - 1] != []
  {
    Chain(era.Spec(), HardeningParams(width, 1, width, 0), 0, (seed: DrawSeed, k: nat) => k, puzzle)
  }

  lemma EasyThreshold(width: nat)
    requires width > 0
    ensures var params := HardeningParams(width, 1, width, 0);
              params.Valid() && params.Threshold() == 1 && params.StampWeight() == 1
  {
    assert (width * 1 + width - 1) / width == 1;
  }

  function TurnsBelow(n: nat): set<nat> {
    if n == 0 then {} else TurnsBelow(n - 1) + {n - 1}
  }

  lemma {:induction false} BelowAre(n: nat)
    ensures |TurnsBelow(n)| == n && forall t: nat :: t in TurnsBelow(n) <==> t < n
  {
    if n > 0 {
      BelowAre(n - 1);
    }
  }

  /** Probes that count up show every unspent turn. */
  lemma CountingDraws(probes: Probes, seed: DrawSeed, turns: nat, spent: set<nat>, width: nat)
    requires (forall k: nat :: probes(seed, k) == k) && width > 0 && |spent| + width <= turns
             && forall t <- spent :: t < turns
    ensures TheDraw(probes, seed, turns, spent, width).Drawn?
  {
    hide TurnsBelow, Limit, Pointed, Fresh, TurnAt;
    CountingShows(probes, seed, turns, spent, 64 * width + 64 + 4 * turns + 1);
    ExhaustedIff(probes, seed, turns, spent, width);
  }

  lemma CountingShows(probes: Probes, seed: DrawSeed, turns: nat, spent: set<nat>, limit: nat)
    requires (forall k: nat :: probes(seed, k) == k) && |spent| < turns <= limit && forall t <- spent :: t < turns
    ensures |Fresh(probes, seed, turns, spent, limit)| >= turns - |spent|
  {
    hide TurnsBelow, Fresh, TurnAt;
    BelowAre(turns);
    var all := TurnsBelow(turns);
    forall t | t in all - spent ensures t in Fresh(probes, seed, turns, spent, limit) {
      PointsAtItself(probes, seed, turns, spent, limit, t);
    }
    Subset(all - spent, Fresh(probes, seed, turns, spent, limit));
    assert |all - spent| == |all| - |all * spent| && all * spent == spent;
  }

  lemma PointsAtItself(probes: Probes, seed: DrawSeed, turns: nat, spent: set<nat>, limit: nat, t: nat)
    requires probes(seed, t) == t && t < turns <= limit && t !in spent
    ensures t in Fresh(probes, seed, turns, spent, limit)
  {
    assert TurnAt(probes, seed, turns, t) == t;
  }

  /** On an easy chain a block with any number of stamps up to the width fits on any branch the pool still serves. */
  lemma BlockExists(era: Era, width: nat, puzzle: Puzzle, s: Store, prev: Hash, hash: Hash, count: nat)
    returns (hb: HardenedBlock)
    requires era.Built() && era.levels != [] && era.levels[|era.levels| - 1] != [] && era.turns <= FOUR_BYTES
             && 0 < count <= width
    requires var c := Easy(era, width, puzzle);
             Valid(c, s) && Known(c, s.blocks, prev) && (HeightAt(c, s.blocks, prev) + 1) * width <= era.turns
    ensures var c := Easy(era, width, puzzle);
            && Passes(c, s.blocks, hb) && hb.blockHash == hash && hb.prevHash == prev && |hb.stamps| == count
            && hb.cumulative == CumulativeAt(c, s.blocks, prev) + count && hb.height == HeightAt(c, s.blocks, prev) + 1
  {
    hide Era.Built, Era.Spec, Rooted, Indexed, Accepts, Spent, TheDraw, HardeningParams.Threshold, HeightAt, SetOf;
    hide Pow2, SeedOn;
    var c := Easy(era, width, puzzle);
    var spent, height := Spent(c, s.blocks, prev), HeightAt(c, s.blocks, prev) + 1;
    BranchCounts(c, s, prev);
    TurnsOfSpec(era);
    Distribute(height - 1, 1, width);
    CountingDraws(c.probes, SeedOn(c, height, prev), era.turns, spent, width);
    var drawn := CommitteeOn(c, s.blocks, prev).turns;
    CommitteeIsFresh(c.probes, SeedOn(c, height, prev), era.turns, spent, width);
    assert forall t <- drawn[..count] :: t in drawn;
    var stamps := StampsExist(era, drawn[..count], AnchorOf(c, hash, height), puzzle);
    EasyThreshold(width);
    hb := HardenedBlock(hash, height, prev, c.spec.eraId, drawn, stamps, count, CumulativeAt(c, s.blocks, prev) + count,
                        RootOfTurns(spent + SetOf<nat>(drawn)));
    assert StampsHold(c, hb);
  }

  lemma TurnsOfSpec(era: Era)
    requires era.levels != [] && era.levels[|era.levels| - 1] != []
    ensures era.Spec().turns == era.turns
  {
  }

  // ---- a play that halts ----

  /** One branch of `n` blocks, each with one stamp, hashes 1 to n: its end is the best tip. */
  ghost predicate Line(c: Chain, s: Store, n: nat) {
    && Valid(c, s) && c.genesis == 0 && Known(c, s.blocks, n) && IsBest(c, s.blocks, n)
    && HeightAt(c, s.blocks, n) == n == CumulativeAt(c, s.blocks, n)
    && forall h {:trigger h in s.blocks} :: h in s.blocks ==> h <= n
  }

  /** A fresh block heavier than the best becomes the best. */
  lemma HeavierIsBest(c: Chain, s: Store, tip: Hash, hb: HardenedBlock)
    requires Rooted(c, s.blocks) && IsBest(c, s.blocks, tip) && IsFresh(c, s, hb.blockHash)
             && hb.cumulative > CumulativeAt(c, s.blocks, tip)
    ensures IsBest(c, Insert(s, hb).blocks, hb.blockHash)
  {
    hide Rooted;
    var after := Insert(s, hb).blocks;
    forall k | Known(c, after, k) && k != hb.blockHash ensures Beats(c, after, hb.blockHash, k) {
      assert Known(c, s.blocks, k) && CumulativeAt(c, after, k) == CumulativeAt(c, s.blocks, k);
      assert k != tip ==> Beats(c, s.blocks, tip, k);
    }
  }

  /** An old block's ancestors are old blocks. */
  lemma {:induction false} FreshIsNoAncestor(c: Chain, s: Store, hb: HardenedBlock, h: Hash)
    requires Rooted(c, s.blocks) && Rooted(c, Insert(s, hb).blocks) && IsFresh(c, s, hb.blockHash)
             && Known(c, s.blocks, h)
    ensures !IsAncestor(c, Insert(s, hb).blocks, hb.blockHash, h)
    decreases Rank(s.blocks, h)
  {
    if h != c.genesis {
      FreshIsNoAncestor(c, s, hb, s.blocks[h].prevHash);
    }
  }

  /** The fork of the old tip and a block on top of it is the tip. */
  lemma ForkOnTip(c: Chain, blocks: Blocks, tip: Hash, next: Hash)
    requires Rooted(c, blocks) && next in blocks && blocks[next].prevHash == tip
    ensures IsFork(c, blocks, tip, next, tip)
  {
    assert IsAncestor(c, blocks, tip, tip);
  }

  /** The fork of an old tip and a fresh block on genesis is genesis. */
  lemma ForkAtGenesis(c: Chain, s: Store, tip: Hash, hb: HardenedBlock)
    requires Rooted(c, s.blocks) && Rooted(c, Insert(s, hb).blocks) && IsFresh(c, s, hb.blockHash)
             && Known(c, s.blocks, tip) && hb.prevHash == c.genesis
    ensures IsFork(c, Insert(s, hb).blocks, tip, hb.blockHash, c.genesis)
  {
    var after := Insert(s, hb).blocks;
    GenesisIsAncestor(c, after, tip);
    GenesisIsAncestor(c, after, hb.blockHash);
    FreshIsNoAncestor(c, s, hb, tip);
    forall g | IsAncestor(c, after, g, tip) && IsAncestor(c, after, g, hb.blockHash)
      ensures IsAncestor(c, after, g, c.genesis) {
      assert g != hb.blockHash;
    }
  }

  lemma LineGrows(c: Chain, s: Store, n: nat, hb: HardenedBlock, limit: nat)
    requires Line(c, s, n) && Passes(c, s.blocks, hb) && hb.blockHash == n + 1 && hb.prevHash == n
             && hb.cumulative == hb.height == n + 1
    ensures IsFresh(c, s, hb.blockHash) && Line(c, Insert(s, hb), n + 1)
    ensures Moved(c, Insert(s, hb).blocks, limit, Position(n, None), Position(n + 1, None))
  {
    hide Passes, Indexed, Rooted, IsBest, IsFork;
    InsertKeepsValid(c, s, hb);
    HeavierIsBest(c, s, n, hb);
    ForkOnTip(c, Insert(s, hb).blocks, n, n + 1);
    assert Retipped(c, Insert(s, hb).blocks, limit, n, None, n + 1, None, n + 1, n);
  }

  lemma RivalHalts(c: Chain, s: Store, n: nat, hb: HardenedBlock, limit: nat) returns (halt: Halt)
    requires Line(c, s, n) && Passes(c, s.blocks, hb) && hb.blockHash == n + 1 && hb.prevHash == 0
             && hb.cumulative > n > limit
    ensures IsFresh(c, s, hb.blockHash) && Rooted(c, Insert(s, hb).blocks)
    ensures Moved(c, Insert(s, hb).blocks, limit, Position(n, None), Position(n, Some(halt)))
  {
    hide Passes, Indexed, Rooted, IsBest, IsFork;
    InsertKeepsValid(c, s, hb);
    HeavierIsBest(c, s, n, hb);
    ForkAtGenesis(c, s, n, hb);
    halt := Halt(n, limit, 0, 0);
    assert Retipped(c, Insert(s, hb).blocks, limit, n, None, n, Some(halt), n + 1, 0);
  }

  /** Grow the line past the limit, then deliver a rival on genesis with enough stamps to outweigh it. */
  lemma {:induction false} HaltsFrom(era: Era, puzzle: Puzzle, limit: nat, s: Store, n: nat)
    returns (bs: seq<HardenedBlock>, play: seq<Position>)
    requires era.Built() && era.levels != [] && era.levels[|era.levels| - 1] != [] && era.turns <= FOUR_BYTES
    requires (limit + 2) * (limit + 2) <= era.turns && n <= limit + 1 && Line(Easy(era, limit + 2, puzzle), s, n)
    ensures var c := Easy(era, limit + 2, puzzle);
            && Deliverable(c, s, bs) && IsPlay(c, limit, s, bs, play) && play[0] == Position(n, None)
            && play[|bs|].tip == limit + 1 && play[|bs|].halt.Some?
    decreases limit + 1 - n
  {
    hide Passes, Indexed, Rooted, Moved, Retipped, IsBest, Era.Built;
    var c := Easy(era, limit + 2, puzzle);
    if n <= limit {
      MulMonotone(n + 1, limit + 2, limit + 2);
      var hb := BlockExists(era, limit + 2, puzzle, s, n, n + 1, 1);
      LineGrows(c, s, n, hb, limit);
      InsertKeepsValid(c, s, hb);
      var rest, later := HaltsFrom(era, puzzle, limit, Insert(s, hb), n + 1);
      bs, play := [hb] + rest, [Position(n, None)] + later;
      assert bs[1..] == rest && play[1..] == later;
    } else {
      MulMonotone(1, limit + 2, limit + 2);
      var hb := BlockExists(era, limit + 2, puzzle, s, 0, n + 1, limit + 2);
      var halt := RivalHalts(c, s, n, hb, limit);
      InsertKeepsValid(c, s, hb);
      bs, play := [hb], [Position(n, None), Position(n, Some(halt))];
      assert bs[1..] == [] && play[1..] == [Position(n, Some(halt))];
    }
  }

  lemma {:induction false} PowAbove(n: nat)
    ensures n < Pow2(n)
  {
    if n > 0 {
      PowAbove(n - 1);
    }
  }

  lemma BlankIsLine(c: Chain)
    requires c.params.Valid() && c.genesis == 0
    ensures Line(c, Blank, 0)
  {
    BlankIsValid(c);
  }

  /** Whatever the limit, up to what four bytes of turns allow: a chain, blocks in an order a node takes them, and a
      play of them that halts. */
  lemma SomePlayHalts(limit: nat) returns (c: Chain, bs: seq<HardenedBlock>, play: seq<Position>)
    requires (limit + 2) * (limit + 2) <= FOUR_BYTES
    ensures Valid(c, Blank) && Deliverable(c, Blank, bs) && PlaysFrom(c, limit, bs, play) && play[|bs|].halt.Some?
  {
    hide Passes, Indexed, Rooted, Moved, Era.Built, IsBest;
    var turns := (limit + 2) * (limit + 2);
    PowAbove(turns);
    var era := EraExists(turns, turns);
    var puzzle: Puzzle := (anchor: Anchor, turn: int, nonce: int) => seq(N, _ => 0);
    c := Easy(era, limit + 2, puzzle);
    EasyThreshold(limit + 2);
    BlankIsLine(c);
    bs, play := HaltsFrom(era, puzzle, limit, Blank, 0);
  }

  /** A valid history that holds a block with fewer stamps than the width. */
  lemma SomeBlockIsUnderStamped(width: nat) returns (c: Chain, s: Store, h: Hash)
    requires 2 <= width <= FOUR_BYTES
    ensures Valid(c, s) && c.params.width == width && h in s.blocks && !FullyStamped(c, s.blocks[h])
  {
    hide Passes, Indexed, Rooted, Era.Built;
    PowAbove(width);
    var era := EraExists(width, width);
    var puzzle: Puzzle := (anchor: Anchor, turn: int, nonce: int) => seq(N, _ => 0);
    c := Easy(era, width, puzzle);
    EasyThreshold(width);
    BlankIsValid(c);
    var hb := BlockExists(era, width, puzzle, Blank, 0, 1, 1);
    InsertKeepsValid(c, Blank, hb);
    s, h := Insert(Blank, hb), 1;
  }
}
