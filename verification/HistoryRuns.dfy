/**
 Whole runs of a history: the same blocks in any parent-first order lead to the same tip, and what an
 adversary must own to move it.
 */
module HistoryRuns {
  import opened Basics
  import opened Seats
  import opened Stamps
  import opened Draw
  import opened History
  import opened HistoryTheorems
  import opened NetworkHistory

  /** Each block passes, and is new, when its turn comes. */
  ghost predicate Deliverable(c: Chain, s: Store, bs: seq<HardenedBlock>)
    requires Valid(c, s)
    decreases |bs|
  {
    bs == [] ||
    (Passes(c, s.blocks, bs[0]) && IsFresh(c, s, bs[0].blockHash)
     && (InsertKeepsValid(c, s, bs[0]); Deliverable(c, Insert(s, bs[0]), bs[1..])))
  }

  function Delivered(s: Store, bs: seq<HardenedBlock>): Store
    decreases |bs|
  {
    if bs == [] then s else Delivered(Insert(s, bs[0]), bs[1..])
  }

  lemma {:induction false} Stays(c: Chain, s: Store, bs: seq<HardenedBlock>, h: Hash)
    requires Valid(c, s) && Deliverable(c, s, bs) && h in s.blocks
    ensures h in Delivered(s, bs).blocks && Delivered(s, bs).blocks[h] == s.blocks[h]
    decreases |bs|
  {
    hide Passes, Indexed;
    if bs != [] {
      InsertKeepsValid(c, s, bs[0]);
      Stays(c, Insert(s, bs[0]), bs[1..], h);
    }
  }

  lemma {:induction false} Arrives(c: Chain, s: Store, bs: seq<HardenedBlock>, b: HardenedBlock)
    requires Valid(c, s) && Deliverable(c, s, bs) && b in bs
    ensures b.blockHash in Delivered(s, bs).blocks && Delivered(s, bs).blocks[b.blockHash] == b
    decreases |bs|
  {
    hide Passes, Indexed;
    InsertKeepsValid(c, s, bs[0]);
    if b == bs[0] {
      Stays(c, Insert(s, bs[0]), bs[1..], b.blockHash);
    } else {
      Arrives(c, Insert(s, bs[0]), bs[1..], b);
    }
  }

  lemma {:induction false} CameIn(c: Chain, s: Store, bs: seq<HardenedBlock>, h: Hash)
    requires Valid(c, s) && Deliverable(c, s, bs) && h in Delivered(s, bs).blocks
    ensures h in s.blocks || (Delivered(s, bs).blocks[h] in bs && Delivered(s, bs).blocks[h].blockHash == h)
    decreases |bs|
  {
    hide Passes, Indexed;
    if bs != [] {
      InsertKeepsValid(c, s, bs[0]);
      CameIn(c, Insert(s, bs[0]), bs[1..], h);
      if h == bs[0].blockHash {
        Stays(c, Insert(s, bs[0]), bs[1..], h);
      }
    }
  }

  lemma SameHere(c: Chain, a: seq<HardenedBlock>, b: seq<HardenedBlock>, h: Hash)
    requires Valid(c, Blank) && Deliverable(c, Blank, a) && Deliverable(c, Blank, b) && SetOf(a) == SetOf(b)
    requires h in Delivered(Blank, a).blocks
    ensures h in Delivered(Blank, b).blocks && Delivered(Blank, b).blocks[h] == Delivered(Blank, a).blocks[h]
  {
    CameIn(c, Blank, a, h);
    var k := Delivered(Blank, a).blocks[h];
    assert k in SetOf(a);
    Arrives(c, Blank, b, k);
  }

  /** The block tree is the set of blocks delivered, whatever the order. */
  lemma OrderDoesNotMatter(c: Chain, a: seq<HardenedBlock>, b: seq<HardenedBlock>)
    requires Valid(c, Blank) && Deliverable(c, Blank, a) && Deliverable(c, Blank, b) && SetOf(a) == SetOf(b)
    ensures Delivered(Blank, a).blocks == Delivered(Blank, b).blocks
  {
    forall h | h in Delivered(Blank, a).blocks {
      SameHere(c, a, b, h);
    }
    forall h | h in Delivered(Blank, b).blocks {
      SameHere(c, b, a, h);
    }
  }

  // ---- the tip over a run ----

  /** Where a node stands: its tip, and whether it has halted. */
  datatype Position = Position(tip: Hash, halt: Option<Halt>)

  ghost predicate Moved(c: Chain, blocks: Blocks, limit: int, p: Position, q: Position)
    requires Rooted(c, blocks)
  {
    exists best, fork :: Retipped(c, blocks, limit, p.tip, p.halt, q.tip, q.halt, best, fork)
  }

  /** `play` lists where the node stands before the blocks and after each of them. */
  ghost predicate IsPlay(c: Chain, limit: int, s: Store, bs: seq<HardenedBlock>, play: seq<Position>)
    requires Valid(c, s) && Deliverable(c, s, bs)
    decreases |bs|
  {
    && |play| == |bs| + 1
    && (bs != [] ==>
          (InsertKeepsValid(c, s, bs[0]);
           Moved(c, Insert(s, bs[0]).blocks, limit, play[0], play[1])
             && IsPlay(c, limit, Insert(s, bs[0]), bs[1..], play[1..])))
  }

  lemma MoveIsUnique(c: Chain, blocks: Blocks, limit: int, p: Position, q: Position, r: Position)
    requires Rooted(c, blocks) && Known(c, blocks, p.tip) && Moved(c, blocks, limit, p, q)
             && Moved(c, blocks, limit, p, r)
    ensures q == r
  {
    hide IsBest, IsFork, HeightAt, Rooted;
    var best, fork :| Retipped(c, blocks, limit, p.tip, p.halt, q.tip, q.halt, best, fork);
    var best', fork' :| Retipped(c, blocks, limit, p.tip, p.halt, r.tip, r.halt, best', fork');
    BestIsUnique(c, blocks, best, best');
    ForkIsUnique(c, blocks, p.tip, best, fork, fork');
  }

  lemma MoveIsKnown(c: Chain, blocks: Blocks, limit: int, p: Position, q: Position)
    requires Rooted(c, blocks) && Known(c, blocks, p.tip) && Moved(c, blocks, limit, p, q)
    ensures Known(c, blocks, q.tip) && (p.halt.Some? ==> q.halt.Some?)
    ensures q.halt.None? ==> IsBest(c, blocks, q.tip)
  {
    var best, fork :| Retipped(c, blocks, limit, p.tip, p.halt, q.tip, q.halt, best, fork);
  }

  /** Blocks, limit and start leave a node one way to move. */
  lemma {:induction false} PlayIsUnique(c: Chain, limit: int, s: Store, bs: seq<HardenedBlock>, one: seq<Position>,
                                        other: seq<Position>)
    requires Valid(c, s) && Deliverable(c, s, bs) && IsPlay(c, limit, s, bs, one) && IsPlay(c, limit, s, bs, other)
    requires one[0] == other[0] && Known(c, s.blocks, one[0].tip)
    ensures one == other
    decreases |bs|
  {
    hide Passes, Indexed, Rooted, Retipped;
    if bs != [] {
      InsertKeepsValid(c, s, bs[0]);
      var t := Insert(s, bs[0]);
      MoveIsUnique(c, t.blocks, limit, one[0], one[1], other[1]);
      MoveIsKnown(c, t.blocks, limit, one[0], one[1]);
      PlayIsUnique(c, limit, t, bs[1..], one[1..], other[1..]);
      assert one == [one[0]] + one[1..] && other == [other[0]] + other[1..];
    }
  }

  /** What a play ends with: the best tip of all the blocks unless it halted on the way; a halt is for good. */
  lemma {:induction false} PlayEnds(c: Chain, limit: int, s: Store, bs: seq<HardenedBlock>, play: seq<Position>)
    requires Valid(c, s) && Deliverable(c, s, bs) && IsPlay(c, limit, s, bs, play) && Known(c, s.blocks, play[0].tip)
    requires play[0].halt.None? ==> IsBest(c, s.blocks, play[0].tip)
    ensures play[|bs|].halt.None? ==> IsBest(c, Delivered(s, bs).blocks, play[|bs|].tip)
    ensures play[0].halt.Some? ==> play[|bs|].halt.Some?
    decreases |bs|
  {
    hide Passes, Indexed, Rooted, Retipped, IsBest;
    if bs != [] {
      InsertKeepsValid(c, s, bs[0]);
      var t := Insert(s, bs[0]);
      MoveIsKnown(c, t.blocks, limit, play[0], play[1]);
      PlayEnds(c, limit, t, bs[1..], play[1..]);
    }
  }

  /** Moving the tip from `p` to `q`, in the tree `blocks`, undoes at most `limit` blocks: those above the deepest block
      both branches contain. */
  ghost predicate UndoesAtMost(c: Chain, blocks: Blocks, p: Hash, q: Hash, limit: int)
    requires Rooted(c, blocks)
  {
    exists fork :: IsFork(c, blocks, p, q, fork) && |Above(c, blocks, fork, p)| <= limit
  }

  /** In every run, no tip move undoes more than the limit. */
  lemma {:induction false} NoMoveUndoesMore(c: Chain, limit: int, s: Store, bs: seq<HardenedBlock>,
                                            play: seq<Position>, k: nat)
    requires Valid(c, s) && Deliverable(c, s, bs) && IsPlay(c, limit, s, bs, play) && Known(c, s.blocks, play[0].tip)
             && k < |bs|
    ensures Rooted(c, Delivered(s, bs[..k + 1]).blocks)
    ensures play[k + 1].tip != play[k].tip ==>
            UndoesAtMost(c, Delivered(s, bs[..k + 1]).blocks, play[k].tip, play[k + 1].tip, limit)
    decreases |bs|
  {
    hide Passes, Indexed, Rooted, Retipped, UndoesAtMost;
    InsertKeepsValid(c, s, bs[0]);
    var t := Insert(s, bs[0]);
    MoveIsKnown(c, t.blocks, limit, play[0], play[1]);
    assert bs[..k + 1][0] == bs[0] && bs[..k + 1][1..] == bs[1..][..k];
    if k > 0 {
      NoMoveUndoesMore(c, limit, t, bs[1..], play[1..], k - 1);
    } else {
      assert Delivered(s, bs[..1]) == t;
      OneMoveUndoes(c, t.blocks, limit, play[0], play[1]);
    }
  }

  lemma OneMoveUndoes(c: Chain, blocks: Blocks, limit: int, p: Position, q: Position)
    requires Rooted(c, blocks) && Known(c, blocks, p.tip) && Moved(c, blocks, limit, p, q)
    ensures q.tip != p.tip ==> UndoesAtMost(c, blocks, p.tip, q.tip, limit)
  {
    var best, fork :| Retipped(c, blocks, limit, p.tip, p.halt, q.tip, q.halt, best, fork);
    if q.tip != p.tip {
      AboveIsCutFromBranch(c, blocks, fork, p.tip);
      assert IsFork(c, blocks, p.tip, q.tip, fork);
    }
  }

  /** Deliver a sequence of blocks to a node. */
  method Feed(n: NetworkHistory, bs: seq<HardenedBlock>) returns (ghost play: seq<Position>)
    requires n.Valid() && Deliverable(n.chain, n.State(), bs)
    modifies n
    ensures n.Valid() && n.State() == Delivered(old(n.State()), bs)
    ensures IsPlay(n.chain, n.reorgLimit, old(n.State()), bs, play)
    ensures play[0] == Position(old(n.tipHash), old(n.halt)) && play[|bs|] == Position(n.tipHash, n.halt)
    decreases |bs|
  {
    hide Passes, Indexed, Rooted, Retipped, IsBest;
    play := [Position(n.tipHash, n.halt)];
    if bs != [] {
      InsertKeepsValid(n.chain, n.State(), bs[0]);
      var _ := n.Accept(bs[0]);
      ghost var rest := Feed(n, bs[1..]);
      play := play + rest;
      assert play[1..] == rest;
    }
  }

  /** Starting at genesis, not halted. */
  ghost predicate PlaysFrom(c: Chain, limit: int, bs: seq<HardenedBlock>, play: seq<Position>)
    requires Valid(c, Blank) && Deliverable(c, Blank, bs)
  {
    IsPlay(c, limit, Blank, bs, play) && play[0] == Position(c.genesis, None)
  }

  /** Two nodes that accept the same blocks, each in its own parent-first order and under its own reorg limit, stand on
      the same tip, the heaviest, unless one of them halted on the way. */
  lemma PlaysConverge(c: Chain, limitA: int, limitB: int, a: seq<HardenedBlock>, b: seq<HardenedBlock>,
                      playA: seq<Position>, playB: seq<Position>)
    requires Valid(c, Blank) && Deliverable(c, Blank, a) && Deliverable(c, Blank, b) && SetOf(a) == SetOf(b)
    requires PlaysFrom(c, limitA, a, playA) && PlaysFrom(c, limitB, b, playB)
    ensures playA[|a|].halt.None? ==> IsBest(c, Delivered(Blank, a).blocks, playA[|a|].tip)
    ensures playA[|a|].halt.None? && playB[|b|].halt.None? ==> playA[|a|].tip == playB[|b|].tip
  {
    hide Passes, Indexed, Rooted, Retipped;
    PlayEnds(c, limitA, Blank, a, playA);
    PlayEnds(c, limitB, Blank, b, playB);
    OrderDoesNotMatter(c, a, b);
    if playA[|a|].halt.None? && playB[|b|].halt.None? {
      BestIsUnique(c, Delivered(Blank, a).blocks, playA[|a|].tip, playB[|b|].tip);
    }
  }

  /** The two nodes, run. Where each ends is where its play ends, and `PlayIsUnique` leaves one play. */
  method Converge(c: Chain, limitA: int, limitB: int, a: seq<HardenedBlock>, b: seq<HardenedBlock>)
    returns (left: NetworkHistory, right: NetworkHistory, ghost playA: seq<Position>, ghost playB: seq<Position>)
    requires c.params.Valid() && Valid(c, Blank) && Deliverable(c, Blank, a) && Deliverable(c, Blank, b)
             && SetOf(a) == SetOf(b)
    ensures fresh(left) && left.Valid() && left.State() == Delivered(Blank, a) && fresh(right) && right.Valid()
            && right.State() == Delivered(Blank, b)
    ensures PlaysFrom(c, limitA, a, playA) && playA[|a|] == Position(left.tipHash, left.halt)
    ensures PlaysFrom(c, limitB, b, playB) && playB[|b|] == Position(right.tipHash, right.halt)
    ensures left.halt.None? && right.halt.None? ==> left.tipHash == right.tipHash
  {
    hide Passes, Indexed, Rooted, Retipped;
    left := new NetworkHistory(c, limitA);
    right := new NetworkHistory(c, limitB);
    playA := Feed(left, a);
    playB := Feed(right, b);
    PlaysConverge(c, limitA, limitB, a, b, playA, playB);
  }

  // ---- a restart ----

  /** A node restarted over all the blocks of its run stands where it stood exactly when it had not halted. A restarted
      node has not. */
  lemma RestartAgreesIff(c: Chain, limit: nat, bs: seq<HardenedBlock>, play: seq<Position>, again: Position)
    requires Valid(c, Blank) && Deliverable(c, Blank, bs) && PlaysFrom(c, limit, bs, play)
    requires Valid(c, Delivered(Blank, bs)) && Moved(c, Delivered(Blank, bs).blocks, limit,
                                                     Position(c.genesis, None), again)
    ensures again.halt.None? && IsBest(c, Delivered(Blank, bs).blocks, again.tip)
    ensures again == play[|bs|] <==> play[|bs|].halt.None?
  {
    hide Passes, Indexed, Rooted, IsBest;
    var blocks := Delivered(Blank, bs).blocks;
    var best, fork :| Retipped(c, blocks, limit, c.genesis, None, again.tip, again.halt, best, fork);
    AncestorIsLower(c, blocks, fork, c.genesis);
    BlankBest(c);
    PlayEnds(c, limit, Blank, bs, play);
    if play[|bs|].halt.None? {
      BestIsUnique(c, blocks, again.tip, play[|bs|].tip);
    }
  }

  lemma BlankBest(c: Chain)
    ensures IsBest(c, Blank.blocks, c.genesis)
  {
  }

  lemma {:induction false} DeliveredIsValid(c: Chain, s: Store, bs: seq<HardenedBlock>)
    requires Valid(c, s) && Deliverable(c, s, bs)
    ensures Valid(c, Delivered(s, bs))
    decreases |bs|
  {
    hide Passes, Indexed, Rooted;
    if bs != [] {
      InsertKeepsValid(c, s, bs[0]);
      DeliveredIsValid(c, Insert(s, bs[0]), bs[1..]);
    }
  }

  /** Rows that can be delivered can be replayed, and loading them is delivering them. */
  lemma {:induction false} DeliverableIsReplayable(n: NetworkHistory, s: Store, rows: seq<HardenedBlock>)
    requires Valid(n.chain, s) && Deliverable(n.chain, s, rows)
    ensures n.Replayable(s, rows) && Replayed(n.chain, s, rows) == Delivered(s, rows)
            && forall row <- rows :: row.blockHash != n.chain.genesis
    decreases |rows|
  {
    hide Passes, Indexed, Rooted;
    if rows != [] {
      InsertKeepsValid(n.chain, s, rows[0]);
      DeliverableIsReplayable(n, Insert(s, rows[0]), rows[1..]);
      assert forall row <- rows :: row == rows[0] || row in rows[1..];
    }
  }

  /** A node, and one restarted from a log of the same blocks in any parent-first order. */
  method Restart(c: Chain, limit: nat, bs: seq<HardenedBlock>, rows: seq<HardenedBlock>, verify: bool)
    returns (running: NetworkHistory, again: NetworkHistory)
    requires c.params.Valid() && Valid(c, Blank) && Deliverable(c, Blank, bs) && Deliverable(c, Blank, rows)
             && SetOf(rows) == SetOf(bs)
    ensures fresh(running) && running.Valid() && running.State() == Delivered(Blank, bs)
    ensures fresh(again) && again.Valid() && again.blocks == running.blocks && again.halt.None?
    ensures Position(again.tipHash, again.halt) == Position(running.tipHash, running.halt) <==> running.halt.None?
  {
    hide Passes, Indexed, Rooted, Retipped, IsBest;
    running := new NetworkHistory(c, limit);
    ghost var play := Feed(running, bs);
    again := new NetworkHistory(c, limit);
    DeliverableIsReplayable(again, Blank, rows);
    var _ := again.Restore(rows, verify);
    OrderDoesNotMatter(c, bs, rows);
    DeliveredIsValid(c, Blank, bs);
    RestartAgreesIff(c, limit, bs, play, Position(again.tipHash, again.halt));
  }

  /** A tip move that undoes d blocks in favour of a branch stamped, above the fork, only by an owned set of
      turns means that at least d * threshold of them were unspent at the fork. */
  lemma MovingTheTipCosts(c: Chain, s: Store, limit: int, tip: Hash, halt: Option<Halt>, tip': Hash,
                          halt': Option<Halt>, best: Hash, fork: Hash, owned: set<nat>)
    requires Valid(c, s) && Known(c, s.blocks, tip) && Retipped(c, s.blocks, limit, tip, halt, tip', halt', best, fork)
             && tip' != tip
    requires StampedOnlyBy(Above(c, s.blocks, fork, tip'), owned)
    ensures |Above(c, s.blocks, fork, tip)| * c.params.Threshold() <= |owned - Spent(c, s.blocks, fork)|
    ensures |Above(c, s.blocks, fork, tip)| <= limit
  {
    hide Passes, Indexed, Rooted;
    assert Beats(c, s.blocks, tip', tip);
    OvertakingCost(c, s, fork, tip, tip', owned);
    AboveIsCutFromBranch(c, s.blocks, fork, tip);
  }

  /** `max_fork_depth`: unspent turns held, divided by the width. */
  function MaxForkDepth(unspentHeld: nat, width: nat): nat {
    unspentHeld / (if width > 1 then width else 1)
  }

  /** One stretch of history respects the computed ceiling: it is no deeper than the turns its stampers had unspent at
      its foot allow. */
  ghost predicate WithinFormula(c: Chain, s: Store, f: Hash, h: Hash, owned: set<nat>)
    requires Valid(c, s) && IsAncestor(c, s.blocks, f, h)
  {
    HeightAt(c, s.blocks, h) - HeightAt(c, s.blocks, f) <= MaxForkDepth(|owned - Spent(c, s.blocks, f)|, c.params.width)
  }

  ghost predicate StretchOf(c: Chain, s: Store, f: Hash, h: Hash, owned: set<nat>) {
    Valid(c, s) && Known(c, s.blocks, h) && IsAncestor(c, s.blocks, f, h)
      && StampedOnlyBy(Above(c, s.blocks, f, h), owned)
  }

  ghost predicate FullyStamped(c: Chain, b: HardenedBlock) {
    |b.stamps| >= c.params.width
  }

  lemma {:induction false} ManyStamps(c: Chain, s: Store, f: Hash, h: Hash)
    requires Valid(c, s) && Known(c, s.blocks, h) && IsAncestor(c, s.blocks, f, h)
    requires forall k {:trigger s.blocks[k]} :: k in s.blocks ==> FullyStamped(c, s.blocks[k])
    ensures StampsIn(Above(c, s.blocks, f, h)) >= |Above(c, s.blocks, f, h)| * c.params.width
    decreases Rank(s.blocks, h)
  {
    hide Passes, Indexed, TheDraw;
    if f != h {
      var b := s.blocks[h];
      ManyStamps(c, s, f, b.prevHash);
      var below := Above(c, s.blocks, f, b.prevHash);
      assert Above(c, s.blocks, f, h)[1..] == below;
      Distribute(|below|, 1, c.params.width);
    }
  }

  /** Where every block carries width stamps, the formula bounds every stretch. */
  lemma FormulaBounds(c: Chain, s: Store, f: Hash, h: Hash, owned: set<nat>)
    requires StretchOf(c, s, f, h, owned) && forall k {:trigger s.blocks[k]} :: k in s.blocks ==>
             FullyStamped(c, s.blocks[k])
    ensures WithinFormula(c, s, f, h, owned)
  {
    hide Passes, Indexed, TheDraw, StampedOnlyBy;
    StampingTurnsCount(c, s, f, h, owned);
    ManyStamps(c, s, f, h);
    AboveIsCutFromBranch(c, s.blocks, f, h);
    Subset(StampingTurns(c, s, f, h), owned - Spent(c, s.blocks, f));
    DivideBound(|Above(c, s.blocks, f, h)|, |owned - Spent(c, s.blocks, f)|, c.params.width);
  }

  /** A block with fewer stamps than the width is one deeper than the formula allows the turns that stamped it. */
  lemma OneBlockIsBeyondTheFormula(c: Chain, s: Store, h: Hash)
    requires Valid(c, s) && h in s.blocks && !FullyStamped(c, s.blocks[h])
    ensures var b := s.blocks[h];
            && StretchOf(c, s, b.prevHash, h, Stamped(b)) && Above(c, s.blocks, b.prevHash, h) == [b]
            && HeightAt(c, s.blocks, h) - HeightAt(c, s.blocks, b.prevHash) == 1
            && MaxForkDepth(|Stamped(b) - Spent(c, s.blocks, b.prevHash)|, c.params.width) == 0
            && !WithinFormula(c, s, b.prevHash, h, Stamped(b))
  {
    hide Passes, Indexed, TheDraw, Spent, Rooted, Stamped, Above, IsAncestor, HardeningParams.Threshold;
    hide HardeningParams.StampWeight, HeightAt, MaxForkDepth;
    var b := s.blocks[h];
    OneAbove(c, s.blocks, h);
    CommitteeOf(c, s, h);
    StampedCount(c, s, h);
    assert Stamped(b) - Spent(c, s.blocks, b.prevHash) == Stamped(b);
    MaxForkIsZero(|Stamped(b)|, c.params.width);
  }

  lemma MaxForkIsZero(held: nat, width: nat)
    requires held < width
    ensures MaxForkDepth(held, width) == 0
  {
  }

  lemma OneAbove(c: Chain, blocks: Blocks, h: Hash)
    requires Rooted(c, blocks) && h in blocks
    ensures IsAncestor(c, blocks, blocks[h].prevHash, h) && Above(c, blocks, blocks[h].prevHash, h) == [blocks[h]]
    ensures HeightAt(c, blocks, h) == HeightAt(c, blocks, blocks[h].prevHash) + 1 && Known(c, blocks, h)
  {
    var f := blocks[h].prevHash;
    assert f != h;
    assert IsAncestor(c, blocks, f, f);
    assert Above(c, blocks, f, f) == [];
  }

  /** So does a new block a node accepts with fewer stamps than the width, once it is in. */
  lemma AcceptedBeyondTheFormula(c: Chain, s: Store, hb: HardenedBlock)
    requires Valid(c, s) && Passes(c, s.blocks, hb) && IsFresh(c, s, hb.blockHash) && !FullyStamped(c, hb)
    ensures Valid(c, Insert(s, hb))
    ensures StretchOf(c, Insert(s, hb), hb.prevHash, hb.blockHash, Stamped(hb))
            && !WithinFormula(c, Insert(s, hb), hb.prevHash, hb.blockHash, Stamped(hb))
  {
    hide Passes, Indexed, TheDraw, Rooted;
    InsertKeepsValid(c, s, hb);
    OneBlockIsBeyondTheFormula(c, Insert(s, hb), hb.blockHash);
  }

  /** Every stretch of the history respects the computed ceiling. */
  ghost predicate FormulaHoldsIn(c: Chain, s: Store) {
    forall f, h, owned {:trigger StretchOf(c, s, f, h, owned)} :: StretchOf(c, s, f, h, owned) ==>
      WithinFormula(c, s, f, h, owned)
  }

  /** The ceiling the code computes divides by the width, while `check` asks a block for threshold stamps only. In one
      history it is a ceiling exactly when no block has fewer stamps than the width. */
  lemma FormulaIsABoundIff(c: Chain, s: Store)
    requires Valid(c, s)
    ensures FormulaHoldsIn(c, s) <==> forall h {:trigger s.blocks[h]} :: h in s.blocks ==> FullyStamped(c, s.blocks[h])
  {
    hide Passes, Indexed, TheDraw, Rooted, StampedOnlyBy, WithinFormula;
    if FormulaHoldsIn(c, s) {
      forall h | h in s.blocks ensures FullyStamped(c, s.blocks[h]) {
        if !FullyStamped(c, s.blocks[h]) {
          OneBlockIsBeyondTheFormula(c, s, h);
        }
      }
    }
    if forall h {:trigger s.blocks[h]} :: h in s.blocks ==> FullyStamped(c, s.blocks[h]) {
      forall f, h, owned | StretchOf(c, s, f, h, owned) ensures WithinFormula(c, s, f, h, owned) {
        FormulaBounds(c, s, f, h, owned);
      }
    }
  }

  /** In particular whenever the parameters ask for at least width stamps: the guard a caller can check. */
  lemma ThresholdAtWidthSuffices(c: Chain, s: Store)
    requires Valid(c, s) && c.params.Threshold() >= c.params.width
    ensures FormulaHoldsIn(c, s)
  {
    hide TheDraw, Indexed, Rooted, HardeningParams.Threshold, Passes;
    forall h | h in s.blocks ensures FullyStamped(c, s.blocks[h]) {
      StampedCount(c, s, h);
    }
    FormulaIsABoundIff(c, s);
  }

  lemma DivideBound(depth: nat, held: nat, w: nat)
    requires w > 0 && depth * w <= held
    ensures depth <= held / w
  {
    if depth > held / w {
      MulMonotone(held / w + 1, depth, w);
    }
  }
}
