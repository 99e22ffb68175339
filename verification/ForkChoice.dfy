/**
 What fork choice comes to (chain/hardening/history.py, `_retip`), said of the blocks themselves: the branch with most
 work, and a halt exactly where following it would undo too much.
 */
module ForkChoice {
  import opened Basics
  import opened Seats
  import opened History
  import opened HistoryTheorems
  import opened NetworkHistory
  import opened HistoryRuns

  /** All the stamps of a branch. */
  ghost function StampsOn(bs: seq<HardenedBlock>): nat {
    if bs == [] then 0 else |bs[0].stamps| + StampsOn(bs[1..])
  }

  lemma {:induction false} WeightIsStamps(c: Chain, s: Store, h: Hash)
    requires Valid(c, s) && Known(c, s.blocks, h)
    ensures CumulativeAt(c, s.blocks, h) == StampsOn(Branch(c, s.blocks, h)) * Pow2(c.params.difficultyBits)
    decreases Rank(s.blocks, h)
  {
    hide Indexed, StampsHold, CommitteeOn, Spent;
    if h != c.genesis {
      var b := s.blocks[h];
      assert Passes(c, s.blocks, b);
      WeightIsStamps(c, s, b.prevHash);
      assert Branch(c, s.blocks, h)[1..] == Branch(c, s.blocks, b.prevHash);
      Sum(|b.stamps|, StampsOn(Branch(c, s.blocks, b.prevHash)), Pow2(c.params.difficultyBits));
    }
  }

  lemma Sum(a: nat, b: nat, w: nat)
    ensures (a + b) * w == a * w + b * w
  {
  }

  /** The best tip is at the end of a branch with the most stamps on it, and of those the one with the least hash. */
  lemma BestHasMostStamps(c: Chain, s: Store, h: Hash, k: Hash)
    requires Valid(c, s) && IsBest(c, s.blocks, h) && Known(c, s.blocks, k) && k != h
    ensures StampsOn(Branch(c, s.blocks, h)) >= StampsOn(Branch(c, s.blocks, k))
    ensures StampsOn(Branch(c, s.blocks, h)) == StampsOn(Branch(c, s.blocks, k)) ==> h < k
  {
    hide Passes, Indexed, Branch, StampsOn;
    WeightIsStamps(c, s, h);
    WeightIsStamps(c, s, k);
    var x, y, w := StampsOn(Branch(c, s.blocks, h)), StampsOn(Branch(c, s.blocks, k)), Pow2(c.params.difficultyBits);
    assert Beats(c, s.blocks, h, k);
    if x < y {
      MulStrict(x, y, w);
    }
  }

  /** A node that has not halted ends a run on the branch with the most stamps of all the blocks it was given. */
  lemma EndsOnMostStamps(c: Chain, limit: int, bs: seq<HardenedBlock>, play: seq<Position>, k: Hash)
    requires Valid(c, Blank) && Deliverable(c, Blank, bs) && PlaysFrom(c, limit, bs, play) && play[|bs|].halt.None?
    requires Known(c, Delivered(Blank, bs).blocks, k) && k != play[|bs|].tip
    ensures var s, tip := Delivered(Blank, bs), play[|bs|].tip;
            && Valid(c, s)
            && (StampsOn(Branch(c, s.blocks, tip)) > StampsOn(Branch(c, s.blocks, k))
                || (StampsOn(Branch(c, s.blocks, tip)) == StampsOn(Branch(c, s.blocks, k)) && tip < k))
  {
    hide Passes, Indexed, Rooted, Branch, StampsOn, IsBest;
    PlaysConverge(c, limit, limit, bs, bs, play, play);
    DeliveredIsValid(c, Blank, bs);
    BestHasMostStamps(c, Delivered(Blank, bs), play[|bs|].tip, k);
  }

  /** A running node halts exactly where the best tip is another and the deepest block it shares with the node's own
      branch lies more than the limit below: it then stays where it is, and says how far it would have had to go. */
  lemma HaltsIff(c: Chain, blocks: Blocks, limit: int, p: Position, q: Position)
    requires Rooted(c, blocks) && Known(c, blocks, p.tip) && Moved(c, blocks, limit, p, q) && p.halt.None?
    ensures q.halt.Some? <==> exists best, fork ::
              IsBest(c, blocks, best) && best != p.tip && IsFork(c, blocks, p.tip, best, fork)
              && |Above(c, blocks, fork, p.tip)| > limit
    ensures q.halt.Some? ==> q.tip == p.tip
    ensures q.halt.None? ==> IsBest(c, blocks, q.tip)
  {
    hide IsBest, Above;
    var best, fork :| Retipped(c, blocks, limit, p.tip, p.halt, q.tip, q.halt, best, fork);
    AboveIsCutFromBranch(c, blocks, fork, p.tip);
    forall best', fork' | IsBest(c, blocks, best') && IsFork(c, blocks, p.tip, best', fork')
      ensures best' == best && fork' == fork {
      BestIsUnique(c, blocks, best, best');
      ForkIsUnique(c, blocks, p.tip, best, fork, fork');
    }
  }
}
