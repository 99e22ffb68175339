/**
 `NetworkHistory` (chain/hardening/history.py): the store of hardened blocks, changed in place, with its
 walks, its acceptance rule and its fork choice.
 */
module NetworkHistory {
  import opened Basics
  import opened Seats
  import opened Wots
  import opened EraPool
  import opened Stamps
  import opened Draw
  import opened History
  import opened HistoryTheorems

  /** A branch arrived that is heavier but forks further back than this node can undo. */
  datatype Halt = Halt(depth: int, limit: int, forkHash: Hash, forkHeight: int)

  datatype Verdict = Passed | Refused | Raised

  function DrawnIn(bs: seq<HardenedBlock>): set<nat> {
    if bs == [] then {} else SetOf<nat>(bs[0].drawn) + DrawnIn(bs[1..])
  }

  lemma {:induction false} SpentIsDrawn(c: Chain, blocks: Blocks, h: Hash)
    requires Rooted(c, blocks)
    ensures Spent(c, blocks, h) == DrawnIn(Branch(c, blocks, h))
    decreases Rank(blocks, h)
  {
    if h != c.genesis && h in blocks {
      SpentIsDrawn(c, blocks, blocks[h].prevHash);
      assert Branch(c, blocks, h)[1..] == Branch(c, blocks, blocks[h].prevHash);
    }
  }

  lemma {:induction false} DrawnGrows(bs: seq<HardenedBlock>, b: HardenedBlock)
    ensures DrawnIn(bs + [b]) == DrawnIn(bs) + SetOf<nat>(b.drawn)
  {
    if bs == [] {
      assert (bs + [b])[1..] == [];
    } else {
      DrawnGrows(bs[1..], b);
      assert (bs + [b])[1..] == bs[1..] + [b];
    }
  }

  /** How the tip and the halt move, given the blocks: to the best tip, unless that would undo more than
      `limit` blocks, in which case the node halts where it is. */
  ghost predicate Retipped(c: Chain, blocks: Blocks, limit: int, tip: Hash, halt: Option<Halt>, tip': Hash,
                           halt': Option<Halt>, best: Hash, fork: Hash)
    requires Rooted(c, blocks)
  {
    var depth := HeightAt(c, blocks, tip) - HeightAt(c, blocks, fork);
    && IsBest(c, blocks, best) && IsFork(c, blocks, tip, best, fork)
    && if best == tip then tip' == tip && halt' == halt
       else if depth > limit then tip' == tip && halt' == Some(Halt(depth, limit, fork, HeightAt(c, blocks, fork)))
       else tip' == best && halt' == halt
  }

  /** The stamp loop of `check`. */
  method CheckStamps(c: Chain, hb: HardenedBlock) returns (ok: bool)
    ensures ok <==> StampsHold(c, hb)
  {
    var seen := {};
    for i := 0 to |hb.stamps|
      invariant seen == set j | 0 <= j < i :: hb.stamps[j].leafIndex
      invariant forall j | 0 <= j < i :: StampHolds(c, hb, hb.stamps[j])
      invariant forall j, k | 0 <= j < k < i :: hb.stamps[j].leafIndex != hb.stamps[k].leafIndex
    {
      var stamp := hb.stamps[i];
      if stamp.leafIndex in seen {
        return false;
      }
      if stamp.leafIndex !in hb.drawn {
        assert !StampHolds(c, hb, hb.stamps[i]);
        return false;
      }
      var good := VerifyStamp(c.spec, stamp, AnchorOf(c, hb.blockHash, hb.height), c.params.difficultyBits, c.puzzle);
      if !good {
        assert !StampHolds(c, hb, hb.stamps[i]);
        return false;
      }
      seen := seen + {stamp.leafIndex};
    }
    return true;
  }

  /** `sorted(stamps, key=leaf_index)`, which keeps stamps of one turn in the order they arrived. */
  function InOrder(sorted: seq<Stamp>, stamp: Stamp): seq<Stamp> {
    if sorted == [] || stamp.leafIndex < sorted[0].leafIndex then [stamp] + sorted
    else [sorted[0]] + InOrder(sorted[1..], stamp)
  }

  /** The first stamp of a turn to arrive. */
  function FirstOf(stamps: seq<Stamp>, turn: int): Option<Stamp> {
    if stamps == [] then None else if stamps[0].leafIndex == turn then Some(stamps[0]) else FirstOf(stamps[1..], turn)
  }

  lemma {:induction false} FirstAfterInsert(sorted: seq<Stamp>, stamp: Stamp, turn: int)
    requires forall i, j | 0 <= i < j < |sorted| :: sorted[i].leafIndex <= sorted[j].leafIndex
    ensures var r := InOrder(sorted, stamp);
            && (forall i, j | 0 <= i < j < |r| :: r[i].leafIndex <= r[j].leafIndex)
            && (forall x :: x in r <==> x in sorted || x == stamp)
            && FirstOf(r, turn) == if FirstOf(sorted, turn).Some? then FirstOf(sorted, turn)
                                   else if stamp.leafIndex == turn then Some(stamp) else None
  {
    if sorted == [] || stamp.leafIndex < sorted[0].leafIndex {
      if stamp.leafIndex == turn {
        NoneBelow(sorted, turn);
      }
      assert ([stamp] + sorted)[1..] == sorted;
    } else {
      FirstAfterInsert(sorted[1..], stamp, turn);
      var r := InOrder(sorted[1..], stamp);
      assert ([sorted[0]] + r)[1..] == r;
      forall x <- r ensures sorted[0].leafIndex <= x.leafIndex {
        assert x == stamp || x in sorted[1..];
      }
    }
  }

  lemma {:induction false} NoneBelow(sorted: seq<Stamp>, turn: int)
    requires forall x <- sorted :: turn < x.leafIndex
    ensures FirstOf(sorted, turn) == None
  {
    if sorted != [] {
      NoneBelow(sorted[1..], turn);
    }
  }

  lemma {:induction false} FirstAfterArrival(stamps: seq<Stamp>, stamp: Stamp, turn: int)
    ensures FirstOf(stamps + [stamp], turn) == if FirstOf(stamps, turn).Some? then FirstOf(stamps, turn)
                                              else if stamp.leafIndex == turn then Some(stamp) else None
  {
    if stamps == [] {
      assert stamps + [stamp] == [stamp];
    } else {
      FirstAfterArrival(stamps[1..], stamp, turn);
      assert (stamps + [stamp])[1..] == stamps[1..] + [stamp];
    }
  }

  method SortByTurn(stamps: seq<Stamp>) returns (sorted: seq<Stamp>)
    ensures forall i, j | 0 <= i < j < |sorted| :: sorted[i].leafIndex <= sorted[j].leafIndex
    ensures forall turn :: FirstOf(sorted, turn) == FirstOf(stamps, turn)
  {
    sorted := [];
    for n := 0 to |stamps|
      invariant forall i, j | 0 <= i < j < |sorted| :: sorted[i].leafIndex <= sorted[j].leafIndex
      invariant forall turn :: FirstOf(sorted, turn) == FirstOf(stamps[..n], turn)
    {
      assert stamps[..n + 1] == stamps[..n] + [stamps[n]];
      forall turn ensures FirstOf(InOrder(sorted, stamps[n]), turn) == FirstOf(stamps[..n + 1], turn) {
        FirstAfterInsert(sorted, stamps[n], turn);
        FirstAfterArrival(stamps[..n], stamps[n], turn);
      }
      FirstAfterInsert(sorted, stamps[n], 0);
      sorted := InOrder(sorted, stamps[n]);
    }
    assert stamps[..|stamps|] == stamps;
  }

  /** What `assemble` keeps: for each drawn turn that sent anything, the first it sent, turns ascending. */
  ghost predicate Keeps(keep: seq<Stamp>, stamps: seq<Stamp>, drawn: seq<nat>) {
    && (forall i, j | 0 <= i < j < |keep| :: keep[i].leafIndex < keep[j].leafIndex)
    && (forall i | 0 <= i < |keep| :: keep[i].leafIndex in drawn && FirstOf(stamps, keep[i].leafIndex) == Some(keep[i]))
    && (forall t <- drawn | FirstOf(stamps, t).Some? :: FirstOf(stamps, t).value in keep)
  }

  /** One more stamp in turn order: the first of a drawn turn is kept. */
  lemma KeepOneMore(keep: seq<Stamp>, sofar: seq<Stamp>, stamp: Stamp, drawn: seq<nat>)
    requires Keeps(keep, sofar, drawn) && stamp.leafIndex in drawn && forall x <- keep :: x.leafIndex < stamp.leafIndex
    ensures Keeps(keep + [stamp], sofar + [stamp], drawn)
  {
    hide FirstOf;
    var more := keep + [stamp];
    FirstHasTurn(sofar, stamp.leafIndex);
    forall i | 0 <= i < |more|
      ensures more[i].leafIndex in drawn && FirstOf(sofar + [stamp], more[i].leafIndex) == Some(more[i]) {
      FirstAfterArrival(sofar, stamp, more[i].leafIndex);
      if i < |keep| {
        assert more[i] == keep[i];
      }
    }
    forall t <- drawn | FirstOf(sofar + [stamp], t).Some? ensures FirstOf(sofar + [stamp], t).value in more {
      FirstAfterArrival(sofar, stamp, t);
      assert more[|keep|] == stamp;
    }
    forall i, j | 0 <= i < j < |more| ensures more[i].leafIndex < more[j].leafIndex {
      assert more[i] == keep[i] && keep[i] in keep;
    }
  }

  /** Any other stamp is not missed. */
  lemma SkipOneMore(keep: seq<Stamp>, sofar: seq<Stamp>, stamp: Stamp, drawn: seq<nat>)
    requires Keeps(keep, sofar, drawn) && (stamp.leafIndex in drawn ==>
                                           exists x <- keep :: x.leafIndex == stamp.leafIndex)
    ensures Keeps(keep, sofar + [stamp], drawn)
  {
    hide FirstOf;
    forall i | 0 <= i < |keep|
      ensures keep[i].leafIndex in drawn && FirstOf(sofar + [stamp], keep[i].leafIndex) == Some(keep[i]) {
      FirstAfterArrival(sofar, stamp, keep[i].leafIndex);
    }
    forall t <- drawn | FirstOf(sofar + [stamp], t).Some? ensures FirstOf(sofar + [stamp], t).value in keep {
      FirstAfterArrival(sofar, stamp, t);
    }
  }

  method KeepFirst(stamps: seq<Stamp>, drawn: seq<nat>) returns (keep: seq<Stamp>)
    ensures Keeps(keep, stamps, drawn)
  {
    var sorted := SortByTurn(stamps);
    keep := [];
    var seen: set<int> := {};
    for n := 0 to |sorted|
      invariant Keeps(keep, sorted[..n], drawn) && forall x <- keep :: n < |sorted| ==>
                x.leafIndex <= sorted[n].leafIndex
      invariant forall t :: t in seen <==> exists x <- keep :: x.leafIndex == t
    {
      hide Keeps, FirstOf;
      var stamp := sorted[n];
      assert sorted[..n + 1] == sorted[..n] + [stamp];
      if stamp.leafIndex in drawn && stamp.leafIndex !in seen {
        KeepOneMore(keep, sorted[..n], stamp, drawn);
        keep := keep + [stamp];
        seen := seen + {stamp.leafIndex};
        assert keep[|keep| - 1] == stamp;
      } else {
        SkipOneMore(keep, sorted[..n], stamp, drawn);
      }
    }
    assert sorted[..|sorted|] == sorted;
  }

  lemma {:induction false} FirstHasTurn(stamps: seq<Stamp>, turn: int)
    ensures FirstOf(stamps, turn).Some? ==> FirstOf(stamps, turn).value.leafIndex == turn
  {
    if stamps != [] {
      FirstHasTurn(stamps[1..], turn);
    }
  }

  /** The store after a log of rows, repeats skipped. */
  function Replayed(c: Chain, s: Store, rows: seq<HardenedBlock>): Store
    decreases |rows|
  {
    if rows == [] then s
    else if rows[0].blockHash in s.blocks then Replayed(c, s, rows[1..])
    else Replayed(c, Insert(s, rows[0]), rows[1..])
  }

  class NetworkHistory {
    const chain: Chain
    const reorgLimit: int
    var blocks: Blocks
    var children: map<Hash, seq<Hash>>
    var tipHash: Hash
    var halt: Option<Halt>

    function State(): Store
      reads this
    {
      Store(blocks, children)
    }

    /** A tree of passing blocks, a known tip, and the best one unless the node has halted. */
    ghost predicate Valid()
      reads this
    {
      History.Valid(chain, State()) && Known(chain, blocks, tipHash) && (halt.None? ==> IsBest(chain, blocks, tipHash))
    }

    constructor (chain: Chain, reorgLimit: int)
      requires chain.params.Valid()
      ensures Valid() && this.chain == chain && this.reorgLimit == reorgLimit
      ensures State() == Blank && tipHash == chain.genesis && halt == None
    {
      this.chain, this.reorgLimit := chain, reorgLimit;
      blocks, children, tipHash, halt := map[], map[], chain.genesis, None;
      BlankIsValid(chain);
    }

    // ---- walks ----

    method BranchOf(h: Hash) returns (out: seq<HardenedBlock>)
      requires Rooted(chain, blocks)
      ensures out == Branch(chain, blocks, h)
    {
      out := [];
      var cur := h;
      while cur != chain.genesis
        invariant out + Branch(chain, blocks, cur) == Branch(chain, blocks, h)
        decreases Rank(blocks, cur)
      {
        if cur !in blocks {
          break;
        }
        out := out + [blocks[cur]];
        cur := blocks[cur].prevHash;
      }
    }

    method SpentUpto(h: Hash) returns (spent: set<nat>)
      requires Rooted(chain, blocks)
      ensures spent == Spent(chain, blocks, h)
    {
      spent := {};
      var branch := BranchOf(h);
      SpentIsDrawn(chain, blocks, h);
      for i := 0 to |branch|
        invariant spent == DrawnIn(branch[..i])
      {
        DrawnGrows(branch[..i], branch[i]);
        assert branch[..i + 1] == branch[..i] + [branch[i]];
        spent := spent + set t | t in branch[i].drawn;
      }
      assert branch[..|branch|] == branch;
    }

    method CommonAncestor(a: Hash, b: Hash) returns (fork: Hash)
      requires Rooted(chain, blocks) && Known(chain, blocks, a) && Known(chain, blocks, b)
      ensures IsFork(chain, blocks, a, b, fork) && Known(chain, blocks, fork)
    {
      var seen, cur := {a}, a;
      while cur != chain.genesis
        invariant Known(chain, blocks, cur) && cur in seen
        invariant forall x :: IsAncestor(chain, blocks, x, a) <==> x in seen || IsAncestor(chain, blocks, x, cur)
        decreases Rank(blocks, cur)
      {
        if cur !in blocks {
          break;
        }
        cur := blocks[cur].prevHash;
        seen := seen + {cur};
      }
      assert forall x :: IsAncestor(chain, blocks, x, a) <==> x in seen;
      cur := b;
      while cur != chain.genesis
        invariant Known(chain, blocks, cur) && IsAncestor(chain, blocks, cur, b)
        invariant forall g {:trigger IsAncestor(chain, blocks, g, cur)} | IsAncestor(chain, blocks, g, b)
                  && g in seen :: IsAncestor(chain, blocks, g, cur)
        decreases Rank(blocks, cur)
      {
        if cur in seen {
          return cur;
        }
        if cur !in blocks {
          break;
        }
        StepUp(cur, b);
        forall g | IsAncestor(chain, blocks, g, b) && g in seen
          ensures IsAncestor(chain, blocks, g, blocks[cur].prevHash) {
          assert IsAncestor(chain, blocks, g, cur);
        }
        cur := blocks[cur].prevHash;
      }
      GenesisIsAncestor(chain, blocks, a);
      return chain.genesis;
    }

    lemma {:induction false} StepUp(h: Hash, b: Hash)
      requires Rooted(chain, blocks) && Known(chain, blocks, b) && IsAncestor(chain, blocks, h, b) && h in blocks
      ensures IsAncestor(chain, blocks, blocks[h].prevHash, b)
      decreases Rank(blocks, b)
    {
      if h != b {
        StepUp(h, blocks[b].prevHash);
      }
    }

    /** How many blocks of the current branch adopting `h` would undo: those above the deepest block both
        branches contain. */
    method ReorgDepth(h: Hash) returns (depth: int, fork: Hash)
      requires Rooted(chain, blocks) && Known(chain, blocks, tipHash) && Known(chain, blocks, h)
      ensures IsFork(chain, blocks, tipHash, h, fork) && Known(chain, blocks, fork)
      ensures depth == HeightAt(chain, blocks, tipHash) - HeightAt(chain, blocks, fork) ==
              |Above(chain, blocks, fork, tipHash)|
      ensures depth == 0 <==> IsAncestor(chain, blocks, tipHash, h)
    {
      fork := CommonAncestor(tipHash, h);
      AboveIsCutFromBranch(chain, blocks, fork, tipHash);
      AncestorIsLower(chain, blocks, fork, tipHash);
      assert IsAncestor(chain, blocks, tipHash, tipHash);
      if IsAncestor(chain, blocks, tipHash, h) {
        assert IsAncestor(chain, blocks, tipHash, fork);
        AncestorIsLower(chain, blocks, tipHash, fork);
      }
      depth := HeightAt(chain, blocks, tipHash) - HeightAt(chain, blocks, fork);
      if depth < 0 {
        depth := 0;
      }
    }

    // ---- fork choice ----

    method Heaviest() returns (best: Hash)
      requires Rooted(chain, blocks)
      ensures IsBest(chain, blocks, best)
    {
      best := chain.genesis;
      var weight := 0;
      var left := blocks.Keys;
      while left != {}
        invariant left <= blocks.Keys && Known(chain, blocks, best) && best !in left
                  && weight == CumulativeAt(chain, blocks, best)
        invariant forall k | Known(chain, blocks, k) && k !in left && k != best :: Beats(chain, blocks, best, k)
        decreases left
      {
        var h :| h in left;
        var hb := blocks[h];
        if hb.cumulative > weight || (hb.cumulative == weight && h < best) {
          best, weight := h, hb.cumulative;
        }
        left := left - {h};
      }
    }

    method Retip() returns (ghost best: Hash, ghost fork: Hash)
      requires Rooted(chain, blocks) && Known(chain, blocks, tipHash)
      modifies this`tipHash, this`halt
      ensures Retipped(chain, blocks, reorgLimit, old(tipHash), old(halt), tipHash, halt, best, fork)
      ensures Known(chain, blocks, tipHash) && (old(halt).Some? ==> halt.Some?)
      ensures halt.None? ==> IsBest(chain, blocks, tipHash)
      ensures tipHash != old(tipHash) ==> |Above(chain, blocks, fork, old(tipHash))| <= reorgLimit
    {
      hide Rooted, Beats;
      var heaviest := Heaviest();
      var depth, common := ReorgDepth(heaviest);
      best, fork := heaviest, common;
      if heaviest == tipHash {
        return;
      }
      if depth > reorgLimit {
        halt := Some(Halt(depth, reorgLimit, common, HeightAt(chain, blocks, common)));
        return;
      }
      tipHash := heaviest;
    }

    // ---- accepting ----

    /** Everything a third party can verify for itself. The draw may raise, and `check` lets it. */
    method Check(hb: HardenedBlock) returns (v: Verdict)
      requires History.Valid(chain, State())
      ensures v.Passed? <==> Passes(chain, blocks, hb)
      ensures v.Raised? ==>
                hb.height == HeightAt(chain, blocks, hb.prevHash) + 1 && !CommitteeOn(chain, blocks, hb.prevHash).Drawn?
    {
      hide TheDraw, Indexed, StampsHold, HardeningParams.Threshold, HardeningParams.StampWeight, Spent;
      hide HardeningParams.Valid;
      if hb.eraId != chain.spec.eraId {
        return Refused;
      }
      if hb.prevHash != chain.genesis && hb.prevHash !in blocks {
        return Refused;
      }
      if hb.height != HeightAt(chain, blocks, hb.prevHash) + 1 {
        return Refused;
      }
      var spent := SpentUpto(hb.prevHash);
      var expected := DrawTurns(chain.probes, SeedOn(chain, hb.height, hb.prevHash), chain.spec.turns, spent,
                                chain.params.width);
      if !expected.Drawn? {
        return Raised;
      }
      if expected.turns != hb.drawn {
        return Refused;
      }
      CommitteeIsFresh(chain.probes, SeedOn(chain, hb.height, hb.prevHash), chain.spec.turns, spent,
                       chain.params.width);
      if exists t <- hb.drawn :: t in spent {
        assert false;
        return Refused;
      }
      var good := CheckStamps(chain, hb);
      if !good || |hb.stamps| < chain.params.Threshold() {
        return Refused;
      }
      if hb.weight != |hb.stamps| * chain.params.StampWeight() {
        return Refused;
      }
      if hb.cumulative != CumulativeAt(chain, blocks, hb.prevHash) + hb.weight {
        return Refused;
      }
      if hb.spentRoot != RootOfTurns(spent + SetOf<nat>(hb.drawn)) {
        return Refused;
      }
      return Passed;
    }

    /** Check, keep, and choose again. A block that would pass must be new: see `History.InsertValidIff`. */
    method Accept(hb: HardenedBlock) returns (v: Verdict)
      requires Valid() && (Passes(chain, blocks, hb) ==> IsFresh(chain, State(), hb.blockHash))
      modifies this
      ensures Valid()
      ensures !old(Passes(chain, blocks, hb)) ==>
              !v.Passed? && State() == old(State()) && tipHash == old(tipHash) && halt == old(halt)
      ensures old(Passes(chain, blocks, hb)) ==> State() == Insert(old(State()), hb) && (v.Passed? <==> halt.None?)
      ensures old(Passes(chain, blocks, hb)) ==> exists best, fork ::
                Retipped(chain, blocks, reorgLimit, old(tipHash), old(halt), tipHash, halt, best, fork)
      ensures tipHash != old(tipHash) ==>
                exists fork :: IsFork(chain, blocks, old(tipHash), tipHash, fork)
                  && |Above(chain, blocks, fork, old(tipHash))| <= reorgLimit
    {
      v := Check(hb);
      if !v.Passed? {
        return;
      }
      Keep(hb);
      ghost var best, fork := Retip();
      if halt.Some? {
        return Refused;
      }
    }

    // ---- coming back ----

    /** The rows could have been delivered one by one: each new hash passes when its turn comes. */
    ghost predicate Replayable(s: Store, rows: seq<HardenedBlock>)
      requires History.Valid(chain, s)
      decreases |rows|
    {
      rows == [] ||
      if rows[0].blockHash in s.blocks then Replayable(s, rows[1..])
      else rows[0].blockHash != chain.genesis && Passes(chain, s.blocks, rows[0])
           && (InsertKeepsValid(chain, s, rows[0]); Replayable(Insert(s, rows[0]), rows[1..]))
    }

    /** `self.blocks[...] = hb` and the child list, which `accept` and `restore` share. */
    method Keep(hb: HardenedBlock)
      requires History.Valid(chain, State()) && Passes(chain, blocks, hb) && IsFresh(chain, State(), hb.blockHash)
      modifies this`blocks, this`children
      ensures State() == Insert(old(State()), hb) && History.Valid(chain, State())
    {
      InsertKeepsValid(chain, State(), hb);
      blocks := blocks[hb.blockHash := hb];
      children := children[hb.prevHash := (if hb.prevHash in children then children[hb.prevHash]
                                           else []) + [hb.blockHash]];
    }

    /** The loop over the rows. With checking on it raises at the first new row that fails. */
    method Load(rows: seq<HardenedBlock>, verify: bool) returns (r: Option<nat>)
      requires History.Valid(chain, State()) && (forall row <- rows :: row.blockHash != chain.genesis)
               && (verify || Replayable(State(), rows))
      modifies this`blocks, this`children
      ensures History.Valid(chain, State()) && blocks.Keys >= old(blocks).Keys
      ensures r.Some? <==> Replayable(old(State()), rows)
      ensures r.Some? ==> State() == Replayed(chain, old(State()), rows) && r.value == |blocks| - |old(blocks)|
    {
      var restored := 0;
      for i := 0 to |rows|
        invariant History.Valid(chain, State()) && (Replayable(State(), rows[i..]) <==> Replayable(old(State()), rows))
        invariant Replayed(chain, State(), rows[i..]) == Replayed(chain, old(State()), rows)
        invariant restored == |blocks| - |old(blocks)| && blocks.Keys >= old(blocks).Keys
      {
        var hb := rows[i];
        assert rows[i..][0] == hb && rows[i..][1..] == rows[i + 1..] && hb in rows;
        if hb.blockHash in blocks {
          continue;
        }
        if verify {
          var v := Check(hb);
          if !v.Passed? {
            return None;
          }
        }
        Keep(hb);
        restored := restored + 1;
      }
      return Some(restored);
    }

    /** Load stored rows in height order, skipping hashes already held, then choose the tip once. None where a checked
        row fails: the rows before it stay, the tip is not chosen. A node that starts from nothing never halts. */
    method Restore(rows: seq<HardenedBlock>, verify: bool) returns (restored: Option<nat>)
      requires Valid() && (forall row <- rows :: row.blockHash != chain.genesis)
               && (verify || Replayable(State(), rows))
      modifies this
      ensures History.Valid(chain, State()) && (restored.Some? <==> Replayable(old(State()), rows))
              && (restored.Some? ==> Valid())
      ensures restored.Some? ==>
                State() == Replayed(chain, old(State()), rows) && restored.value == |blocks| - |old(blocks)|
      ensures restored.Some? ==> exists best, fork ::
              Retipped(chain, blocks, reorgLimit, old(tipHash), old(halt), tipHash, halt, best, fork)
      ensures restored.None? ==> tipHash == old(tipHash) && halt == old(halt)
      ensures restored.Some? && old(tipHash) == chain.genesis && old(halt).None? && reorgLimit >= 0 ==> halt.None?
    {
      hide CommitteeOn, Replayed, HardeningParams.StampWeight, Beats, NetworkHistory.Replayable, StampsHold, Spent,
        Passes,
           HardeningParams.Valid, HardeningParams.Threshold, CumulativeAt, Insert;
      restored := Load(rows, verify);
      if restored.None? {
        return;
      }
      ghost var best, fork := Retip();
      if old(tipHash) == chain.genesis {
        AncestorIsLower(chain, blocks, fork, chain.genesis);
      }
    }

    // ---- producing ----

    /** Draw the committee, mine the stamps the caller can make, and put the block together. None when the
        draw, the clock-free mining budget aside, raises. */
    method Harden(blockHash: Hash, era: Era, prev: Option<Hash>, absent: set<int>, owned: Option<set<int>>)
      returns (r: Option<HardenedBlock>)
      requires History.Valid(chain, State()) && era.Built()
      ensures r.Some? ==>
                var hb, on := r.value, if prev.Some? then prev.value else tipHash;
                && hb.blockHash == blockHash && hb.prevHash == on && CommitteeOn(chain, blocks, on) == Drawn(hb.drawn)
                && MinedFrom(era, hb.stamps, hb.drawn, AnchorOf(chain, blockHash, HeightAt(chain, blocks, on) + 1),
                             absent, owned)
                && (era.Spec() == chain.spec ==>
                      (Passes(chain, blocks, hb) <==>
                       Known(chain, blocks, on) && |hb.stamps| >= chain.params.Threshold()))
      ensures r.None? ==> !CommitteeOn(chain, blocks, if prev.Some? then prev.value else tipHash).Drawn?
                          || chain.spec.turns > era.turns || chain.spec.turns > FOUR_BYTES
                          || chain.params.difficultyBits >= 256
    {
      hide SetOf, Era.Spec, TheDraw, HardeningParams.Valid;
      var on := if prev.Some? then prev.value else tipHash;
      var height := HeightAt(chain, blocks, on) + 1;
      var spent := SpentUpto(on);
      var drawing := DrawTurns(chain.probes, SeedOn(chain, height, on), chain.spec.turns, spent, chain.params.width);
      if !drawing.Drawn? {
        return None;
      }
      CommitteeIsFresh(chain.probes, SeedOn(chain, height, on), chain.spec.turns, spent, chain.params.width);
      var anchor := AnchorOf(chain, blockHash, height);
      var stamps := MineAll(era, drawing.turns, anchor, absent, owned);
      if stamps.None? {
        return None;
      }
      var weight := |stamps.value| * chain.params.StampWeight();
      var hb := HardenedBlock(blockHash, height, on, chain.spec.eraId, drawing.turns, stamps.value, weight,
                              CumulativeAt(chain, blocks, on) + weight, RootOfTurns(spent + SetOf<nat>(drawing.turns)));
      if era.Spec() == chain.spec {
        OwnStampsHold(era, hb, anchor);
      }
      return Some(hb);
    }

    /** One stamp a drawn turn that is neither absent nor foreign and whose puzzle the budget solves. */
    ghost predicate MinedFrom(era: Era, stamps: seq<Stamp>, drawn: seq<nat>, anchor: Anchor, absent: set<int>,
                              owned: Option<set<int>>) {
      && (forall i | 0 <= i < |stamps| ::
            && stamps[i].leafIndex in drawn && stamps[i].leafIndex !in absent
            && (owned.Some? ==> stamps[i].leafIndex in owned.value)
            && IsOwn(era, stamps[i], anchor, chain.puzzle)
            && Solves(chain.puzzle, anchor, stamps[i].leafIndex, stamps[i].nonce, chain.params.difficultyBits))
      && (forall i, j | 0 <= i < j < |stamps| :: stamps[i].leafIndex != stamps[j].leafIndex)
      && (forall t <- drawn | t !in absent && (owned.Some? ==> t in owned.value) ::
            (exists i :: 0 <= i < |stamps| && stamps[i].leafIndex == t)
            || forall nonce | 0 <= nonce < MAX_TRIES ::
               !Solves(chain.puzzle, anchor, t, nonce, chain.params.difficultyBits))
    }

    method MineAll(era: Era, drawn: seq<nat>, anchor: Anchor, absent: set<int>, owned: Option<set<int>>)
      returns (r: Option<seq<Stamp>>)
      requires era.Built() && Distinct(drawn) && forall t <- drawn :: t < chain.spec.turns
      ensures r.Some? ==> MinedFrom(era, r.value, drawn, anchor, absent, owned)
      ensures r.None? ==>
                chain.spec.turns > era.turns || chain.spec.turns > FOUR_BYTES
                || chain.params.difficultyBits >= 256
    {
      var stamps: seq<Stamp> := [];
      for n := 0 to |drawn|
        invariant MinedFrom(era, stamps, drawn[..n], anchor, absent, owned)
      {
        var t := drawn[n];
        assert t in drawn && drawn[..n + 1] == drawn[..n] + [t];
        assert t !in drawn[..n];
        if t in absent || (owned.Some? && t !in owned.value) {
          continue;
        }
        var mining := Mine(era, t, anchor, chain.params.difficultyBits, chain.puzzle);
        match mining {
          case Mined(stamp) =>
            ghost var was := stamps;
            stamps := stamps + [stamp];
            assert stamps[|was|].leafIndex == t;
            assert forall i | 0 <= i < |was| :: stamps[i] == was[i];
          case NoNonce =>
          case Malformed => return None;
        }
      }
      assert drawn[..|drawn|] == drawn;
      return Some(stamps);
    }

    lemma OwnStampsHold(era: Era, hb: HardenedBlock, anchor: Anchor)
      requires era.Built() && era.levels != [] && era.levels[|era.levels| - 1] != [] && era.Spec() == chain.spec
      requires anchor == AnchorOf(chain, hb.blockHash, hb.height)
      requires forall i | 0 <= i < |hb.stamps| ::
                 && hb.stamps[i].leafIndex in hb.drawn && IsOwn(era, hb.stamps[i], anchor, chain.puzzle)
                 && Solves(chain.puzzle, anchor, hb.stamps[i].leafIndex, hb.stamps[i].nonce,
                           chain.params.difficultyBits)
      requires forall i, j | 0 <= i < j < |hb.stamps| :: hb.stamps[i].leafIndex != hb.stamps[j].leafIndex
      ensures StampsHold(chain, hb)
    {
      forall i | 0 <= i < |hb.stamps| ensures StampHolds(chain, hb, hb.stamps[i]) {
        MinedIsAccepted(era, hb.stamps[i], anchor, chain.params.difficultyBits, chain.puzzle);
      }
    }

    /** Put together stamps that came from several places. The block passes exactly when enough turns sent
        something and the first thing each drawn turn sent verifies: a bad stamp that arrives first is not
        dropped, and costs the block. */
    method Assemble(blockHash: Hash, stamps: seq<Stamp>, prev: Option<Hash>) returns (r: Option<HardenedBlock>)
      requires History.Valid(chain, State())
      ensures var on := if prev.Some? then prev.value else tipHash;
              && (r.None? <==> !CommitteeOn(chain, blocks, on).Drawn?)
              && (r.Some? ==>
                    var hb := r.value;
                    && hb.blockHash == blockHash && hb.prevHash == on && Keeps(hb.stamps, stamps, hb.drawn)
                    && (Passes(chain, blocks, hb) <==>
                          && Known(chain, blocks, on) && |hb.stamps| >= chain.params.Threshold()
                          && forall t <- hb.drawn | FirstOf(stamps, t).Some? ::
                             StampHolds(chain, hb, FirstOf(stamps, t).value)))
    {
      var on := if prev.Some? then prev.value else tipHash;
      var height := HeightAt(chain, blocks, on) + 1;
      var spent := SpentUpto(on);
      var drawing := DrawTurns(chain.probes, SeedOn(chain, height, on), chain.spec.turns, spent, chain.params.width);
      if !drawing.Drawn? {
        return None;
      }
      var keep := KeepFirst(stamps, drawing.turns);
      var weight := |keep| * chain.params.StampWeight();
      var hb := HardenedBlock(blockHash, height, on, chain.spec.eraId, drawing.turns, keep, weight,
                              CumulativeAt(chain, blocks, on) + weight, RootOfTurns(spent + SetOf<nat>(drawing.turns)));
      KeptHoldIff(hb, stamps);
      return Some(hb);
    }

    lemma KeptHoldIff(hb: HardenedBlock, stamps: seq<Stamp>)
      requires Keeps(hb.stamps, stamps, hb.drawn)
      ensures StampsHold(chain, hb) <==> forall t <- hb.drawn | FirstOf(stamps, t).Some? ::
              StampHolds(chain, hb, FirstOf(stamps, t).value)
    {
      if StampsHold(chain, hb) {
        forall t <- hb.drawn | FirstOf(stamps, t).Some? ensures StampHolds(chain, hb, FirstOf(stamps, t).value) {
          var i :| 0 <= i < |hb.stamps| && hb.stamps[i] == FirstOf(stamps, t).value;
          assert StampHolds(chain, hb, hb.stamps[i]);
        }
      }
    }
  }
}
