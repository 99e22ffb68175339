/**
 What a stamp is bound to (chain/hardening/stamp.py, chain/hardening/draw.py): one block, its height and its era, so the
 work and the turns spent on one block harden no other; and what a draw follows from.
 */
module StampBinding {
  import opened Basics
  import opened Seats
  import opened Wots
  import opened EraPool
  import opened Stamps
  import opened Draw
  import opened History
  import opened HistoryTheorems

  // ---- a signature tells messages apart ----

  /** How many links a chain value has been walked. */
  function Links(x: Value): nat {
    match x
    case Link(_, _, _, _, inner) => Links(inner) + 1
    case _ => 0
  }

  lemma {:induction false} LinksOfChain(x: Value, start: nat, steps: nat, pubSeed: Value, index: nat, chain: nat)
    ensures Links(Wots.Chain(x, start, steps, pubSeed, index, chain)) == Links(x) + steps
  {
    if steps > 0 {
      LinksOfChain(x, start, steps - 1, pubSeed, index, chain);
    }
  }

  lemma {:induction false} NibblesTell(a: seq<Byte>, b: seq<Byte>)
    requires |a| == |b| && forall i: nat | i < 2 * |a| :: Nibble(a, i) == Nibble(b, i)
    ensures a == b
  {
    forall k | 0 <= k < |a| ensures a[k] == b[k] {
      assert Nibble(a, 2 * k) == a[k] / 16 && Nibble(b, 2 * k) == b[k] / 16;
      assert Nibble(a, 2 * k + 1) == a[k] % 16 && Nibble(b, 2 * k + 1) == b[k] % 16;
    }
  }

  /** Whoever made it, one signature is of one message. */
  lemma SignatureFixesMessage(master: nat, pubSeed: Value, master': nat, pubSeed': Value, index: nat, m: seq<Byte>,
                              m': seq<Byte>)
    requires |m| == N == |m'| && SignatureOf(master, pubSeed, index, m) == SignatureOf(master', pubSeed', index, m')
    ensures m == m'
  {
    hide Nibble, Checksum;
    forall i: nat | i < 2 * N ensures Nibble(m, i) == Nibble(m', i) {
      assert SignatureOf(master, pubSeed, index, m)[i] == Part(master, pubSeed, index, m, i);
      assert SignatureOf(master', pubSeed', index, m')[i] == Part(master', pubSeed', index, m', i);
      LinksOfChain(Secret(master, index, i), 0, Digit(m, i), pubSeed, index, i);
      LinksOfChain(Secret(master', index, i), 0, Digit(m', i), pubSeed', index, i);
    }
    NibblesTell(m, m');
  }

  // ---- a stamp is for one block ----

  /** One turn and nonce give two anchors one puzzle hash: a collision of the hash, for everyone to see. */
  predicate Collide(puzzle: Puzzle, a: Anchor, b: Anchor, leafIndex: int, nonce: int) {
    a != b && puzzle(a, leafIndex, nonce) == puzzle(b, leafIndex, nonce)
  }

  /** A stamp that verifies in two blocks, in whichever eras, is in two blocks of one hash, one height and one era, or
      the two are a collision of the puzzle hash. */
  lemma StampIsForOneBlock(era: Era, other: Era, c: History.Chain, d: History.Chain, x: HardenedBlock,
                           y: HardenedBlock, stamp: Stamp)
    requires era.Built() && era.levels != [] && era.levels[|era.levels| - 1] != [] && c.spec == era.Spec()
    requires other.Built() && other.levels != [] && other.levels[|other.levels| - 1] != [] && d.spec == other.Spec()
    requires c.puzzle == d.puzzle && StampHolds(c, x, stamp) && StampHolds(d, y, stamp)
    ensures || (x.blockHash == y.blockHash && x.height == y.height && c.spec.root == d.spec.root)
            || Collide(c.puzzle, Anchor(x.blockHash, x.height, c.spec.root), Anchor(y.blockHash, y.height, d.spec.root),
                       stamp.leafIndex, stamp.nonce)
  {
    hide Era.Built, Era.Spec, Era.IsAuthPath, Accepts, SignatureOf;
    var a, b := AnchorOf(c, x.blockHash, x.height), AnchorOf(d, y.blockHash, y.height);
    AcceptsIff(era, stamp, a, c.params.difficultyBits, c.puzzle);
    AcceptsIff(other, stamp, b, d.params.difficultyBits, d.puzzle);
    SignatureFixesMessage(era.master, era.Seed(), other.master, other.Seed(), stamp.leafIndex,
                          c.puzzle(a, stamp.leafIndex, stamp.nonce), c.puzzle(b, stamp.leafIndex, stamp.nonce));
  }

  /** So in a history no stamp hardens two blocks, unless these two collide. */
  lemma NoStampHardensTwo(era: Era, c: History.Chain, s: Store, g: Hash, h: Hash, i: nat, j: nat)
    requires era.Built() && era.levels != [] && era.levels[|era.levels| - 1] != [] && c.spec == era.Spec()
    requires Valid(c, s) && g in s.blocks && h in s.blocks
    requires i < |s.blocks[g].stamps| && j < |s.blocks[h].stamps| && s.blocks[g].stamps[i] == s.blocks[h].stamps[j]
    ensures || (g == h && i == j)
            || Collide(c.puzzle, Anchor(g, s.blocks[g].height, c.spec.root), Anchor(h, s.blocks[h].height, c.spec.root),
                       s.blocks[g].stamps[i].leafIndex, s.blocks[g].stamps[i].nonce)
  {
    hide Era.Built, Era.Spec, Spent, Indexed;
    var x, y := s.blocks[g], s.blocks[h];
    assert Passes(c, s.blocks, x) && Passes(c, s.blocks, y);
    assert StampHolds(c, x, x.stamps[i]) && StampHolds(c, y, y.stamps[j]);
    StampIsForOneBlock(era, era, c, c, x, y, x.stamps[i]);
  }

  /** Whose work it is: a drawn turn's, on this block's hash and height in this era, of the required difficulty. */
  lemma StampIsWork(c: History.Chain, blocks: Blocks, hb: HardenedBlock, i: nat)
    requires Rooted(c, blocks) && c.params.Valid() && Passes(c, blocks, hb) && i < |hb.stamps|
    ensures var s := hb.stamps[i];
            && s.leafIndex in hb.drawn && 0 <= s.leafIndex < c.spec.turns && 0 <= c.params.difficultyBits < 256
            && BigEndian(c.puzzle(Anchor(hb.blockHash, hb.height, c.spec.root), s.leafIndex, s.nonce)) <
               Pow2(256 - c.params.difficultyBits)
  {
    hide Recovered, IsMember, CommitteeOn, Spent;
    assert StampHolds(c, hb, hb.stamps[i]);
  }

  // ---- what a committee follows from ----

  /** The committee of a block is the first `width` turns, unspent on its branch, that the stream of its parent, height
      and era points at. */
  lemma CommitteeIsOfTheParent(c: History.Chain, blocks: Blocks, hb: HardenedBlock)
    requires Rooted(c, blocks) && c.params.Valid() && Passes(c, blocks, hb)
    ensures Drawn(hb.drawn) == TheDraw(c.probes, DrawSeed(hb.prevHash, hb.height, c.spec.root), c.spec.turns,
                                       Spent(c, blocks, hb.prevHash), c.params.width)
  {
    hide TheDraw, Spent, StampsHold;
  }

  ghost predicate SameStream(probes: Probes, s: DrawSeed, t: DrawSeed) {
    forall k: nat :: probes(s, k) == probes(t, k)
  }

  /** Where every seed has a stream of its own, two blocks are drawn from one stream only on one parent, at one height
      and in one era. */
  lemma StreamsTellParents(c: History.Chain, d: History.Chain, p: Hash, q: Hash, height: int, height': int)
    requires c.probes == d.probes
    requires forall s, t {:trigger SameStream(c.probes, s, t)} :: SameStream(c.probes, s, t) ==> s == t
    requires SameStream(c.probes, SeedOn(c, height, p), SeedOn(d, height', q))
    ensures p == q && height == height' && c.spec.root == d.spec.root
  {
    hide SameStream;
  }

  // ---- what the spent root commits ----

  lemma SpentRootIs(c: History.Chain, blocks: Blocks, h: Hash)
    requires Rooted(c, blocks) && c.params.Valid() && h in blocks && Passes(c, blocks, blocks[h])
    ensures blocks[h].spentRoot == RootOfTurns(Spent(c, blocks, h)) && blocks[h].eraId == c.spec.eraId
    ensures blocks[h].height == HeightAt(c, blocks, h) >= 0
  {
    hide StampsHold, CommitteeOn;
    assert blocks[h].blockHash == h;
    assert SetOf<nat>(blocks[h].drawn) + Spent(c, blocks, blocks[h].prevHash) ==
           Spent(c, blocks, blocks[h].prevHash) + SetOf<nat>(blocks[h].drawn);
  }

  /** A block commits exactly the turns spent on its branch, itself included: one root, one set of turns, one height. */
  lemma SpentRootPinsTheTurns(c: History.Chain, s: Store, g: Hash, h: Hash)
    requires Valid(c, s) && g in s.blocks && h in s.blocks && s.blocks[g].spentRoot == s.blocks[h].spentRoot
    ensures Spent(c, s.blocks, g) == Spent(c, s.blocks, h) && s.blocks[g].height == s.blocks[h].height
  {
    hide Indexed, Passes, Spent, Rooted, HeightAt;
    SpentRootIs(c, s.blocks, g);
    SpentRootIs(c, s.blocks, h);
    BranchCounts(c, s, g);
    BranchCounts(c, s, h);
    SameProduct(HeightAt(c, s.blocks, g), HeightAt(c, s.blocks, h), c.params.width);
  }

  lemma SameProduct(a: nat, b: nat, w: nat)
    requires a * w == b * w && w > 0
    ensures a == b
  {
    assert (a - b) * w == 0;
  }
}
