/**
 The era: one-time keys under a Merkle root (chain/hardening/pool.py).

 A leaf of the tree is the 32 bytes of a public key, or a retired constant; `Leaf` embeds them, and is
 never a node because the node hash has its own tag.
 */
module EraPool {
  import opened Basics
  import opened Digests
  import opened Wots

  type Hash32 = Digest<Value>

  /** Everything a verifier needs. */
  datatype EraSpec = EraSpec(eraId: int, treeHeight: nat, turns: nat, pubSeed: Value, root: Hash32)

  /** The operator's side, which holds the master seed; it is never changed once built. */
  datatype Era = Era(eraId: int, master: nat, treeHeight: nat, turns: nat, levels: seq<seq<Hash32>>) {
    function Seed(): Value {
      Value.PubSeed(master, eraId)
    }

    function LeafAt(index: nat): Value {
      if index >= turns then Retired(eraId, index) else KeyOf(master, Seed(), index)
    }

    function Leaves(): map<nat, Value> {
      map i: nat | i < Pow2(treeHeight) :: LeafAt(i)
    }

    /** Level k of the table holds the tree's nodes at that level. */
    ghost predicate Built() {
      && turns <= Pow2(treeHeight) && |levels| == treeHeight + 1
      && forall k: nat | k <= treeHeight :: LevelIs(k, levels[k])
    }

    ghost predicate LevelIs(k: nat, level: seq<Hash32>) {
      k <= treeHeight && |level| == Pow2(treeHeight - k)
        && forall i: nat | i < |level| :: level[i] == Sub(Leaves(), k, i)
    }

    function Spec(): EraSpec
      requires levels != [] && levels[|levels| - 1] != []
    {
      EraSpec(eraId, treeHeight, turns, Seed(), levels[|levels| - 1][0])
    }

    lemma SpecIsRoot()
      requires Built()
      ensures levels != [] && levels[|levels| - 1] != [] && Spec().root == Root(Leaves(), treeHeight)
    {
      assert LevelIs(treeHeight, levels[treeHeight]);
    }

    /** The siblings of leaf `index` on its way to the root; None where the list lookup fails. */
    method AuthPath(index: nat) returns (r: Option<seq<Hash32>>)
      requires Built()
      ensures r.None? <==> treeHeight > 0 && index >= Pow2(treeHeight)
      ensures r.Some? ==> IsAuthPath(index, r.value)
    {
      hide Leaves, Sub, Sibling, Built, LevelIs, BesideWay;
      AtTheLeaf(index);
      var path: seq<Hash32> := [];
      var i := index;
      for k := 0 to treeHeight
        invariant i == Ancestor(index, k) && |path| == k
        invariant k > 0 ==> index < Pow2(treeHeight)
        invariant BesideWay(index, path)
      {
        LevelHolds(k);
        AncestorBelow(index, k, treeHeight);
        if Sibling(i) >= |levels[k]| {
          return None;
        }
        BesideGrows(index, path, levels[k][Sibling(i)]);
        path := path + [levels[k][Sibling(i)]];
        i := i / 2;
      }
      BesideAll(index, path);
      return Some(path);
    }

    lemma AtTheLeaf(index: nat)
      requires Built()
      ensures |levels| == treeHeight + 1 && BesideWay(index, [])
    {
    }

    lemma LevelHolds(k: nat)
      requires Built() && k <= treeHeight
      ensures |levels| == treeHeight + 1 && |levels[k]| == Pow2(treeHeight - k)
              && forall i: nat | i < |levels[k]| :: levels[k][i] == Sub(Leaves(), k, i)
    {
      hide Leaves, Sub, Pow2;
      assert LevelIs(k, levels[k]);
    }

    ghost predicate IsAuthPath(index: nat, path: seq<Hash32>) {
      |path| == treeHeight && forall l: nat | l < treeHeight :: path[l] == Sub(Leaves(), l, Sibling(Ancestor(index, l)))
    }

    /** The same of the first levels. */
    ghost predicate BesideWay(index: nat, path: seq<Hash32>) {
      forall l: nat | l < |path| :: path[l] == Sub(Leaves(), l, Sibling(Ancestor(index, l)))
    }

    lemma BesideGrows(index: nat, path: seq<Hash32>, next: Hash32)
      requires BesideWay(index, path) && next == Sub(Leaves(), |path|, Sibling(Ancestor(index, |path|)))
      ensures BesideWay(index, path + [next])
    {
      hide Leaves, Sub, Sibling, Ancestor;
      forall l: nat | l < |path| + 1 ensures (path + [next])[l] == Sub(Leaves(), l, Sibling(Ancestor(index, l))) {
        if l < |path| {
          assert (path + [next])[l] == path[l];
        }
      }
    }

    lemma BesideAll(index: nat, path: seq<Hash32>)
      requires BesideWay(index, path) && |path| == treeHeight
      ensures IsAuthPath(index, path)
    {
    }
  }

  /** Level k of a tree of height h > k has room for the sibling of an index exactly when the leaf index
      is in range. */
  lemma AncestorBelow(index: nat, k: nat, h: nat)
    requires k < h
    ensures Sibling(Ancestor(index, k)) < Pow2(h - k) <==> index < Pow2(h)
  {
    AncestorUnder(index, k, h);
    assert Pow2(h - k) == 2 * Pow2(h - k - 1);
  }

  lemma {:induction false} AncestorUnder(index: nat, k: nat, h: nat)
    requires k <= h
    ensures Ancestor(index, k) < Pow2(h - k) <==> index < Pow2(h)
  {
    if k > 0 {
      AncestorUnder(index, k - 1, h);
      assert Pow2(h - (k - 1)) == 2 * Pow2(h - k);
    }
  }

  /** `Era`: None when the turns do not fit in the tree. */
  method NewEra(eraId: int, master: nat, treeHeight: nat, turns: nat) returns (r: Option<Era>)
    ensures r.None? <==> turns > Pow2(treeHeight)
    ensures r.Some? ==> r.value.Built() && r.value.eraId == eraId && r.value.master == master
                        && r.value.treeHeight == treeHeight && r.value.turns == turns
  {
    if turns > Pow2(treeHeight) {
      return None;
    }
    var era := Era(eraId, master, treeHeight, turns, []);
    var level: seq<Hash32> := [];
    for i := 0 to Pow2(treeHeight)
      invariant |level| == i && forall j: nat | j < i :: level[j] == Sub(era.Leaves(), 0, j)
    {
      level := level + [Leaf(era.LeafAt(i))];
    }
    assert era.LevelIs(0, level);
    var levels := [level];
    while |level| > 1
      invariant 1 <= |levels| <= treeHeight + 1 && level == levels[|levels| - 1]
      invariant forall k: nat | k < |levels| :: era.LevelIs(k, levels[k])
      decreases treeHeight + 1 - |levels|
    {
      ghost var k := |levels| - 1;
      assert era.LevelIs(k, level);
      assert k < treeHeight;
      level := LevelAbove(era, k, level);
      levels := levels + [level];
    }
    assert era.LevelIs(|levels| - 1, level);
    AloneAtTheTop(treeHeight - (|levels| - 1));
    era := Era(eraId, master, treeHeight, turns, levels);
    SameLevels(Era(eraId, master, treeHeight, turns, []), era);
    return Some(era);
  }

  lemma SameLevels(blank: Era, era: Era)
    requires blank == era.(levels := [])
    requires |era.levels| == era.treeHeight + 1
             && forall k: nat | k <= era.treeHeight :: blank.LevelIs(k, era.levels[k])
    ensures forall k: nat | k <= era.treeHeight :: era.LevelIs(k, era.levels[k])
  {
    assert blank.Leaves() == era.Leaves();
    forall k: nat | k <= era.treeHeight ensures era.LevelIs(k, era.levels[k]) {
      assert blank.LevelIs(k, era.levels[k]);
    }
  }

  lemma AloneAtTheTop(n: nat)
    ensures Pow2(n) == 1 <==> n == 0
  {
  }

  method LevelAbove(era: Era, ghost k: nat, level: seq<Hash32>) returns (above: seq<Hash32>)
    requires k < era.treeHeight && era.LevelIs(k, level)
    ensures era.LevelIs(k + 1, above)
  {
    above := [];
    assert |level| == 2 * Pow2(era.treeHeight - (k + 1));
    for i := 0 to |level| / 2
      invariant |above| == i && forall j: nat | j < i :: above[j] == Sub(era.Leaves(), k + 1, j)
    {
      above := above + [Node(level[2 * i], level[2 * i + 1])];
    }
  }

  // ---- the verifier's side ----

  method MerkleRootFromPath(index: nat, leaf: Value, path: seq<Hash32>) returns (node: Hash32)
    ensures node == Climb(Leaf(leaf), index, path)
  {
    node := Leaf(leaf);
    var i := index;
    for l := 0 to |path|
      invariant i == Ancestor(index, l) && node == Climb(Leaf(leaf), index, path[..l])
    {
      assert path[..l + 1][..l] == path[..l];
      node := Join(i, node, path[l]);
      i := i / 2;
    }
    assert path[..|path|] == path;
  }

  predicate IsMember(spec: EraSpec, index: int, leaf: Value, path: seq<Hash32>) {
    0 <= index < Pow2(spec.treeHeight) && |path| == spec.treeHeight && Climb(Leaf(leaf), index, path) == spec.root
  }

  method VerifyMembership(spec: EraSpec, index: int, leaf: Value, path: seq<Hash32>) returns (ok: bool)
    ensures ok <==> IsMember(spec, index, leaf, path)
  {
    if !(0 <= index < Pow2(spec.treeHeight)) || |path| != spec.treeHeight {
      return false;
    }
    var root := MerkleRootFromPath(index, leaf, path);
    return root == spec.root;
  }

  /** Siblings that climb to a tree's own node are the tree's own siblings. */
  lemma {:induction false} ClimbPins<V>(leaves: map<nat, V>, pos: nat, value: V, siblings: seq<Digest<V>>)
    requires Climb(Leaf(value), pos, siblings) == Sub(leaves, |siblings|, Ancestor(pos, |siblings|))
    ensures forall l: nat | l < |siblings| :: siblings[l] == Sub(leaves, l, Sibling(Ancestor(pos, l)))
  {
    if siblings != [] {
      var n := |siblings| - 1;
      JoinChildren(leaves, n, Ancestor(pos, n));
      ClimbPins(leaves, pos, value, siblings[..n]);
      forall l: nat | l < n ensures siblings[l] == Sub(leaves, l, Sibling(Ancestor(pos, l))) {
        assert siblings[..n][l] == siblings[l];
      }
    }
  }

  /** Membership accepts, at each index, the leaf that is there with the tree's own path, and nothing
      else. */
  lemma MembershipIff(era: Era, index: nat, leaf: Value, path: seq<Hash32>)
    requires era.Built() && index < Pow2(era.treeHeight)
    ensures era.levels != [] && era.levels[|era.levels| - 1] != []
    ensures IsMember(era.Spec(), index, leaf, path) <==> leaf == era.LeafAt(index) && era.IsAuthPath(index, path)
  {
    var leaves := era.Leaves();
    era.SpecIsRoot();
    AncestorOfAll(index, era.treeHeight);
    if IsMember(era.Spec(), index, leaf, path) {
      ClimbOpens(leaves, era.treeHeight, 0, leaf, index, path);
      ClimbPins(leaves, index, leaf, path);
    }
    if leaf == era.LeafAt(index) && era.IsAuthPath(index, path) {
      ClimbFollows(leaves, index, path);
    }
  }

  /** The only keys an era knows are those of its turns, each at its own index: what is padded up to a full tree is
      nobody's. */
  lemma OnlyItsOwnKeys(era: Era, index: nat, pubSeed: Value, at: nat, ends: seq<Value>, path: seq<Hash32>)
    requires era.Built() && era.levels != [] && era.levels[|era.levels| - 1] != []
    requires IsMember(era.Spec(), index, PublicKey(pubSeed, at, ends), path)
    ensures index < era.turns && PublicKey(pubSeed, at, ends) == KeyOf(era.master, era.Seed(), index) && at == index
  {
    MembershipIff(era, index, PublicKey(pubSeed, at, ends), path);
  }

  /** No key serves two turns, two eras or two operators. */
  lemma KeysTellEras(a: Era, b: Era, i: nat, j: nat)
    requires KeyOf(a.master, a.Seed(), i) == KeyOf(b.master, b.Seed(), j)
    ensures a.master == b.master && a.eraId == b.eraId && i == j
  {
  }
}
