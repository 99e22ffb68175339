/**
 The fixed-height sparse Merkle tree of chain/seal.py, updated in place.

 `leaves` is the tree's meaning: which positions hold which values. The stored table keeps exactly
 the nodes that differ from their level's default, so it is a function of `leaves` alone.
 */
module WitnessTree {
  import opened Basics
  import opened Digests
  import opened WitnessProof

  type Table<V> = map<(nat, nat), Digest<V>>

  /** The one table a tree of this height may hold for these leaves. */
  ghost predicate Canonical<V>(nodes: Table<V>, leaves: map<nat, V>, height: nat) {
    forall l: nat, i: nat ::
      && ((l, i) in nodes <==> l <= height && Sub(leaves, l, i) != Default(l))
      && ((l, i) in nodes ==> nodes[(l, i)] == Sub(leaves, l, i))
  }

  lemma CanonicalIsUnique<V>(a: Table<V>, b: Table<V>, leaves: map<nat, V>, height: nat)
    requires Canonical(a, leaves, height) && Canonical(b, leaves, height)
    ensures a == b
  {
    forall key: (nat, nat)
      ensures key in a <==> key in b
      ensures key in a ==> a[key] == b[key]
    {
      var (l, i) := key;
      assert (l, i) in a <==> (l, i) in b;
    }
  }

  /** Halfway through an update: levels up to `level` already show `now`, the others still `was`. */
  ghost predicate Climbing<V>(nodes: Table<V>, was: map<nat, V>, now: map<nat, V>, level: nat, height: nat) {
    forall l: nat, i: nat ::
      var leaves := if l <= level then now else was;
      && ((l, i) in nodes <==> l <= height && Sub(leaves, l, i) != Default(l))
      && ((l, i) in nodes ==> nodes[(l, i)] == Sub(leaves, l, i))
  }

  /** Changing one leaf leaves every node off its path alone. */
  lemma OffPathUnchanged<V>(was: map<nat, V>, now: map<nat, V>, pos: nat, level: nat, index: nat)
    requires now == was - {pos} || (pos in now && now == was[pos := now[pos]])
    requires index != Ancestor(pos, level)
    ensures Sub(now, level, index) == Sub(was, level, index)
  {
    SubLocal(now, was, level, index);
  }

  lemma OffPathLevel<V>(was: map<nat, V>, now: map<nat, V>, pos: nat, level: nat)
    requires now == was - {pos} || (pos in now && now == was[pos := now[pos]])
    ensures forall i: nat :: i != Ancestor(pos, level) ==> Sub(now, level, i) == Sub(was, level, i)
  {
    forall i: nat | i != Ancestor(pos, level) {
      OffPathUnchanged(was, now, pos, level, i);
    }
  }

  /** Storing the path's node one level up, or dropping it when it is the default, shows one more level of `now`. */
  lemma ClimbOn<V>(nodes: Table<V>, was: map<nat, V>, now: map<nat, V>, pos: nat, level: nat, height: nat)
    requires now == was - {pos} || (pos in now && now == was[pos := now[pos]])
    requires level < height && Climbing(nodes, was, now, level, height)
    ensures var key, node := (level + 1, Ancestor(pos, level + 1)), Sub(now, level + 1, Ancestor(pos, level + 1));
            Climbing(if node == Default(level + 1) then nodes - {key}
                     else nodes[key := node], was, now, level + 1, height)
  {
    hide Sub, Default, Ancestor;
    OffPathLevel(was, now, pos, level + 1);
  }

  lemma ClimbedUp<V>(nodes: Table<V>, was: map<nat, V>, now: map<nat, V>, height: nat)
    requires Climbing(nodes, was, now, height, height)
    ensures Canonical(nodes, now, height)
  {
    hide Sub, Default;
    forall l: nat, i: nat ensures (l, i) in nodes <==> l <= height && Sub(now, l, i) != Default(l)
    ensures (l, i) in nodes ==> nodes[(l, i)] == Sub(now, l, i) {
      assert (l, i) in nodes <==> l <= height && Sub(if l <= height then now else was, l, i) != Default(l);
    }
  }

  class WitnessTree<V(==)> {
    const height: nat
    var nodes: Table<V>
    var size: nat
    ghost var leaves: map<nat, V>

    ghost predicate Valid()
      reads this
    {
      && Canonical(nodes, leaves, height)
      && size <= Pow2(height)
      && forall p <- leaves :: p < Pow2(height)
    }

    /** No leaf lies past the declared size; clearing anything but the last leaf would break it. */
    ghost predicate Packed()
      reads this
    {
      forall p <- leaves :: p < size
    }

    constructor (height: nat)
      ensures Valid() && this.height == height && leaves == map[] && size == 0
    {
      this.height := height;
      nodes, size, leaves := map[], 0, map[];
      new;
      forall l: nat, i: nat ensures Sub<V>(map[], l, i) == Default(l) {
        SubOfNothing<V>(l, i);
      }
    }

    /** `clone`: the same nodes, in a table of its own. */
    constructor Clone(other: WitnessTree<V>)
      requires other.Valid()
      ensures Valid() && height == other.height && leaves == other.leaves && size == other.size
    {
      height, nodes, size, leaves := other.height, other.nodes, other.size, other.leaves;
    }

    function Get(level: nat, index: nat): Digest<V>
      reads this
    {
      if (level, index) in nodes then nodes[(level, index)] else Default(level)
    }

    function RootDigest(): (r: Digest<V>)
      requires Valid()
      reads this
      ensures r == Root(leaves, height)
    {
      Get(height, 0)
    }

    lemma GetIsSub(level: nat, index: nat)
      requires Valid() && level <= height
      ensures Get(level, index) == Sub(leaves, level, index)
    {
    }

    /** The level-by-level walk that `set` and `clear` share. */
    method Rehash(pos: nat, leaf: Digest<V>, ghost now: map<nat, V>)
      requires pos < Pow2(height)
      requires now == leaves - {pos} || (pos in now && now == leaves[pos := now[pos]])
      requires leaf == Sub(now, 0, pos)
      requires Climbing(nodes, leaves, now, 0, height)
      modifies this`nodes
      ensures Canonical(nodes, now, height)
    {
      var node, index: nat := leaf, pos;
      for level := 0 to height
        invariant index == Ancestor(pos, level) && node == Sub(now, level, index)
        invariant Climbing(nodes, leaves, now, level, height)
      {
        var sibling := Get(level, Sibling(index));
        assert sibling == Sub(now, level, Sibling(index));
        JoinChildren(now, level, index);
        node := Join(index, node, sibling);
        index := index / 2;
        assert node == Sub(now, level + 1, index) && index == Ancestor(pos, level + 1);
        ClimbOn(nodes, leaves, now, pos, level, height);
        if node == Default(level + 1) {
          nodes := nodes - {(level + 1, index)};
        } else {
          nodes := nodes[(level + 1, index) := node];
        }
      }
      ClimbedUp(nodes, leaves, now, height);
    }

    /** Put `value` at `pos`; refuses a position outside the tree. */
    method Set(pos: int, value: V) returns (ok: bool)
      requires Valid()
      modifies this
      ensures Valid()
      ensures ok <==> 0 <= pos < Pow2(height)
      ensures ok ==> leaves == old(leaves)[pos := value] && size == if old(size) > pos + 1 then old(size) else pos + 1
      ensures !ok ==> unchanged(this)
    {
      if !(0 <= pos < Pow2(height)) {
        return false;
      }
      ghost var now := leaves[pos as nat := value];
      nodes := nodes[(0, pos as nat) := Leaf(value)];
      forall i: nat | i != pos ensures Sub(now, 0, i) == Sub(leaves, 0, i) {
      }
      Rehash(pos, Leaf(value), now);
      size := if size > pos + 1 then size else pos + 1;
      leaves := now;
      return true;
    }

    /** Empty a slot. */
    method Clear(pos: nat)
      requires Valid()
      modifies this
      ensures Valid()
      ensures leaves == old(leaves) - {pos}
      ensures size == if pos in old(leaves) && pos < old(size) then pos else old(size)
    {
      assert (0, pos) in nodes <==> Sub(leaves, 0, pos) != Default(0);
      if (0, pos) !in nodes {
        assert leaves == leaves - {pos};
        return;
      }
      ghost var now := leaves - {pos};
      nodes := nodes - {(0, pos)};
      forall i: nat | i != pos ensures Sub(now, 0, i) == Sub(leaves, 0, i) {
      }
      Rehash(pos, Empty, now);
      size := if size < pos then size else pos;
      leaves := now;
    }

    /** Append at the current size. */
    method Append(value: V) returns (ok: bool)
      requires Valid()
      modifies this
      ensures Valid()
      ensures ok <==> old(size) < Pow2(height)
      ensures ok ==> leaves == old(leaves)[old(size) := value] && size == old(size) + 1
      ensures !ok ==> unchanged(this)
    {
      ok := Set(size, value);
    }

    /** Append every value in turn; stops at the first that does not fit. */
    method Extend(values: seq<V>) returns (ok: bool)
      requires Valid()
      modifies this
      ensures Valid()
      ensures ok <==> old(size) + |values| <= Pow2(height) || values == []
      ensures ok ==> size == old(size) + |values| && leaves == old(leaves) + Positioned(old(size), values)
    {
      ghost var start, before := size, leaves;
      for n := 0 to |values|
        invariant Valid() && size == start + n && leaves == before + Positioned(start, values[..n])
        invariant n == 0 || start + n <= Pow2(height)
      {
        ok := Append(values[n]);
        if !ok {
          return false;
        }
        assert values[..n + 1][..n] == values[..n];
        assert Positioned(start, values[..n + 1]) == Positioned(start, values[..n])[start + n := values[n]];
      }
      assert values[..|values|] == values;
      return true;
    }

    /** A proof that `pos` holds what it holds. */
    method Path(pos: nat) returns (proof: Proof<V>)
      requires Valid()
      ensures pos < Pow2(height) && pos in leaves ==> Accepts(leaves[pos], proof, Root(leaves, height))
      ensures proof.pos == pos && proof.height == height
    {
      hide Canonical, WitnessTree.Valid;
      var siblings: seq<Word<V>>, present: nat, index: nat := [], 0, pos;
      ghost var full: seq<Digest<V>> := [];
      for level := 0 to height
        invariant index == Ancestor(pos, level) && |full| == level
        invariant OwnSiblings(leaves, pos, full)
        invariant (present, siblings) == Compress(full)
      {
        var sibling := Get(level, Sibling(index));
        GetIsSub(level, Sibling(index));
        OwnSiblingsGrow(leaves, pos, full, sibling);
        CompressGrow(full, sibling);
        if sibling != Default(level) {
          present, siblings := present + Pow2(level), siblings + [Hex(sibling)];
        }
        full := full + [sibling];
        index := index / 2;
      }
      proof := Proof(pos, height, present, siblings);
      if pos < Pow2(height) && pos in leaves {
        OwnSiblingsAccepted(leaves, height, pos, full);
      }
    }

    /** The prefix digest of the node containing the cut, at every level. */
    method Boundary(k: nat) returns (out: seq<Digest<V>>)
      requires Valid()
      ensures |out| == height + 1 && Cuts(Prefix(leaves, k), k, out)
    {
      hide Canonical, WitnessTree.Valid;
      ghost var prefix := Prefix(leaves, k);
      var acc: Digest<V>, index: nat := Empty, k;
      out := [];
      for level := 0 to height
        invariant |out| == level && index == Ancestor(k, level) && acc == Sub(prefix, level, index)
        invariant Cuts(prefix, k, out)
      {
        CutsGrow(prefix, k, out, acc);
        out := out + [acc];
        JoinChildren(prefix, level, index);
        if index % 2 == 1 {
          GetIsSub(level, index - 1);
          BelowTheCut(leaves, k, level, index - 1);
          acc := Join(index, acc, Get(level, index - 1));
        } else {
          AboveTheCut(leaves, k, level, index + 1);
          acc := Join(index, acc, Default(level));
        }
        index := index / 2;
      }
      CutsGrow(prefix, k, out, acc);
      out := out + [acc];
    }

    /** The leaves a root or a path at cut `k` speaks of: those below the cut, or all of them from the declared size
        on. */
    ghost function UpTo(k: nat): (r: map<nat, V>)
      reads this
      ensures Packed() ==> r == Prefix(leaves, k)
    {
      if k < size then Prefix(leaves, k) else leaves
    }

    /** The root this tree had when it held only its first `k` leaves, as long as none lies past its size. */
    method RootAt(k: int) returns (root: Digest<V>)
      requires Valid()
      ensures root == if k <= 0 then Default(height) else Root(UpTo(k), height)
      ensures Packed() ==> root == Root(Prefix(leaves, if k < 0 then 0 else k), height)
    {
      if k <= 0 {
        SubOfNothing<V>(height, 0);
        assert Prefix(leaves, 0) == map[];
        return Default(height);
      }
      if k >= size {
        return RootDigest();
      }
      var boundary := Boundary(k);
      AncestorOfAll(k, height);
      return boundary[height];
    }

    /** A path for `pos` against the root the tree had at `k` leaves; None when `pos` is not below
        the cut. */
    method PathAt(pos: nat, k: nat) returns (r: Option<Proof<V>>)
      requires Valid()
      ensures r.None? <==> k < size && pos >= k
      ensures r.Some? ==> r.value.pos == pos && r.value.height == height
      ensures r.Some? && pos in leaves ==> Accepts(leaves[pos], r.value, Root(UpTo(k), height))
    {
      if k >= size {
        var p := Path(pos);
        return Some(p);
      }
      if !(0 <= pos < k) {
        return None;
      }
      ghost var prefix := Prefix(leaves, k);
      var boundary := Boundary(k);
      var siblings: seq<Word<V>>, present: nat, index: nat := [], 0, pos;
      ghost var full: seq<Digest<V>> := [];
      for level := 0 to height
        invariant index == Ancestor(pos, level) && |full| == level
        invariant OwnSiblings(prefix, pos, full)
        invariant (present, siblings) == Compress(full)
      {
        var s := Sibling(index);
        var sibling;
        if (s + 1) * Pow2(level) <= k {
          sibling := Get(level, s);
          GetIsSub(level, s);
          WhollyBelow(leaves, k, level, s);
        } else if s * Pow2(level) >= k {
          sibling := Default(level);
          WhollyAbove(leaves, k, level, s);
        } else {
          sibling := boundary[level];
          Straddles(k, level, s);
        }
        OwnSiblingsGrow(prefix, pos, full, sibling);
        CompressGrow(full, sibling);
        if sibling != Default(level) {
          present, siblings := present + Pow2(level), siblings + [Hex(sibling)];
        }
        full := full + [sibling];
        index := index / 2;
      }
      r := Some(Proof(pos, height, present, siblings));
      if pos in leaves {
        OwnSiblingsAccepted(prefix, height, pos, full);
      }
    }
  }

  /** `values` at consecutive positions from `start`. */
  function Positioned<V>(start: nat, values: seq<V>): map<nat, V> {
    if values == [] then map[] else
      var n := |values| - 1;
      Positioned(start, values[..n])[start + n := values[n]]
  }

  /** `out` lists the nodes containing position `k`, from the leaf level up. */
  ghost predicate Cuts<V>(leaves: map<nat, V>, k: nat, out: seq<Digest<V>>) {
    forall l | 0 <= l < |out| :: out[l] == Sub(leaves, l, Ancestor(k, l))
  }

  lemma {:induction false} CutsGrow<V>(leaves: map<nat, V>, k: nat, out: seq<Digest<V>>, next: Digest<V>)
    requires Cuts(leaves, k, out) && next == Sub(leaves, |out|, Ancestor(k, |out|))
    ensures Cuts(leaves, k, out + [next])
  {
  }

  // ---- where a node lies relative to the cut ----

  /** A node left of the cut's own node holds nothing but prefix leaves. */
  lemma BelowTheCut<V>(leaves: map<nat, V>, k: nat, level: nat, index: nat)
    requires index < Ancestor(k, level)
    ensures Sub(Prefix(leaves, k), level, index) == Sub(leaves, level, index)
  {
    forall p: nat | Ancestor(p, level) == index ensures p < k {
      if k <= p {
        AncestorMonotone(k, p, level);
      }
    }
    SubLocal(Prefix(leaves, k), leaves, level, index);
  }

  /** A node right of the cut's own node holds no prefix leaf. */
  lemma AboveTheCut<V>(leaves: map<nat, V>, k: nat, level: nat, index: nat)
    requires index > Ancestor(k, level)
    ensures Sub(Prefix(leaves, k), level, index) == Default(level)
  {
    forall p: nat | Ancestor(p, level) == index ensures p !in Prefix(leaves, k) {
      if p < k {
        AncestorMonotone(p, k, level);
      }
    }
    SubIsDefault(Prefix(leaves, k), level, index);
  }

  lemma WhollyBelow<V>(leaves: map<nat, V>, k: nat, level: nat, index: nat)
    requires (index + 1) * Pow2(level) <= k
    ensures Sub(Prefix(leaves, k), level, index) == Sub(leaves, level, index)
  {
    AncestorSpan(k, level);
    if Ancestor(k, level) <= index {
      MulMonotone(Ancestor(k, level) + 1, index + 1, Pow2(level));
    }
    BelowTheCut(leaves, k, level, index);
  }

  lemma WhollyAbove<V>(leaves: map<nat, V>, k: nat, level: nat, index: nat)
    requires index * Pow2(level) >= k
    ensures Sub(Prefix(leaves, k), level, index) == Default(level)
  {
    forall p: nat | Ancestor(p, level) == index ensures p !in Prefix(leaves, k) {
      AncestorSpan(p, level);
    }
    SubIsDefault(Prefix(leaves, k), level, index);
  }

  lemma Straddles(k: nat, level: nat, index: nat)
    requires index * Pow2(level) < k < (index + 1) * Pow2(level)
    ensures index == Ancestor(k, level)
  {
    AncestorSpan(k, level);
    var a, p := Ancestor(k, level), Pow2(level);
    if a < index {
      MulMonotone(a + 1, index, p);
    } else if a > index {
      MulMonotone(index + 1, a, p);
    }
  }
}
