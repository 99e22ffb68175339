/**
 Witness digests as a free algebra (chain/seal.py).

 The three tagged SHA-256 inputs of the witness tree become three constructors, so two digests
 are equal exactly when they were built the same way; `Opaque` stands for every other 32-byte
 string, which an adversary may put into a proof.
 */
module Digests {
  import opened Basics

  datatype Digest<V> =
    | Empty
    | Leaf(value: V)
    | Node(left: Digest<V>, right: Digest<V>)
    | Opaque(bytes: nat)

  /** The digest of an all-empty subtree of the given height. */
  function Default<V>(level: nat): Digest<V> {
    if level == 0 then Empty else Node(Default(level - 1), Default(level - 1))
  }

  /** `index ^ 1`, the other child of the same parent. */
  function Sibling(index: nat): nat {
    if index % 2 == 0 then index + 1 else index - 1
  }

  /** `pos >> level`, the index of the node above `pos` at `level`. */
  function Ancestor(pos: nat, level: nat): nat {
    if level == 0 then pos else Ancestor(pos, level - 1) / 2
  }

  /** What the node (level, index) of a sparse Merkle tree over `leaves` is, by definition. */
  function Sub<V>(leaves: map<nat, V>, level: nat, index: nat): Digest<V> {
    if level == 0 then
      if index in leaves then Leaf(leaves[index]) else Empty
    else
      Node(Sub(leaves, level - 1, 2 * index), Sub(leaves, level - 1, 2 * index + 1))
  }

  function Root<V>(leaves: map<nat, V>, height: nat): Digest<V> {
    Sub(leaves, height, 0)
  }

  /** The first `k` positions of a sparse leaf map. */
  function Prefix<V>(leaves: map<nat, V>, k: nat): map<nat, V> {
    map p | p in leaves && p < k :: leaves[p]
  }

  /** `parent` combines a node with its sibling in the order the index's parity says. */
  function Join<V>(index: nat, node: Digest<V>, sibling: Digest<V>): Digest<V> {
    if index % 2 == 0 then Node(node, sibling) else Node(sibling, node)
  }

  /** Recompute the digest `|siblings|` levels above position `pos`. */
  function Climb<V>(node: Digest<V>, pos: nat, siblings: seq<Digest<V>>): Digest<V> {
    if siblings == [] then node
    else
      var n := |siblings| - 1;
      Join(Ancestor(pos, n), Climb(node, pos, siblings[..n]), siblings[n])
  }

  /** The node `level` steps above `pos` covers exactly the 2^level positions around it. */
  lemma {:induction false} AncestorSpan(pos: nat, level: nat)
    ensures Ancestor(pos, level) * Pow2(level) <= pos < (Ancestor(pos, level) + 1) * Pow2(level)
  {
    if level > 0 {
      AncestorSpan(pos, level - 1);
      var a, b, p := Ancestor(pos, level), Ancestor(pos, level - 1), Pow2(level - 1);
      MulMonotone(2 * a, b, p);
      MulMonotone(b + 1, 2 * a + 2, p);
      Doubled(a, p);
      Doubled(a + 1, p);
    }
  }

  /** A position fits under the root of a tree of height `h` exactly when it is below 2^h. */
  lemma AncestorOfAll(pos: nat, height: nat)
    ensures Ancestor(pos, height) == 0 <==> pos < Pow2(height)
  {
    AncestorSpan(pos, height);
    if Ancestor(pos, height) > 0 {
      assert Ancestor(pos, height) * Pow2(height) >= Pow2(height);
    }
  }

  lemma {:induction false} AncestorMonotone(p: nat, q: nat, level: nat)
    requires p <= q
    ensures Ancestor(p, level) <= Ancestor(q, level)
  {
    if level > 0 {
      AncestorMonotone(p, q, level - 1);
    }
  }

  /** A node depends only on the leaves below it. */
  lemma {:induction false} SubLocal<V>(a: map<nat, V>, b: map<nat, V>, level: nat, index: nat)
    requires forall p: nat :: Ancestor(p, level) == index ==> (p in a <==> p in b) && (p in a ==> a[p] == b[p])
    ensures Sub(a, level, index) == Sub(b, level, index)
  {
    if level == 0 {
      assert Ancestor(index, 0) == index;
    } else {
      forall p: nat | Ancestor(p, level - 1) == 2 * index || Ancestor(p, level - 1) == 2 * index + 1
        ensures (p in a <==> p in b) && (p in a ==> a[p] == b[p])
      {
        assert Ancestor(p, level) == index;
      }
      SubLocal(a, b, level - 1, 2 * index);
      SubLocal(a, b, level - 1, 2 * index + 1);
    }
  }

  lemma {:induction false} SubOfNothing<V>(level: nat, index: nat)
    ensures Sub<V>(map[], level, index) == Default(level)
  {
    if level > 0 {
      SubOfNothing<V>(level - 1, 2 * index);
      SubOfNothing<V>(level - 1, 2 * index + 1);
    }
  }

  /** A node differs from its level's default exactly when some leaf is below it. */
  lemma {:induction false} SubIsDefault<V>(leaves: map<nat, V>, level: nat, index: nat)
    ensures Sub(leaves, level, index) == Default(level)
            <==> forall p: nat :: Ancestor(p, level) == index ==> p !in leaves
  {
    if level == 0 {
      assert Ancestor(index, 0) == index;
    } else {
      SubIsDefault(leaves, level - 1, 2 * index);
      SubIsDefault(leaves, level - 1, 2 * index + 1);
      forall p: nat | Ancestor(p, level - 1) == 2 * index || Ancestor(p, level - 1) == 2 * index + 1
        ensures Ancestor(p, level) == index
      {
      }
    }
  }

  /** Any climb from a leaf that lands on a tree's node lands there because the leaf is really in
      the tree, at that position, at exactly that depth. */
  lemma {:induction false} ClimbOpens<V>(leaves: map<nat, V>, height: nat, index: nat, value: V, pos: nat,
                                         siblings: seq<Digest<V>>)
    requires Ancestor(pos, |siblings|) == index
    requires Climb(Leaf(value), pos, siblings) == Sub(leaves, height, index)
    ensures |siblings| == height && pos in leaves && leaves[pos] == value
  {
    if siblings != [] {
      var n := |siblings| - 1;
      assert height > 0;
      ClimbOpens(leaves, height - 1, Ancestor(pos, n), value, pos, siblings[..n]);
    }
  }

  lemma JoinChildren<V>(leaves: map<nat, V>, level: nat, index: nat)
    ensures Join(index, Sub(leaves, level, index), Sub(leaves, level, Sibling(index))) ==
            Sub(leaves, level + 1, index / 2)
  {
  }

  /** Climbing through a tree's own sibling nodes gives the tree's own ancestors. */
  lemma {:induction false} ClimbFollows<V>(leaves: map<nat, V>, pos: nat, siblings: seq<Digest<V>>)
    requires forall l | 0 <= l < |siblings| :: siblings[l] == Sub(leaves, l, Sibling(Ancestor(pos, l)))
    ensures Climb(Sub(leaves, 0, pos), pos, siblings) == Sub(leaves, |siblings|, Ancestor(pos, |siblings|))
  {
    if siblings != [] {
      var n := |siblings| - 1;
      var below := siblings[..n];
      assert forall l | 0 <= l < n :: below[l] == siblings[l];
      ClimbFollows(leaves, pos, below);
      JoinChildren(leaves, n, Ancestor(pos, n));
    }
  }
}
