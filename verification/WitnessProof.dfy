/**
 The compressed witness proof and its verifier (chain/seal.py, `path`, `verify_witness`).

 A proof carries one sibling per level, but siblings equal to their level's default are left out
 and a bitmap says which ones are present.
 */
module WitnessProof {
  import opened Basics
  import opened Digests

  /** A sibling as it arrives: hex for some digest, or text that does not parse. */
  datatype Word<V> = Hex(digest: Digest<V>) | NotHex

  datatype Proof<V> = Proof(pos: int, height: int, present: int, siblings: seq<Word<V>>)

  /** `x >> level & 1` on a Python integer, which for negative x is two's complement. */
  function Bit(x: int, level: nat): int
    decreases level
  {
    if level == 0 then x % 2 else Bit(x / 2, level - 1)
  }

  /** `bin(x).count("1")`: the ones in the magnitude of x. */
  function PopCount(x: int): nat
    decreases if x < 0 then -x else x, x < 0
  {
    if x < 0 then PopCount(-x) else if x == 0 then 0 else x % 2 + PopCount(x / 2)
  }

  /** How many siblings the levels below `level` take from the list. */
  function Taken(present: int, level: nat): nat {
    if level == 0 then 0 else Taken(present, level - 1) + if Bit(present, level - 1) != 0 then 1 else 0
  }

  /** The full sibling list of the first `level` levels; None when the list runs out or a taken
      entry is not hex. */
  function Expand<V>(present: int, siblings: seq<Word<V>>, level: nat): (r: Option<seq<Digest<V>>>)
    ensures r.Some? ==> |r.value| == level
  {
    if level == 0 then Some([])
    else
      match Expand(present, siblings, level - 1)
      case None => None
      case Some(below) =>
        if Bit(present, level - 1) == 0 then Some(below + [Default(level - 1)])
        else
          var t := Taken(present, level - 1);
          if t < |siblings| && siblings[t].Hex? then Some(below + [siblings[t].digest]) else None
  }

  /** What the prover sends for a full sibling list. */
  function Compress<V(==)>(full: seq<Digest<V>>): (nat, seq<Word<V>>) {
    if full == [] then (0, [])
    else
      var n := |full| - 1;
      var (present, siblings) := Compress(full[..n]);
      if full[n] == Default(n) then (present, siblings) else (present + Pow2(n), siblings + [Hex(full[n])])
  }

  /** The proofs a verifier accepts: well-formed, and opening to `value` under `root`. */
  predicate Accepts<V(==)>(value: V, proof: Proof<V>, root: Digest<V>) {
    && 0 <= proof.height
    && 0 <= proof.pos < Pow2(proof.height)
    && PopCount(proof.present) == |proof.siblings|
    && var full := Expand(proof.present, proof.siblings, proof.height);
       full.Some? && Climb(Leaf(value), proof.pos, full.value) == root
  }

  method VerifyWitness<V(==)>(value: V, proof: Proof<V>, root: Digest<V>) returns (ok: bool)
    ensures ok <==> Accepts(value, proof, root)
  {
    if proof.height < 0 {
      return false;
    }
    var height: nat, pos := proof.height, proof.pos;
    if !(0 <= pos < Pow2(height)) {
      return false;
    }
    if PopCount(proof.present) != |proof.siblings| {
      return false;
    }
    var node, index: nat, take: nat := Leaf(value), pos, 0;
    ghost var full: seq<Digest<V>> := [];
    for level := 0 to height
      invariant Expand(proof.present, proof.siblings, level) == Some(full)
      invariant take == Taken(proof.present, level) && index == Ancestor(pos, level)
      invariant node == Climb(Leaf(value), pos, full)
    {
      var sibling;
      if Bit(proof.present, level) != 0 {
        if take >= |proof.siblings| || proof.siblings[take].NotHex? {
          ExpandStaysNone(proof.present, proof.siblings, level + 1, height);
          return false;
        }
        sibling := proof.siblings[take].digest;
        take := take + 1;
      } else {
        sibling := Default(level);
      }
      assert (full + [sibling])[..level] == full;
      full := full + [sibling];
      node := Join(index, node, sibling);
      index := index / 2;
    }
    return node == root;
  }

  lemma {:induction false} ExpandStaysNone<V>(present: int, siblings: seq<Word<V>>, low: nat, high: nat)
    requires low <= high && Expand(present, siblings, low).None?
    ensures Expand(present, siblings, high).None?
  {
    if low < high {
      ExpandStaysNone(present, siblings, low, high - 1);
    }
  }

  // ---- the bitmap loses nothing ----

  lemma {:induction false} BitOfSum(x: nat, n: nat, level: nat)
    requires x < Pow2(n) && level <= n
    ensures Bit(x + Pow2(n), level) == if level == n then 1 else Bit(x, level)
  {
    if n > 0 {
      assert (x + Pow2(n)) / 2 == x / 2 + Pow2(n - 1);
      if level > 0 {
        BitOfSum(x / 2, n - 1, level - 1);
      }
    }
  }

  lemma {:induction false} BitAbove(x: nat, level: nat)
    requires x < Pow2(level)
    ensures Bit(x, level) == 0
  {
    if level > 0 {
      BitAbove(x / 2, level - 1);
    }
  }

  lemma {:induction false} PopCountOfSum(x: nat, n: nat)
    requires x < Pow2(n)
    ensures PopCount(x + Pow2(n)) == PopCount(x) + 1
  {
    if n > 0 {
      assert (x + Pow2(n)) / 2 == x / 2 + Pow2(n - 1);
      assert (x + Pow2(n)) % 2 == x % 2;
      PopCountOfSum(x / 2, n - 1);
      if x == 0 {
        assert PopCount(0 / 2) == 0;
      }
    }
  }

  /** A list of siblings and its first entries agree while only lower levels are read. */
  lemma {:induction false} ExpandIgnoresLater<V>(present: nat, siblings: seq<Word<V>>, more: seq<Word<V>>, n: nat,
                                                 level: nat)
    requires present < Pow2(n) && level <= n
    requires Taken(present, level) <= |siblings|
    ensures Taken(present + Pow2(n), level) == Taken(present, level)
    ensures Expand(present + Pow2(n), siblings + more, level) == Expand(present, siblings, level)
  {
    if level > 0 {
      BitOfSum(present, n, level - 1);
      ExpandIgnoresLater(present, siblings, more, n, level - 1);
    }
  }

  /** Compressing a full sibling list and expanding it again gives the list back. */
  lemma {:induction false} CompressRoundTrip<V>(full: seq<Digest<V>>)
    ensures var (present, siblings) := Compress(full);
            && present < Pow2(|full|)
            && PopCount(present) == |siblings| == Taken(present, |full|)
            && Expand(present, siblings, |full|) == Some(full)
  {
    if full != [] {
      var n := |full| - 1;
      CompressRoundTrip(full[..n]);
      var (present, siblings) := Compress(full[..n]);
      assert full == full[..n] + [full[n]];
      if full[n] == Default(n) {
        BitAbove(present, n);
      } else {
        PopCountOfSum(present, n);
        ExpandIgnoresLater(present, siblings, [Hex(full[n])], n, n);
        BitOfSum(present, n, n);
      }
    }
  }

  // ---- what an accepted proof means ----

  /** Soundness: whatever `verify_witness` accepts against a tree's root has that tree's height and
      opens to the value really at its position. */
  lemma AcceptedOpensToTheLeaf<V>(leaves: map<nat, V>, height: nat, value: V, proof: Proof<V>)
    requires Accepts(value, proof, Root(leaves, height))
    ensures proof.height == height
    ensures proof.pos >= 0 && proof.pos in leaves && leaves[proof.pos] == value
  {
    var full := Expand(proof.present, proof.siblings, proof.height).value;
    AncestorOfAll(proof.pos, proof.height);
    ClimbOpens(leaves, height, 0, value, proof.pos, full);
  }

  /** `full` lists the siblings of the nodes above `pos`, from the leaf level up. */
  ghost predicate OwnSiblings<V>(leaves: map<nat, V>, pos: nat, full: seq<Digest<V>>) {
    forall l | 0 <= l < |full| :: full[l] == Sub(leaves, l, Sibling(Ancestor(pos, l)))
  }

  lemma {:induction false} OwnSiblingsGrow<V>(leaves: map<nat, V>, pos: nat, full: seq<Digest<V>>, next: Digest<V>)
    requires OwnSiblings(leaves, pos, full) && next == Sub(leaves, |full|, Sibling(Ancestor(pos, |full|)))
    ensures OwnSiblings(leaves, pos, full + [next])
  {
  }

  lemma {:induction false} CompressGrow<V>(full: seq<Digest<V>>, next: Digest<V>)
    ensures Compress(full + [next]) ==
            if next == Default(|full|) then Compress(full)
            else (Compress(full).0 + Pow2(|full|), Compress(full).1 + [Hex(next)])
  {
    assert (full + [next])[..|full|] == full;
  }

  /** Completeness: the compressed list of a tree's own siblings is accepted against its root. */
  lemma OwnSiblingsAccepted<V>(leaves: map<nat, V>, height: nat, pos: nat, full: seq<Digest<V>>)
    requires pos < Pow2(height) && pos in leaves && |full| == height
    requires OwnSiblings(leaves, pos, full)
    ensures Accepts(leaves[pos], Proof(pos, height, Compress(full).0, Compress(full).1), Root(leaves, height))
  {
    CompressRoundTrip(full);
    ClimbFollows(leaves, pos, full);
    AncestorOfAll(pos, height);
  }

  lemma OwnProof<V>(leaves: map<nat, V>, height: nat, pos: nat) returns (proof: Proof<V>)
    requires pos < Pow2(height) && pos in leaves
    ensures proof.pos == pos && proof.height == height
    ensures Accepts(leaves[pos], proof, Root(leaves, height))
  {
    var full := seq(height, l requires 0 <= l < height => Sub(leaves, l, Sibling(Ancestor(pos, l))));
    OwnSiblingsAccepted(leaves, height, pos, full);
    proof := Proof(pos, height, Compress(full).0, Compress(full).1);
  }
}
