/**
 The header spine of chain/seal.py: every finalised block hash, at position height - 1, in a witness
 tree, so that ancestry is provable from one trusted root.
 */
module HeaderHistory {
  import opened Basics
  import opened Digests
  import opened WitnessProof
  import opened WitnessTree
  import S = SealAccumulator

  datatype AncestryProof = AncestryProof(path: Proof<string>, blockHeight: int, blockHash: string, under: int)

  /** The root over the first `|hashes|` blocks. */
  function SpineRoot(hashes: seq<string>, height: nat): Digest<string> {
    Root(Positioned(0, hashes), height)
  }

  predicate VerifiesAncestry(blockHash: string, proof: AncestryProof, root: Digest<string>) {
    && proof.blockHash == blockHash
    && proof.path.pos == proof.blockHeight - 1
    && Accepts(blockHash, proof.path, root)
  }

  method VerifyAncestry(blockHash: string, proof: AncestryProof, root: Digest<string>) returns (ok: bool)
    ensures ok <==> VerifiesAncestry(blockHash, proof, root)
  {
    if proof.blockHash != blockHash {
      return false;
    }
    if proof.path.pos != proof.blockHeight - 1 {
      return false;
    }
    ok := VerifyWitness(blockHash, proof.path, root);
  }

  class HeaderHistory {
    const height: nat
    var hashes: seq<string>
    const tree: WitnessTree<string>

    ghost predicate Valid()
      reads this, tree
    {
      && tree.Valid() && tree.Packed() && tree.height == height
      && tree.size == |hashes| && tree.leaves == Positioned(0, hashes)
    }

    constructor (height: nat)
      ensures Valid() && fresh(tree) && hashes == [] && this.height == height
    {
      this.height := height;
      hashes := [];
      tree := new WitnessTree(height);
    }

    constructor Clone(other: HeaderHistory)
      requires other.Valid()
      ensures Valid() && fresh(tree) && hashes == other.hashes && height == other.height
    {
      height, hashes := other.height, other.hashes;
      tree := new WitnessTree.Clone(other.tree);
    }

    /** Refuses, changing nothing, only when the tree is full. */
    method Append(blockHash: string) returns (ok: bool)
      requires Valid()
      modifies this, tree
      ensures Valid()
      ensures ok <==> old(|hashes|) < Pow2(height)
      ensures hashes == if ok then old(hashes) + [blockHash] else old(hashes)
    {
      ok := tree.Set(|hashes|, blockHash);
      if ok {
        S.PositionedAt(0, hashes);
        S.PositionedAt(0, hashes + [blockHash]);
        hashes := hashes + [blockHash];
      }
    }

    /** Drop back to the state after block `to`. */
    method TruncateTo(to: int)
      requires Valid()
      modifies this, tree
      ensures Valid()
      ensures hashes == old(hashes)[..if to < 0 then 0 else if to < |old(hashes)| then to else |old(hashes)|]
    {
      hide WitnessTree.Valid, Default;
      var floor := if to < 0 then 0 else to;
      while |hashes| > floor
        invariant Valid()
        invariant hashes <= old(hashes)
        invariant |hashes| >= floor || hashes == old(hashes)
      {
        S.PositionedAt(0, hashes);
        S.PositionedAt(0, hashes[..|hashes| - 1]);
        tree.Clear(|hashes| - 1);
        hashes := hashes[..|hashes| - 1];
      }
    }

    /** The root the header at `count + 1` commits. */
    method RootAt(count: int) returns (root: Digest<string>)
      requires Valid()
      ensures 0 <= count <= |hashes| ==> root == SpineRoot(hashes[..count], height)
      ensures count < 0 ==> root == SpineRoot([], height)
      ensures count > |hashes| ==> root == SpineRoot(hashes, height)
    {
      root := tree.RootAt(count);
      var k := if count < 0 then 0 else if count < |hashes| then count else |hashes|;
      PrefixOfSpine(hashes, k);
      if count > |hashes| {
        S.PositionedAt(0, hashes);
        assert Prefix(tree.leaves, count) == Prefix(tree.leaves, |hashes|);
      }
      assert hashes[..|hashes|] == hashes;
    }

    /** A path showing that the block at `at` is an ancestor, under the root of the first `under`
        blocks (the whole spine when not given). Whatever it returns, the verifier accepts. */
    method ProofOf(at: int, under: Option<int>) returns (r: Option<AncestryProof>)
      requires Valid()
      ensures var cut := if under.Some? then under.value else |hashes|;
              && (r.Some? <==> 1 <= at <= |hashes| && at <= cut)
              && (r.Some? ==> VerifiesAncestry(hashes[at - 1], r.value,
                                               SpineRoot(hashes[..if cut < |hashes| then cut else |hashes|], height)))
              && (r.Some? ==> r.value.blockHeight == at && r.value.under == cut)
    {
      hide Positioned, S.SealAccumulator.Valid;
      if !(1 <= at <= |hashes|) {
        return None;
      }
      var cut := if under.Some? then under.value else |hashes|;
      if at > cut {
        return None;
      }
      S.PositionedAt(0, hashes);
      var path := tree.PathAt(at - 1, cut);
      var k := if cut < |hashes| then cut else |hashes|;
      PrefixOfSpine(hashes, k);
      assert Prefix(tree.leaves, cut) == Prefix(tree.leaves, k);
      return Some(AncestryProof(path.value, at, hashes[at - 1], cut));
    }
  }

  lemma PrefixOfSpine(hashes: seq<string>, k: nat)
    requires k <= |hashes|
    ensures Prefix(Positioned(0, hashes), k) == Positioned(0, hashes[..k])
  {
    S.PositionedAt(0, hashes);
    S.PositionedAt(0, hashes[..k]);
  }

  /** Soundness: an accepted ancestry proof names a block that really sits in the spine at the height
      the proof claims. */
  lemma AncestryIsReal(hashes: seq<string>, height: nat, blockHash: string, proof: AncestryProof)
    requires VerifiesAncestry(blockHash, proof, SpineRoot(hashes, height))
    ensures 1 <= proof.blockHeight <= |hashes| && hashes[proof.blockHeight - 1] == blockHash
  {
    S.PositionedAt(0, hashes);
    AcceptedOpensToTheLeaf(Positioned(0, hashes), height, blockHash, proof.path);
  }

  /** Exactly when ancestry can be proved under a header's root: when the block is at that height. */
  lemma AncestryIff(hashes: seq<string>, height: nat, blockHash: string, at: int)
    requires |hashes| <= Pow2(height)
    ensures (exists proof :: VerifiesAncestry(blockHash, proof, SpineRoot(hashes, height)) && proof.blockHeight == at)
            <==> 1 <= at <= |hashes| && hashes[at - 1] == blockHash
  {
    forall proof | VerifiesAncestry(blockHash, proof, SpineRoot(hashes, height)) {
      AncestryIsReal(hashes, height, blockHash, proof);
    }
    if 1 <= at <= |hashes| && hashes[at - 1] == blockHash {
      S.PositionedAt(0, hashes);
      var path := OwnProof(Positioned(0, hashes), height, at - 1);
      assert VerifiesAncestry(blockHash, AncestryProof(path, at, blockHash, |hashes|), SpineRoot(hashes, height));
    }
  }

  /** One root names one spine: two headers with the same history root agree on every ancestor. */
  lemma RootPinsTheSpine(a: seq<string>, b: seq<string>, height: nat)
    requires |a| <= Pow2(height) && |b| <= Pow2(height)
    requires SpineRoot(a, height) == SpineRoot(b, height)
    ensures a == b
  {
    forall i | 0 <= i < |a| ensures i < |b| && b[i] == a[i] {
      AncestryIff(a, height, a[i], i + 1);
      AncestryIff(b, height, a[i], i + 1);
    }
    if |a| < |b| {
      AncestryIff(b, height, b[|a|], |a| + 1);
      AncestryIff(a, height, b[|a|], |a| + 1);
    }
  }
}
