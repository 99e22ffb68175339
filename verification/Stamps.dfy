/**
 A stamp: one turn, spent on one block (chain/hardening/stamp.py).

 The puzzle hash is an arbitrary function of anchor, turn and nonce; the anchor is injective.
 */
module Stamps {
  import opened Basics
  import opened Digests
  import opened Wots
  import opened EraPool

  type Digest32 = m: seq<Byte> | |m| == N witness seq(N, _ => 0)

  /** What a turn signs: this block, at this depth, in this era. */
  datatype Anchor = Anchor(blockHash: Hash, height: int, root: Hash32)

  type Puzzle = (Anchor, int, int) -> Digest32

  datatype Stamp = Stamp(leafIndex: int, nonce: int, authPath: seq<Hash32>, signature: seq<Value>)

  const MAX_TRIES := 0x400_0000
  const FOUR_BYTES := 0x1_0000_0000
  const EIGHT_BYTES := 0x1_0000_0000_0000_0000

  function BigEndian(m: seq<Byte>): nat {
    if m == [] then 0 else 256 * BigEndian(m[..|m| - 1]) + m[|m| - 1]
  }

  /** The bytes a puzzle is hashed from exist, and a target exists. */
  predicate Posable(leafIndex: int, nonce: int, bits: int) {
    0 <= leafIndex < FOUR_BYTES && 0 <= nonce < EIGHT_BYTES && 0 <= bits < 256
  }

  predicate Solves(puzzle: Puzzle, anchor: Anchor, leafIndex: int, nonce: int, bits: int) {
    Posable(leafIndex, nonce, bits) && BigEndian(puzzle(anchor, leafIndex, nonce)) < Pow2(256 - bits)
  }

  /** What `verify_stamp` accepts; whatever raises inside it is a malformed stamp. */
  predicate Accepts(spec: EraSpec, stamp: Stamp, anchor: Anchor, bits: int, puzzle: Puzzle) {
    && 0 <= stamp.leafIndex < spec.turns
    && Solves(puzzle, anchor, stamp.leafIndex, stamp.nonce, bits)
    && var recovered := Recovered(stamp.signature, spec.pubSeed, stamp.leafIndex,
                                  puzzle(anchor, stamp.leafIndex, stamp.nonce));
       recovered.Some? && IsMember(spec, stamp.leafIndex, recovered.value, stamp.authPath)
  }

  method VerifyStamp(spec: EraSpec, stamp: Stamp, anchor: Anchor, bits: int, puzzle: Puzzle) returns (ok: bool)
    ensures ok <==> Accepts(spec, stamp, anchor, bits, puzzle)
  {
    if !(0 <= stamp.leafIndex < spec.turns) {
      return false;
    }
    if !Posable(stamp.leafIndex, stamp.nonce, bits) {
      return false;
    }
    var ph := puzzle(anchor, stamp.leafIndex, stamp.nonce);
    if !(BigEndian(ph) < Pow2(256 - bits)) {
      return false;
    }
    var recovered := PublicKeyFromSignature(stamp.signature, spec.pubSeed, stamp.leafIndex, ph);
    if recovered.None? {
      return false;
    }
    ok := VerifyMembership(spec, stamp.leafIndex, recovered.value, stamp.authPath);
  }

  datatype Mining = Mined(stamp: Stamp) | NoNonce | Malformed

  /** `mine`: the least nonce that solves the puzzle, and the turn spent on its hash. */
  method Mine(era: Era, leafIndex: int, anchor: Anchor, bits: int, puzzle: Puzzle) returns (r: Mining)
    requires era.Built()
    ensures r.Malformed? ==> !(0 <= leafIndex < era.turns) || !Posable(leafIndex, 0, bits)
    ensures r.NoNonce? ==> forall nonce | 0 <= nonce < MAX_TRIES :: !Solves(puzzle, anchor, leafIndex, nonce, bits)
    ensures r.Mined? ==>
              && r.stamp.leafIndex == leafIndex && 0 <= r.stamp.nonce < MAX_TRIES
              && Solves(puzzle, anchor, leafIndex, r.stamp.nonce, bits)
              && (forall nonce | 0 <= nonce < r.stamp.nonce :: !Solves(puzzle, anchor, leafIndex, nonce, bits))
              && IsOwn(era, r.stamp, anchor, puzzle)
  {
    for nonce := 0 to MAX_TRIES
      invariant forall n | 0 <= n < nonce :: !Solves(puzzle, anchor, leafIndex, n, bits)
    {
      if !Posable(leafIndex, nonce, bits) {
        return Malformed;
      }
      var ph := puzzle(anchor, leafIndex, nonce);
      if BigEndian(ph) < Pow2(256 - bits) {
        var path := era.AuthPath(leafIndex);
        if path.None? || leafIndex >= era.turns {
          return Malformed;
        }
        var signature := Sign(era.master, era.Seed(), leafIndex, ph);
        return Mined(Stamp(leafIndex, nonce, path.value, signature.value));
      }
    }
    return NoNonce;
  }

  /** The stamp the era itself would make with this turn and nonce. */
  ghost predicate IsOwn(era: Era, stamp: Stamp, anchor: Anchor, puzzle: Puzzle) {
    && 0 <= stamp.leafIndex < era.turns
    && era.IsAuthPath(stamp.leafIndex, stamp.authPath)
    && stamp.signature == SignatureOf(era.master, era.Seed(), stamp.leafIndex,
                                      puzzle(anchor, stamp.leafIndex, stamp.nonce))
  }

  /** A stamp verifies exactly when its nonce solves the puzzle and it is, path and signature, the one its turn makes
      for that anchor and nonce. Who can compute that signature is another question, which this does not settle. */
  lemma AcceptsIff(era: Era, stamp: Stamp, anchor: Anchor, bits: int, puzzle: Puzzle)
    requires era.Built()
    ensures era.levels != [] && era.levels[|era.levels| - 1] != []
    ensures Accepts(era.Spec(), stamp, anchor, bits, puzzle)
            <==> IsOwn(era, stamp, anchor, puzzle) && Solves(puzzle, anchor, stamp.leafIndex, stamp.nonce, bits)
  {
    era.SpecIsRoot();
    if 0 <= stamp.leafIndex < era.turns {
      var ph := puzzle(anchor, stamp.leafIndex, stamp.nonce);
      RecoveryIff(era.master, era.Seed(), stamp.leafIndex, ph, stamp.signature);
      var recovered := Recovered(stamp.signature, era.Seed(), stamp.leafIndex, ph);
      if recovered.Some? {
        MembershipIff(era, stamp.leafIndex, recovered.value, stamp.authPath);
      }
    }
  }

  /** What `mine` returns, `verify_stamp` accepts. */
  lemma MinedIsAccepted(era: Era, stamp: Stamp, anchor: Anchor, bits: int, puzzle: Puzzle)
    requires era.Built() && IsOwn(era, stamp, anchor, puzzle)
    requires Solves(puzzle, anchor, stamp.leafIndex, stamp.nonce, bits)
    ensures era.levels != [] && era.levels[|era.levels| - 1] != []
    ensures Accepts(era.Spec(), stamp, anchor, bits, puzzle)
  {
    AcceptsIff(era, stamp, anchor, bits, puzzle);
  }
}
