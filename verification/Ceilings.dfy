/**
 The fractions the parameters round up (chain/register.py `quorum`, chain/params.py `quorum_size`,
 chain/hardening/history.py `threshold`): each is the least whole number that is at least its fraction, and never none.
 */
module Ceilings {
  import opened Basics
  import opened Locality
  import opened Register
  import opened GridWorkload
  import H = History
  import A = CeremonyAgreement

  /** `q` is the least number of at least one with `q / n >= num / den`. */
  predicate IsCeiling(q: int, n: nat, num: nat, den: nat) {
    q >= 1 && q * den >= n * num && (q == 1 || (q - 1) * den < n * num)
  }

  lemma DivisionUp(m: nat, den: nat)
    requires den > 0
    ensures var q := (m + den - 1) / den;
            q * den >= m && (m > 0 ==> (q - 1) * den < m) && (m == 0 ==> q == 0)
  {
    var q, r := (m + den - 1) / den, (m + den - 1) % den;
    assert m + den - 1 == q * den + r && 0 <= r < den;
    assert (q - 1) * den == q * den - den;
    if m == 0 {
      Small(den);
    }
  }

  lemma Small(den: nat)
    requires den > 0
    ensures (den - 1) / den == 0
  {
  }

  lemma UpIsCeiling(n: nat, num: nat, den: nat)
    requires den > 0
    ensures var q := (n * num + den - 1) / den; IsCeiling(if q > 1 then q else 1, n, num, den)
  {
    DivisionUp(n * num, den);
    var q := (n * num + den - 1) / den;
    if q <= 1 {
      if q == 1 {
        assert q * den == den;
      } else {
        assert q * den <= 0;
      }
    }
  }

  /** A grid's quorum, over its attesters. */
  lemma QuorumForIs(d: Desk, g: GridId)
    requires g in d.world.books && d.quorumDen > 0
    ensures IsCeiling(d.QuorumFor(g), |d.world.books[g].Attesters()|, d.quorumNum, d.quorumDen)
  {
    UpIsCeiling(|d.world.books[g].Attesters()|, d.quorumNum, d.quorumDen);
  }

  /** The stamps a block must carry, of its committee. */
  lemma ThresholdIs(p: H.HardeningParams)
    requires p.Valid()
    ensures IsCeiling(p.Threshold(), p.width, p.thresholdNum, p.thresholdDen)
  {
    UpIsCeiling(p.width, p.thresholdNum, p.thresholdDen);
  }

  /** At two thirds any two quorums of a grid share more than the faulty attesters, when fewer than a third are faulty.
      */
  lemma TwoThirdsMeet(d: Desk, g: GridId, faulty: nat)
    requires g in d.world.books && d.quorumNum == 2 && d.quorumDen == 3
    requires 3 * faulty < |d.world.books[g].Attesters()|
    ensures 2 * d.QuorumFor(g) > |d.world.books[g].Attesters()| + faulty
  {
    QuorumForIs(d, g);
  }

  /** And the ceremony's own quorum is the same number. */
  lemma QuorumSizeIs(n: nat, num: nat, den: nat)
    requires den > 0 && n * num > 0
    ensures IsCeiling(A.QuorumSize(n, num, den), n, num, den)
  {
    var q, r := (-(n * num)) / den, (-(n * num)) % den;
    assert -(n * num) == q * den + r && 0 <= r < den;
    assert (-q) * den == n * num + r && (-q - 1) * den == n * num + r - den;
    assert (-q) * den > 0;
  }

  /** A register has room for one more apprentice exactly when it has none, or when one more still is within the
      fraction of its attesters. */
  lemma HasRoomIff(r: Register, num: nat, den: nat)
    requires den > 0
    ensures r.HasRoom(num, den) <==> |r.Apprentices()| == 0 || (|r.Apprentices()| + 1) * den <= |r.Attesters()| * num
  {
    hide Register.Attesters, Register.Apprentices;
    var a, m := |r.Apprentices()|, |r.Attesters()| * num;
    assert m == (m / den) * den + m % den;
    if a < m / den {
      assert (a + 1) * den <= (m / den) * den;
    } else {
      assert (a + 1) * den >= (m / den + 1) * den == (m / den) * den + den;
    }
  }
}
