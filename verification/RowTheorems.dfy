/**
 What the rows of a transaction say about integers (chain/txsystem.py): bits and recomposition force a
 range, and the sum row is conservation as long as nothing wraps the field.
 */
module RowTheorems {
  import opened Basics
  import opened TxSystem

  /** Every coordinate is a field element. */
  ghost predicate InField(p: nat, xs: seq<int>) {
    forall i | 0 <= i < |xs| :: 0 <= xs[i] < p
  }

  function ValueIn(sh: Shape, xs: seq<int>, slot: nat): int
    requires sh.Valid() && |xs| == sh.FullWidth() && slot < sh.Slots()
  {
    SlotFits(sh, slot);
    xs[sh.SlotOff(slot) + NOTE_VALUE]
  }

  /** The sum of the values in slots low .. high - 1. */
  function SumOf(sh: Shape, xs: seq<int>, low: nat, high: nat): int
    requires sh.Valid() && |xs| == sh.FullWidth() && low <= high <= sh.Slots()
    decreases high
  {
    if high == low then 0 else SumOf(sh, xs, low, high - 1) + ValueIn(sh, xs, high - 1)
  }

  function InputSum(sh: Shape, xs: seq<int>): int
    requires sh.Valid() && |xs| == sh.FullWidth()
  {
    SumOf(sh, xs, 0, sh.k)
  }

  function OutputSum(sh: Shape, xs: seq<int>): int
    requires sh.Valid() && |xs| == sh.FullWidth()
  {
    SumOf(sh, xs, sh.k, sh.Slots())
  }

  // ---- arithmetic modulo p ----

  lemma SameResidue(a: int, b: int, q: int, p: nat)
    requires p > 0 && a == b + q * p
    ensures a % p == b % p
  {
    ModIs(b, p, b / p, b % p);
    ModIs(a, p, b / p + q, b % p);
  }

  /** A multiple of p other than 0 is at least p away from it. */
  lemma MultipleIsFar(d: int, p: nat)
    ensures d > 0 ==> d * p >= p
    ensures d < 0 ==> -(d * p) >= p
  {
    if d > 0 {
      MulMonotone(1, d, p);
    } else if d < 0 {
      MulMonotone(1, -d, p);
    }
  }

  lemma ModIs(a: int, p: nat, q: int, r: int)
    requires p > 0 && 0 <= r < p && a == q * p + r
    ensures a % p == r && a / p == q
  {
    var d := a / p - q;
    assert a == (a / p) * p + a % p;
    assert d * p == (a / p) * p - q * p;
    MultipleIsFar(d, p);
  }

  lemma ResidueDiff(a: int, b: int, p: nat)
    requires p > 0 && a % p == b % p
    ensures exists q: int :: a == b + q * p
  {
    assert a == b + (a / p - b / p) * p;
  }

  /** Residues within one stretch of length p are numbers. */
  lemma CloseAndCongruent(a: int, b: int, p: nat)
    requires p > 0 && a % p == b % p && a - b < p && b - a < p
    ensures a == b
  {
    ResidueDiff(a, b, p);
    var q: int :| a == b + q * p;
    MultipleIsFar(q, p);
  }

  // ---- the sum row ----

  lemma {:induction false} SumPrefix(sh: Shape, xs: seq<int>, n: nat)
    requires sh.Valid() && |xs| == sh.FullWidth() && n <= sh.Slots()
    requires forall t <- SumTerms(sh)[..n] :: t.pos < |xs|
    ensures LinearAt(SumTerms(sh)[..n], xs)
            == if n <= sh.k then SumOf(sh, xs, 0, n) else InputSum(sh, xs) + (sh.a.p - 1) * SumOf(sh, xs, sh.k, n)
  {
    if n > 0 {
      var terms := SumTerms(sh)[..n];
      assert terms[..n - 1] == SumTerms(sh)[..n - 1];
      SumPrefix(sh, xs, n - 1);
      var v := ValueIn(sh, xs, n - 1);
      assert terms[n - 1] == Term(sh.SlotOff(n - 1) + NOTE_VALUE, if n - 1 < sh.k then 1 else sh.a.p - 1);
      if n > sh.k {
        Spread(sh.a.p - 1, SumOf(sh, xs, sh.k, n - 1), v);
        if n - 1 == sh.k {
          assert SumOf(sh, xs, sh.k, n - 1) == 0;
        }
      }
    }
  }

  lemma Spread(c: int, a: int, b: int)
    ensures c * (a + b) == c * a + c * b
  {
  }

  lemma SumLinear(sh: Shape, xs: seq<int>)
    requires sh.Valid() && |xs| == sh.FullWidth()
    ensures forall t <- Nonzero(SumTerms(sh)) :: t.pos < |xs|
    ensures LinearAt(Nonzero(SumTerms(sh)), xs) == InputSum(sh, xs) + (sh.a.p - 1) * OutputSum(sh, xs)
  {
    hide SumOf, LinearAt, Nonzero;
    SumTermsFit(sh);
    NonzeroSame(SumTerms(sh), xs);
    assert SumTerms(sh)[..sh.Slots()] == SumTerms(sh);
    SumPrefix(sh, xs, sh.Slots());
  }

  lemma SumRowMeans(sh: Shape, xs: seq<int>)
    requires sh.Valid() && |xs| == sh.FullWidth()
    ensures RowFits(sh, Linear(Nonzero(SumTerms(sh))))
    ensures RowAt(sh, Linear(Nonzero(SumTerms(sh))), xs) == (InputSum(sh, xs) - OutputSum(sh, xs)) % sh.a.p
  {
    hide SumOf, SumTerms, LinearAt, Nonzero, InputSum, OutputSum;
    SumFits(sh);
    SumLinear(sh, xs);
    MinusOne(InputSum(sh, xs), OutputSum(sh, xs), sh.a.p);
  }

  lemma SumTermsFit(sh: Shape)
    requires sh.Valid()
    ensures forall t <- SumTerms(sh) :: t.pos < sh.FullWidth()
  {
    forall s: nat | s < sh.Slots() ensures sh.SlotOff(s) + NOTE_VALUE < sh.FullWidth() {
      SlotFits(sh, s);
    }
  }

  lemma MinusOne(i: int, o: int, p: nat)
    requires p > 0
    ensures (i + (p - 1) * o) % p == (i - o) % p
  {
    assert (p - 1) * o == o * p - o;
    SameResidue(i + (p - 1) * o, i - o, o, p);
  }

  // ---- bits and range ----

  /** A field element whose square is itself is 0 or 1. */
  lemma BitForced(a: Algebra, x: int)
    requires a.Field() && 0 <= x < a.p && (x * x - x) % a.p == 0
    ensures x == 0 || x == 1
  {
    assert x * x - x == x * (x - 1);
    assert Vanishes(a.p, x, x - 1);
    if x % a.p != 0 {
      assert (x - 1) % a.p == 0;
      if x != 1 {
        ModIs(x - 1, a.p, 0, x - 1);
      }
    } else {
      ModIs(x, a.p, 0, x);
    }
  }

  /** The number the first n bits of output i spell. */
  function Spelled(sh: Shape, xs: seq<int>, i: nat, n: nat): int
    requires sh.Valid() && |xs| == sh.FullWidth() && i < sh.m && n <= sh.a.rangeBits
  {
    if n == 0 then 0
    else
      BitIsInside(sh, i, n - 1);
      Spelled(sh, xs, i, n - 1) + Pow2(n - 1) * xs[sh.BitPos(i, n - 1)]
  }

  ghost predicate BitsAreBits(sh: Shape, xs: seq<int>, i: nat)
    requires sh.Valid() && |xs| == sh.FullWidth() && i < sh.m
  {
    forall b: nat {:trigger sh.BitPos(i, b)} | b < sh.a.rangeBits :: sh.BitPos(i, b) < |xs|
      && (xs[sh.BitPos(i, b)] == 0 || xs[sh.BitPos(i, b)] == 1)
  }

  lemma {:induction false} SpelledBelow(sh: Shape, xs: seq<int>, i: nat, n: nat)
    requires sh.Valid() && |xs| == sh.FullWidth() && i < sh.m && n <= sh.a.rangeBits && BitsAreBits(sh, xs, i)
    ensures 0 <= Spelled(sh, xs, i, n) < Pow2(n)
  {
    if n > 0 {
      SpelledBelow(sh, xs, i, n - 1);
      var b := xs[sh.BitPos(i, n - 1)];
      assert b == 0 || b == 1;
    }
  }

  lemma {:induction false} PowGrows(n: nat, k: nat)
    requires n <= k
    ensures Pow2(n) <= Pow2(k)
  {
    if n < k {
      PowGrows(n, k - 1);
    }
  }

  lemma LinearNext(terms: seq<Term>, n: nat, xs: seq<int>)
    requires n < |terms| && forall t <- terms[..n + 1] :: t.pos < |xs|
    ensures (forall t <- terms[..n] :: t.pos < |xs|) && terms[n].pos < |xs|
    ensures LinearAt(terms[..n + 1], xs) == LinearAt(terms[..n], xs) + terms[n].coef * xs[terms[n].pos]
  {
    assert terms[..n + 1][..n] == terms[..n] && terms[..n + 1][n] == terms[n];
  }

  lemma RecompTermAt(sh: Shape, i: nat, n: nat)
    requires sh.Valid() && i < sh.m && 0 < n <= sh.a.rangeBits
    ensures n < |RecompTerms(sh, i)| && RecompTerms(sh, i)[n] == Term(sh.BitPos(i, n - 1), MinusPower(sh.a.p, n - 1))
  {
    hide Shape.BitPos, MinusPower;
  }

  lemma RecompStart(sh: Shape, xs: seq<int>, i: nat)
    requires sh.Valid() && |xs| == sh.FullWidth() && i < sh.m && forall t <- RecompTerms(sh, i)[..1] :: t.pos < |xs|
    ensures LinearAt(RecompTerms(sh, i)[..1], xs) == ValueIn(sh, xs, sh.k + i)
  {
    hide Shape.FullWidth, Shape.Width, MinusPower;
    var first := RecompTerms(sh, i)[..1];
    assert first == [Term(sh.SlotOff(sh.k + i) + NOTE_VALUE, 1)];
    assert first[..0] == [];
  }

  /** The bit part of a recomposition row is minus the number the bits spell, up to a multiple of p. */
  lemma {:induction false} RecompPrefix(sh: Shape, xs: seq<int>, i: nat, n: nat) returns (q: int)
    requires sh.Valid() && |xs| == sh.FullWidth() && i < sh.m && n <= sh.a.rangeBits
    requires forall t <- RecompTerms(sh, i)[..n + 1] :: t.pos < |xs|
    ensures LinearAt(RecompTerms(sh, i)[..n + 1], xs) == ValueIn(sh, xs, sh.k + i) - Spelled(sh, xs, i, n) + q * sh.a.p
  {
    hide Shape.FullWidth, Shape.BitPos, Shape.Width, MinusPower, LinearAt, RecompTerms, ValueIn, Pow2;
    if n == 0 {
      q := 0;
      RecompStart(sh, xs, i);
    } else {
      RecompTermAt(sh, i, n);
      LinearNext(RecompTerms(sh, i), n, xs);
      BitIsInside(sh, i, n - 1);
      var before := RecompPrefix(sh, xs, i, n - 1);
      var u := PowerMinus(n - 1, sh.a.p);
      q := RecompStep(ValueIn(sh, xs, sh.k + i), Spelled(sh, xs, i, n - 1), MinusPower(sh.a.p, n - 1), before, u,
                      Pow2(n - 1),
                      xs[sh.BitPos(i, n - 1)], sh.a.p);
    }
  }

  lemma RecompStep(value: int, spelled: int, c: int, before: int, u: int, w: int, x: int, p: int) returns (q: int)
    requires c == u * p - w
    ensures value - spelled + before * p + c * x == value - (spelled + w * x) + q * p
  {
    q := before + u * x;
    assert c * x == (u * p) * x - w * x;
    assert (u * p) * x == (u * x) * p;
    assert (before + u * x) * p == before * p + (u * x) * p;
  }

  lemma PowerMinus(b: nat, p: nat) returns (u: int)
    requires p > 0
    ensures MinusPower(p, b) == u * p - Pow2(b)
  {
    u := Complement(Pow2(b), p);
  }

  lemma Complement(w: nat, p: nat) returns (u: int)
    requires p > 0
    ensures (p - w % p) % p == u * p - w
  {
    if w % p == 0 {
      assert (p - w % p) % p == 0 by {
        ModIs(p, p, 1, 0);
      }
      u := w / p;
    } else {
      ModIs(p - w % p, p, 0, p - w % p);
      u := w / p + 1;
      assert (w / p + 1) * p == (w / p) * p + p;
    }
  }

  /** A recomposition row evaluates to the value minus the number its bits spell. */
  lemma RecompMeans(sh: Shape, xs: seq<int>, i: nat)
    requires sh.Valid() && |xs| == sh.FullWidth() && i < sh.m
    ensures RowFits(sh, Linear(Nonzero(RecompTerms(sh, i))))
    ensures RowAt(sh, Linear(Nonzero(RecompTerms(sh, i))), xs) ==
            (ValueIn(sh, xs, sh.k + i) - Spelled(sh, xs, i, sh.a.rangeBits)) % sh.a.p
  {
    RecompFits(sh, i);
    NonzeroSame(RecompTerms(sh, i), xs);
    var n := sh.a.rangeBits;
    assert RecompTerms(sh, i)[..n + 1] == RecompTerms(sh, i);
    var q := RecompPrefix(sh, xs, i, n);
    SameResidue(LinearAt(RecompTerms(sh, i), xs), ValueIn(sh, xs, sh.k + i) - Spelled(sh, xs, i, n), q, sh.a.p);
  }

  ghost predicate RecompHolds(sh: Shape, xs: seq<int>, i: nat)
    requires sh.Valid() && |xs| == sh.FullWidth()
  {
    RowFits(sh, Linear(Nonzero(RecompTerms(sh, i)))) && RowAt(sh, Linear(Nonzero(RecompTerms(sh, i))), xs) == 0
  }

  ghost predicate BitHolds(sh: Shape, xs: seq<int>, j: nat)
    requires sh.Valid() && |xs| == sh.FullWidth()
  {
    RowFits(sh, BitRow(sh.Width() + j)) && RowAt(sh, BitRow(sh.Width() + j), xs) == 0
  }

  /** Every recomposition row and every bit row is zero. */
  ghost predicate RangeRowsHold(sh: Shape, xs: seq<int>)
    requires sh.Valid() && |xs| == sh.FullWidth()
  {
    && (forall i: nat {:trigger RecompHolds(sh, xs, i)} | i < sh.m :: RecompHolds(sh, xs, i))
    && (forall j: nat {:trigger BitHolds(sh, xs, j)} | j < sh.BitCount() :: BitHolds(sh, xs, j))
  }

  lemma OneBitHolds(sh: Shape, xs: seq<int>, i: nat, b: nat)
    requires sh.Valid() && sh.a.Field() && |xs| == sh.FullWidth() && InField(sh.a.p, xs) && RangeRowsHold(sh, xs)
    requires i < sh.m && b < sh.a.rangeBits
    ensures sh.BitPos(i, b) < |xs| && (xs[sh.BitPos(i, b)] == 0 || xs[sh.BitPos(i, b)] == 1)
  {
    BitIsInside(sh, i, b);
    assert BitHolds(sh, xs, i * sh.a.rangeBits + b);
    BitForced(sh.a, xs[sh.BitPos(i, b)]);
  }

  lemma BitsHold(sh: Shape, xs: seq<int>, i: nat)
    requires sh.Valid() && sh.a.Field() && |xs| == sh.FullWidth() && InField(sh.a.p, xs) && RangeRowsHold(sh, xs)
             && i < sh.m
    ensures BitsAreBits(sh, xs, i)
  {
    hide RangeRowsHold, Algebra.Field;
    forall b: nat | b < sh.a.rangeBits
      ensures sh.BitPos(i, b) < |xs| && (xs[sh.BitPos(i, b)] == 0 || xs[sh.BitPos(i, b)] == 1) {
      OneBitHolds(sh, xs, i, b);
    }
  }

  /** Zero bit rows and a zero recomposition row put an output value in [0, 2^B), when 2^B <= p. */
  lemma RangeForced(sh: Shape, xs: seq<int>, i: nat)
    requires sh.Valid() && sh.a.Field() && |xs| == sh.FullWidth() && InField(sh.a.p, xs) && RangeRowsHold(sh, xs)
             && i < sh.m
    requires Pow2(sh.a.rangeBits) <= sh.a.p
    ensures 0 <= ValueIn(sh, xs, sh.k + i) < Pow2(sh.a.rangeBits)
  {
    BitsHold(sh, xs, i);
    SpelledBelow(sh, xs, i, sh.a.rangeBits);
    RecompMeans(sh, xs, i);
    assert RecompHolds(sh, xs, i);
    SlotFits(sh, sh.k + i);
    hide RangeRowsHold, BitsAreBits, Algebra.Field;
    var v, n := ValueIn(sh, xs, sh.k + i), Spelled(sh, xs, i, sh.a.rangeBits);
    ModIs(0, sh.a.p, 0, 0);
    CloseAndCongruent(v - n, 0, sh.a.p);
  }

  lemma {:induction false} SumBounded(sh: Shape, xs: seq<int>, low: nat, high: nat, bound: nat)
    requires sh.Valid() && |xs| == sh.FullWidth() && low <= high <= sh.Slots()
    requires forall s: nat | low <= s < high :: 0 <= ValueIn(sh, xs, s) < bound
    ensures 0 <= SumOf(sh, xs, low, high) <= (high - low) * bound
    ensures high > low ==> SumOf(sh, xs, low, high) < (high - low) * bound
    decreases high
  {
    if high > low {
      SumBounded(sh, xs, low, high - 1, bound);
      assert (high - low) * bound == (high - 1 - low) * bound + bound;
    }
  }

  lemma OutputsInRange(sh: Shape, xs: seq<int>)
    requires sh.Valid() && sh.a.Field() && |xs| == sh.FullWidth() && InField(sh.a.p, xs) && RangeRowsHold(sh, xs)
    requires Pow2(sh.a.rangeBits) <= sh.a.p
    ensures forall s: nat | sh.k <= s < sh.Slots() :: 0 <= ValueIn(sh, xs, s) < Pow2(sh.a.rangeBits)
  {
    forall s: nat | sh.k <= s < sh.Slots() ensures 0 <= ValueIn(sh, xs, s) < Pow2(sh.a.rangeBits) {
      RangeForced(sh, xs, s - sh.k);
    }
  }

  // ---- conservation ----

  /** With inputs in range and room in the field for all the slots together, the rows say that values are
      conserved over the integers exactly when the fee is one the inputs could pay. `authenticate` checks
      only that the fee is not negative, and compares it modulo p. */
  lemma ConservedIffPayable(sh: Shape, xs: seq<int>, fee: int)
    requires sh.Valid() && sh.a.Field() && |xs| == sh.FullWidth() && InField(sh.a.p, xs) && RangeRowsHold(sh, xs)
    requires sh.k >= 1 && fee >= 0 && sh.Slots() * Pow2(sh.a.rangeBits) <= sh.a.p
    requires forall s: nat | s < sh.k :: 0 <= ValueIn(sh, xs, s) < Pow2(sh.a.rangeBits)
    requires RowFits(sh, Linear(Nonzero(SumTerms(sh)))) && RowAt(sh, Linear(Nonzero(SumTerms(sh))), xs) == fee % sh.a.p
    ensures InputSum(sh, xs) == OutputSum(sh, xs) + fee <==> fee < sh.k * Pow2(sh.a.rangeBits)
  {
    RangeFits(sh);
    OutputsInRange(sh, xs);
    SumBounded(sh, xs, 0, sh.k, Pow2(sh.a.rangeBits));
    SumBounded(sh, xs, sh.k, sh.Slots(), Pow2(sh.a.rangeBits));
    SumRowMeans(sh, xs);
    Payable(InputSum(sh, xs), OutputSum(sh, xs), fee, sh.k * Pow2(sh.a.rangeBits), sh.m * Pow2(sh.a.rangeBits), sh.a.p);
  }

  lemma RangeFits(sh: Shape)
    requires sh.Valid() && sh.Slots() * Pow2(sh.a.rangeBits) <= sh.a.p
    ensures Pow2(sh.a.rangeBits) <= sh.a.p
    ensures sh.k * Pow2(sh.a.rangeBits) + sh.m * Pow2(sh.a.rangeBits) <= sh.a.p
  {
    var w := Pow2(sh.a.rangeBits);
    MulMonotone(1, sh.Slots(), w);
    assert (sh.k + sh.m) * w == sh.k * w + sh.m * w;
  }

  lemma Payable(i: int, o: int, fee: int, kw: nat, mw: nat, p: nat)
    requires 0 <= i < kw && 0 <= o < mw && kw + mw <= p && fee >= 0 && (i - o) % p == fee % p
    ensures i == o + fee <==> fee < kw
  {
    if fee < kw {
      CloseAndCongruent(i - o, fee, p);
    }
  }

  /** With separate bounds instead: inputs below p, and outputs with the fee at most p. */
  lemma ConservedWithin(sh: Shape, xs: seq<int>, fee: int)
    requires sh.Valid() && sh.a.Field() && |xs| == sh.FullWidth() && InField(sh.a.p, xs) && RangeRowsHold(sh, xs)
    requires sh.k >= 1 && fee >= 0 && sh.k * Pow2(sh.a.rangeBits) <= sh.a.p
             && sh.m * Pow2(sh.a.rangeBits) + fee <= sh.a.p
    requires forall s: nat | s < sh.k :: 0 <= ValueIn(sh, xs, s) < Pow2(sh.a.rangeBits)
    requires RowFits(sh, Linear(Nonzero(SumTerms(sh)))) && RowAt(sh, Linear(Nonzero(SumTerms(sh))), xs) == fee % sh.a.p
    ensures InputSum(sh, xs) == OutputSum(sh, xs) + fee
  {
    MulMonotone(1, sh.k, Pow2(sh.a.rangeBits));
    OutputsInRange(sh, xs);
    SumBounded(sh, xs, 0, sh.k, Pow2(sh.a.rangeBits));
    SumBounded(sh, xs, sh.k, sh.Slots(), Pow2(sh.a.rangeBits));
    SumRowMeans(sh, xs);
    FeeIsBalance(InputSum(sh, xs), OutputSum(sh, xs), fee, sh.k * Pow2(sh.a.rangeBits), sh.m * Pow2(sh.a.rangeBits),
                 sh.a.p);
  }

  lemma FeeIsBalance(i: int, o: int, fee: int, kw: nat, mw: nat, p: nat)
    requires 0 <= i < kw <= p && 0 <= o < mw && mw + fee <= p && fee >= 0 && (i - o) % p == fee % p
    ensures i == o + fee
  {
    CloseAndCongruent(i - o, fee, p);
  }

  /** With no inputs the same rows say that the outputs add up to the declared total, exactly when the
      total is a field element. */
  lemma MintedIffInField(sh: Shape, xs: seq<int>, total: int)
    requires sh.Valid() && sh.a.Field() && |xs| == sh.FullWidth() && InField(sh.a.p, xs) && RangeRowsHold(sh, xs)
    requires sh.k == 0 && total >= 0 && sh.m * Pow2(sh.a.rangeBits) <= sh.a.p
    requires RowFits(sh, Linear(Nonzero(SumTerms(sh))))
    requires RowAt(sh, Linear(Nonzero(SumTerms(sh))), xs) == (sh.a.p - total % sh.a.p) % sh.a.p
    ensures OutputSum(sh, xs) == total <==> total < sh.a.p
  {
    var w, p := Pow2(sh.a.rangeBits), sh.a.p;
    MulMonotone(1, sh.m, w);
    OutputsInRange(sh, xs);
    SumBounded(sh, xs, 0, sh.m, w);
    SumRowMeans(sh, xs);
    var o := OutputSum(sh, xs);
    assert InputSum(sh, xs) == 0;
    if total < p {
      ModIs(total, p, 0, total);
      if o > 0 {
        ModIs(-o, p, -1, p - o);
      } else {
        ModIs(-o, p, 0, 0);
      }
      if total > 0 {
        ModIs(p - total, p, 0, p - total);
      } else {
        ModIs(p, p, 1, 0);
      }
    }
  }

  // ---- lifting satisfies the fixed rows ----

  lemma {:induction false} BitPlaced(sh: Shape, base: seq<int>, n: nat, i: nat, b: nat, j: nat)
    requires sh.Valid() && |base| == sh.Width() && i < n <= sh.m && b < sh.a.rangeBits && j == i * sh.a.rangeBits + b
    ensures j < |BitsOfFirst(sh, base, n)| && BitsOfFirst(sh, base, n)[j] == BitOf(ValueInBase(sh, base, i), b)
  {
    var before := BitsOfFirst(sh, base, n - 1);
    if i == n - 1 {
      BitsAt(ValueInBase(sh, base, i), sh.a.rangeBits, b);
      assert j - |before| == b;
    } else {
      BitPlaced(sh, base, n - 1, i, b, j);
    }
  }

  function ValueInBase(sh: Shape, base: seq<int>, i: nat): int
    requires sh.Valid() && |base| == sh.Width() && i < sh.m
  {
    SlotFits(sh, sh.k + i);
    base[sh.SlotOff(sh.k + i) + NOTE_VALUE]
  }

  lemma {:induction false} BitsAt(value: int, n: nat, b: nat)
    requires b < n
    ensures BitsOf(value, n)[b] == BitOf(value, b)
  {
    if b < n - 1 {
      BitsAt(value, n - 1, b);
    }
  }

  lemma LiftedBit(sh: Shape, base: seq<int>, i: nat, b: nat)
    requires sh.Valid() && |base| == sh.Width() && i < sh.m && b < sh.a.rangeBits
    ensures sh.BitPos(i, b) < sh.FullWidth()
    ensures Lifted(sh, base)[sh.BitPos(i, b)] == BitOf(ValueInBase(sh, base, i), b)
  {
    BitIsInside(sh, i, b);
    BitPlaced(sh, base, sh.m, i, b, i * sh.a.rangeBits + b);
  }

  lemma {:induction false} SpelledIsRemainder(sh: Shape, base: seq<int>, i: nat, n: nat)
    requires sh.Valid() && |base| == sh.Width() && i < sh.m && n <= sh.a.rangeBits && ValueInBase(sh, base, i) >= 0
    ensures Spelled(sh, Lifted(sh, base), i, n) == ValueInBase(sh, base, i) % Pow2(n)
  {
    if n > 0 {
      SpelledIsRemainder(sh, base, i, n - 1);
      LiftedBit(sh, base, i, n - 1);
      OneMoreBit(ValueInBase(sh, base, i), Pow2(n - 1));
    }
  }

  lemma OneMoreBit(v: nat, w: nat)
    requires w > 0
    ensures v % (2 * w) == v % w + w * ((v / w) % 2)
  {
    var q, r := v / w, v % w;
    assert v == q * w + r;
    var h, b := q / 2, q % 2;
    assert q * w == (2 * h + b) * w;
    assert (2 * h + b) * w == h * (2 * w) + b * w;
    assert b * w == w * b;
    assert 0 <= w * b + r < 2 * w by {
      assert b == 0 || b == 1;
    }
    ModIs(v, 2 * w, h, w * b + r);
  }

  lemma LiftedBitHolds(sh: Shape, base: seq<int>, j: nat)
    requires sh.Valid() && |base| == sh.Width() && j < sh.BitCount()
    ensures BitHolds(sh, Lifted(sh, base), j)
  {
    var w := sh.a.rangeBits;
    var i, b := j / w, j % w;
    assert j == i * w + b;
    if i >= sh.m {
      MulMonotone(sh.m, i, w);
    }
    LiftedBit(sh, base, i, b);
    var x := Lifted(sh, base)[sh.BitPos(i, b)];
    assert x == 0 || x == 1;
    ModIs(0, sh.a.p, 0, 0);
  }

  lemma LiftedRecompHolds(sh: Shape, base: seq<int>, i: nat)
    requires sh.Valid() && |base| == sh.Width() && i < sh.m && 0 <= ValueInBase(sh, base, i) < Pow2(sh.a.rangeBits)
    ensures RecompHolds(sh, Lifted(sh, base), i)
  {
    RecompMeans(sh, Lifted(sh, base), i);
    SpelledIsRemainder(sh, base, i, sh.a.rangeBits);
    SlotFits(sh, sh.k + i);
    ModIs(ValueInBase(sh, base, i), Pow2(sh.a.rangeBits), 0, ValueInBase(sh, base, i));
    ModIs(0, sh.a.p, 0, 0);
  }

  /** A lifted base block whose output values are in range satisfies every range row. */
  lemma LiftSatisfies(sh: Shape, base: seq<int>)
    requires sh.Valid() && |base| == sh.Width()
    requires forall i: nat | i < sh.m :: 0 <= ValueInBase(sh, base, i) < Pow2(sh.a.rangeBits)
    ensures RangeRowsHold(sh, Lifted(sh, base))
  {
    forall i: nat | i < sh.m ensures RecompHolds(sh, Lifted(sh, base), i) {
      LiftedRecompHolds(sh, base, i);
    }
    forall j: nat | j < sh.BitCount() ensures BitHolds(sh, Lifted(sh, base), j) {
      LiftedBitHolds(sh, base, j);
    }
  }
}
