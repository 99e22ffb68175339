/**
 The polynomial system of one transaction shape (chain/txsystem.py): its rows, their evaluation, and what
 the linear and bit rows force over the integers.

 The note map and the nullifier form are abstract functions of one slot's coordinates; the sparse index of
 their monomials is not part of this model.
 */
module TxSystem {
  import opened Basics

  const NOTE_VALUE := 0
  const NOTE_ASSET := 1
  const NOTE_OWNER := 2

  /** The fixed algebra: the field, the width of a note, the bits of a value, and the two public maps. */
  datatype Algebra = Algebra(p: nat, nNote: nat, rangeBits: nat, noteRows: nat, noteRow: (seq<int>, nat) -> int,
                             nullifier: seq<int> -> int) {
    predicate Valid() {
      p > 2 && nNote > NOTE_OWNER
    }

    /** p is prime: a product vanishes only where a factor does. */
    ghost predicate Field() {
      Valid() && forall a: int, b: int {:trigger Vanishes(p, a, b)} :: Vanishes(p, a, b) ==> a % p == 0 || b % p == 0
    }
  }

  predicate Vanishes(p: nat, a: int, b: int)
    requires p > 0
  {
    (a * b) % p == 0
  }

  /** Positions in the variable vector of a shape with k inputs and m outputs. */
  datatype Shape = Shape(a: Algebra, k: nat, m: nat) {
    predicate Valid() {
      a.Valid() && m >= 1
    }

    function Slots(): nat { k + m }

    function SlotOff(s: nat): nat { s * a.nNote }

    function BindPos(): nat { Slots() * a.nNote }

    function Width(): nat { BindPos() + 1 }

    /** Position of bit b of output i. */
    function BitPos(i: nat, b: nat): nat { Width() + i * a.rangeBits + b }

    function BitCount(): nat { m * a.rangeBits }

    function FullWidth(): nat { Width() + BitCount() }
  }

  /** A coefficient at a position. */
  datatype Term = Term(pos: nat, coef: int)

  datatype Row =
    | NoteRow(slot: nat, l: nat)
    | Linear(terms: seq<Term>)
    | BitRow(pos: nat)
    | NullifierRow(slot: nat)

  function Reduced(p: nat, xs: seq<int>): (r: seq<int>)
    requires p > 0
    ensures |r| == |xs| && forall i | 0 <= i < |xs| :: r[i] == xs[i] % p
  {
    seq(|xs|, i requires 0 <= i < |xs| => xs[i] % p)
  }

  /** The value of a linear row before reduction. */
  function LinearAt(terms: seq<Term>, xs: seq<int>): int
    requires forall t <- terms :: t.pos < |xs|
  {
    if terms == [] then 0
    else LinearAt(terms[..|terms| - 1], xs) + terms[|terms| - 1].coef * xs[terms[|terms| - 1].pos]
  }

  predicate RowFits(sh: Shape, row: Row) {
    match row
    case NoteRow(slot, l) => slot < sh.Slots()
    case Linear(terms) => forall t <- terms :: t.pos < sh.FullWidth()
    case BitRow(pos) => pos < sh.FullWidth()
    case NullifierRow(slot) => slot < sh.Slots()
  }

  lemma SlotFits(sh: Shape, slot: nat)
    requires slot < sh.Slots()
    ensures sh.SlotOff(slot) + sh.a.nNote <= sh.BindPos()
  {
    MulMonotone(slot + 1, sh.Slots(), sh.a.nNote);
  }

  function SlotOf(sh: Shape, xs: seq<int>, slot: nat): (r: seq<int>)
    requires |xs| == sh.FullWidth() && slot < sh.Slots()
    ensures |r| == sh.a.nNote
  {
    SlotFits(sh, slot);
    xs[sh.SlotOff(slot)..sh.SlotOff(slot) + sh.a.nNote]
  }

  /** What one row evaluates to at a reduced point. */
  function RowAt(sh: Shape, row: Row, xs: seq<int>): int
    requires sh.Valid() && |xs| == sh.FullWidth() && RowFits(sh, row)
  {
    match row
    case NoteRow(slot, l) => sh.a.noteRow(SlotOf(sh, xs, slot), l) % sh.a.p
    case Linear(terms) => LinearAt(terms, xs) % sh.a.p
    case BitRow(pos) => (xs[pos] * xs[pos] - xs[pos]) % sh.a.p
    case NullifierRow(slot) => sh.a.nullifier(SlotOf(sh, xs, slot)) % sh.a.p
  }

  // ---- the rows a shape has ----

  /** Inputs count plus one, outputs minus one. */
  function SumTerms(sh: Shape): seq<Term>
    requires sh.a.p > 0
  {
    seq(sh.Slots(), s requires 0 <= s < sh.Slots() => Term(sh.SlotOff(s) + NOTE_VALUE, if s < sh.k then 1
                                                           else sh.a.p - 1))
  }

  function AssetTerms(sh: Shape, s: nat): seq<Term>
    requires sh.a.p > 0
  {
    [Term(sh.SlotOff(s) + NOTE_ASSET, 1), Term(sh.SlotOff(0) + NOTE_ASSET, sh.a.p - 1)]
  }

  /** -2^b in the field. */
  function MinusPower(p: nat, b: nat): int
    requires p > 0
  {
    (p - Pow2(b) % p) % p
  }

  /** value - sum of 2^b * bit. */
  function RecompTerms(sh: Shape, i: nat): seq<Term>
    requires sh.a.p > 0
  {
    [Term(sh.SlotOff(sh.k + i) + NOTE_VALUE, 1)]
    + seq(sh.a.rangeBits, b requires 0 <= b < sh.a.rangeBits => Term(sh.BitPos(i, b), MinusPower(sh.a.p, b)))
  }

  /** `_add_row` drops terms whose coefficient is zero. */
  function Nonzero(terms: seq<Term>): (r: seq<Term>)
    ensures forall t <- r :: t in terms
  {
    if terms == [] then []
    else
      var last := terms[|terms| - 1];
      Nonzero(terms[..|terms| - 1]) + if last.coef == 0 then [] else [last]
  }

  lemma {:induction false} NonzeroSame(terms: seq<Term>, xs: seq<int>)
    requires forall t <- terms :: t.pos < |xs|
    ensures LinearAt(Nonzero(terms), xs) == LinearAt(terms, xs)
  {
    if terms != [] {
      var front, last := terms[..|terms| - 1], terms[|terms| - 1];
      NonzeroSame(front, xs);
      if last.coef == 0 {
        assert Nonzero(terms) == Nonzero(front);
      } else {
        assert (Nonzero(front) + [last])[..|Nonzero(front)|] == Nonzero(front);
      }
    }
  }

  // ---- lifting ----

  /** `(value >> b) & 1`. */
  function BitOf(value: int, b: nat): int {
    (value / Pow2(b)) % 2
  }

  function BitsOf(value: int, n: nat): (r: seq<int>)
    ensures |r| == n
  {
    if n == 0 then [] else BitsOf(value, n - 1) + [BitOf(value, n - 1)]
  }

  function BitsOfFirst(sh: Shape, base: seq<int>, i: nat): (r: seq<int>)
    requires sh.Valid() && |base| == sh.Width() && i <= sh.m
    ensures |r| == i * sh.a.rangeBits
  {
    if i == 0 then []
    else
      SlotFits(sh, sh.k + i - 1);
      BitsOfFirst(sh, base, i - 1) + BitsOf(base[sh.SlotOff(sh.k + i - 1) + NOTE_VALUE], sh.a.rangeBits)
  }

  function Lifted(sh: Shape, base: seq<int>): (r: seq<int>)
    requires sh.Valid() && |base| == sh.Width()
    ensures |r| == sh.FullWidth()
  {
    base + BitsOfFirst(sh, base, sh.m)
  }

  // ---- the families of rows ----

  function NoteFamily(sh: Shape, s: nat): seq<Row> {
    seq(sh.a.noteRows, l requires 0 <= l < sh.a.noteRows => NoteRow(s, l))
  }

  function AssetFamily(sh: Shape): seq<Row>
    requires sh.Valid()
  {
    seq(sh.Slots() - 1, s requires 0 <= s < sh.Slots() - 1 => Linear(Nonzero(AssetTerms(sh, s + 1))))
  }

  function RangeFamily(sh: Shape): seq<Row>
    requires sh.Valid()
  {
    seq(sh.m, i requires 0 <= i < sh.m => Linear(Nonzero(RecompTerms(sh, i))))
  }

  function BitFamily(sh: Shape): seq<Row> {
    seq(sh.BitCount(), j requires 0 <= j < sh.BitCount() => BitRow(sh.Width() + j))
  }

  function NullifierFamily(sh: Shape): seq<Row> {
    seq(sh.k, j requires 0 <= j < sh.k => NullifierRow(j))
  }

  function OwnerFamily(sh: Shape): seq<Row> {
    seq(sh.k, j requires 0 <= j < sh.k => Linear([Term(sh.SlotOff(j) + NOTE_OWNER, 1)]))
  }

  function NoteFamilies(sh: Shape, slots: nat): seq<Row> {
    if slots == 0 then [] else NoteFamilies(sh, slots - 1) + NoteFamily(sh, slots - 1)
  }

  /** Every row of a shape, in build order. */
  function AllRows(sh: Shape): seq<Row>
    requires sh.Valid()
  {
    NoteFamilies(sh, sh.Slots()) + [Linear(Nonzero(SumTerms(sh)))] + AssetFamily(sh) + RangeFamily(sh) + BitFamily(sh)
    + NullifierFamily(sh) + OwnerFamily(sh) + [Linear([Term(sh.BindPos(), 1)])]
  }

  // ---- where each row is ----

  function Run(start: nat, n: nat): (r: seq<nat>)
    ensures |r| == n && forall j | 0 <= j < n :: r[j] == start + j
  {
    seq(n, j requires 0 <= j < n => start + j)
  }

  function NoteAt(sh: Shape, s: nat): nat { s * sh.a.noteRows }

  function SumAt(sh: Shape): nat { NoteAt(sh, sh.Slots()) }

  function AssetAt(sh: Shape): nat { SumAt(sh) + 1 }

  function RangeAt(sh: Shape): nat
    requires sh.Valid()
  {
    AssetAt(sh) + (sh.Slots() - 1)
  }

  function BitAt(sh: Shape): nat
    requires sh.Valid()
  {
    RangeAt(sh) + sh.m
  }

  function NullifierAt(sh: Shape): nat
    requires sh.Valid()
  {
    BitAt(sh) + sh.BitCount()
  }

  function OwnerAt(sh: Shape): nat
    requires sh.Valid()
  {
    NullifierAt(sh) + sh.k
  }

  function BindAt(sh: Shape): nat
    requires sh.Valid()
  {
    OwnerAt(sh) + sh.k
  }

  lemma {:induction false} NoteFamiliesAt(sh: Shape, slots: nat, s: nat, l: nat)
    requires s < slots && l < sh.a.noteRows
    ensures |NoteFamilies(sh, slots)| == NoteAt(sh, slots)
    ensures NoteAt(sh, s) + l < NoteAt(sh, slots) && NoteFamilies(sh, slots)[NoteAt(sh, s) + l] == NoteRow(s, l)
  {
    NoteFamiliesSize(sh, slots - 1);
    NoteFamiliesSize(sh, slots);
    MulMonotone(s + 1, slots, sh.a.noteRows);
    if s < slots - 1 {
      NoteFamiliesAt(sh, slots - 1, s, l);
    }
  }

  lemma {:induction false} NoteFamiliesSize(sh: Shape, slots: nat)
    ensures |NoteFamilies(sh, slots)| == NoteAt(sh, slots)
  {
    if slots > 0 {
      NoteFamiliesSize(sh, slots - 1);
    }
  }

  /** Each family of rows starts where its position says, and the bind row is last. */
  lemma RowPlaces(sh: Shape)
    requires sh.Valid()
    ensures var rows := AllRows(sh);
            && |rows| == BindAt(sh) + 1
            && rows[SumAt(sh)] == Linear(Nonzero(SumTerms(sh)))
            && rows[AssetAt(sh)..RangeAt(sh)] == AssetFamily(sh)
            && rows[RangeAt(sh)..BitAt(sh)] == RangeFamily(sh)
            && rows[BitAt(sh)..NullifierAt(sh)] == BitFamily(sh)
            && rows[NullifierAt(sh)..OwnerAt(sh)] == NullifierFamily(sh)
            && rows[OwnerAt(sh)..BindAt(sh)] == OwnerFamily(sh)
            && rows[BindAt(sh)] == Linear([Term(sh.BindPos(), 1)])
  {
    NoteFamiliesSize(sh, sh.Slots());
    FamilySizes(sh);
    Places(sh);
    ghost var a, b, c, d, e, f := NoteFamilies(sh, sh.Slots()), AssetFamily(sh), RangeFamily(sh), BitFamily(sh),
      NullifierFamily(sh), OwnerFamily(sh);
    ghost var x, y := Linear(Nonzero(SumTerms(sh))), Linear([Term(sh.BindPos(), 1)]);
    assert AllRows(sh) == a + [x] + b + c + d + e + f + [y];
    hide *;
    Concat(AllRows(sh), a, x, b, c, d, e, f, y, SumAt(sh), AssetAt(sh), RangeAt(sh), BitAt(sh), NullifierAt(sh),
           OwnerAt(sh), BindAt(sh));
  }

  lemma RowCount(sh: Shape)
    requires sh.Valid()
    ensures |AllRows(sh)| == BindAt(sh) + 1
  {
    RowPlaces(sh);
  }

  lemma Places(sh: Shape)
    requires sh.Valid()
    ensures AssetAt(sh) == SumAt(sh) + 1 && RangeAt(sh) == AssetAt(sh) + (sh.Slots() - 1)
            && BitAt(sh) == RangeAt(sh) + sh.m
    ensures NullifierAt(sh) == BitAt(sh) + sh.BitCount() && OwnerAt(sh) == NullifierAt(sh) + sh.k
            && BindAt(sh) == OwnerAt(sh) + sh.k
    ensures SumAt(sh) == NoteAt(sh, sh.Slots())
  {
  }

  lemma Concat(all: seq<Row>, a: seq<Row>, x: Row, b: seq<Row>, c: seq<Row>, d: seq<Row>, e: seq<Row>, f: seq<Row>,
               y: Row, h: nat, i: nat, j: nat, k: nat, l: nat, m: nat, n: nat)
    requires all == a + [x] + b + c + d + e + f + [y]
    requires h == |a| && i == h + 1 && j == i + |b| && k == j + |c| && l == k + |d| && m == l + |e| && n == m + |f|
    ensures |all| == n + 1
    ensures all[h] == x && all[i..j] == b && all[j..k] == c && all[k..l] == d && all[l..m] == e && all[m..n] == f
            && all[n] == y
  {
  }

  /** `v` is what every row evaluates to at `xs`. */
  ghost predicate Evaluates(sh: Shape, v: seq<int>, xs: seq<int>)
    requires sh.Valid() && |xs| == sh.FullWidth()
  {
    && |v| == |AllRows(sh)|
    && forall i {:trigger v[i]} | 0 <= i < |v| :: RowFits(sh, AllRows(sh)[i]) && v[i] == RowAt(sh, AllRows(sh)[i], xs)
  }

  /** The system of a shape: every row, and where each family of rows is. */
  class TxSystem {
    const shape: Shape
    var rows: seq<Row>
    var noteRows: seq<seq<nat>>
    var sumRow: nat
    var assetRows: seq<nat>
    var rangeRows: seq<nat>
    var bitRows: seq<nat>
    var nfRows: seq<nat>
    var ownerRows: seq<nat>
    var bindRow: nat

    ghost predicate Valid()
      reads this
    {
      && shape.Valid() && rows == AllRows(shape)
      && |noteRows| == shape.Slots() && (forall s | 0 <= s < |noteRows| ::
                                         noteRows[s] == Run(NoteAt(shape, s), shape.a.noteRows))
      && sumRow == SumAt(shape)
      && assetRows == Run(AssetAt(shape), shape.Slots() - 1)
      && rangeRows == Run(RangeAt(shape), shape.m)
      && bitRows == Run(BitAt(shape), shape.BitCount())
      && nfRows == Run(NullifierAt(shape), shape.k)
      && ownerRows == Run(OwnerAt(shape), shape.k)
      && bindRow == BindAt(shape)
    }

    /** The rows in build order, family by family. */
    constructor (shape: Shape)
      requires shape.Valid()
      ensures Valid() && this.shape == shape
    {
      this.shape := shape;
      rows, noteRows, sumRow, assetRows, rangeRows, bitRows, nfRows, ownerRows, bindRow := [], [], 0, [], [], [],
        [], [], 0;
      new;
      AddNoteRows();
      AddLinearRows();
      AddBitAndKeyRows();
    }

    method AddLinearRows()
      requires shape.Valid() && rows == NoteFamilies(shape, shape.Slots())
      modifies this`rows, this`sumRow, this`assetRows, this`rangeRows
      ensures rows == old(rows) + [Linear(Nonzero(SumTerms(shape)))] + AssetFamily(shape) + RangeFamily(shape)
      ensures |rows| == BitAt(shape)
      ensures sumRow == SumAt(shape) && assetRows == Run(AssetAt(shape), shape.Slots() - 1)
              && rangeRows == Run(RangeAt(shape), shape.m)
    {
      NoteFamiliesSize(shape, shape.Slots());
      FamilySizes(shape);
      hide *;
      sumRow := AddRow(Linear(Nonzero(SumTerms(shape))));
      assetRows := AddFamily(AssetFamily(shape));
      rangeRows := AddFamily(RangeFamily(shape));
      Places(shape);
    }

    method AddBitAndKeyRows()
      requires shape.Valid() && |rows| == BitAt(shape)
      modifies this`rows, this`bitRows, this`nfRows, this`ownerRows, this`bindRow
      ensures rows == old(rows) + BitFamily(shape) + NullifierFamily(shape) + OwnerFamily(shape)
                      + [Linear([Term(shape.BindPos(), 1)])]
      ensures bitRows == Run(BitAt(shape), shape.BitCount()) && nfRows == Run(NullifierAt(shape), shape.k)
      ensures ownerRows == Run(OwnerAt(shape), shape.k) && bindRow == BindAt(shape)
    {
      FamilySizes(shape);
      hide *;
      bitRows := AddFamily(BitFamily(shape));
      nfRows := AddFamily(NullifierFamily(shape));
      ownerRows := AddFamily(OwnerFamily(shape));
      bindRow := AddRow(Linear([Term(shape.BindPos(), 1)]));
      Places(shape);
    }

    method AddRow(row: Row) returns (at: nat)
      modifies this`rows
      ensures rows == old(rows) + [row] && at == |old(rows)|
    {
      rows := rows + [row];
      return |rows| - 1;
    }

    method AddFamily(want: seq<Row>) returns (at: seq<nat>)
      modifies this`rows
      ensures rows == old(rows) + want && at == Run(|old(rows)|, |want|)
    {
      at := [];
      for j := 0 to |want|
        invariant rows == old(rows) + want[..j] && at == Run(|old(rows)|, j)
      {
        var i := AddRow(want[j]);
        at := at + [i];
        assert want[..j + 1] == want[..j] + [want[j]];
      }
      assert want[..|want|] == want;
    }

    method AddNoteRows()
      requires rows == [] && noteRows == []
      modifies this`rows, this`noteRows
      ensures |noteRows| == shape.Slots() && rows == NoteFamilies(shape, shape.Slots())
      ensures forall s | 0 <= s < |noteRows| :: noteRows[s] == Run(NoteAt(shape, s), shape.a.noteRows)
    {
      for s := 0 to shape.Slots()
        invariant |noteRows| == s && rows == NoteFamilies(shape, s)
        invariant forall t | 0 <= t < s :: noteRows[t] == Run(NoteAt(shape, t), shape.a.noteRows)
      {
        NoteFamiliesSize(shape, s);
        var list := AddFamily(NoteFamily(shape, s));
        noteRows := noteRows + [list];
      }
    }

    /** Base block to full vector: the bits of each output value appended. */
    method Lift(base: seq<int>) returns (r: Option<seq<int>>)
      requires shape.Valid()
      ensures r.None? <==> |base| != shape.Width()
      ensures r.Some? ==> r.value == Lifted(shape, Reduced(shape.a.p, base))
    {
      var x := Reduced(shape.a.p, base);
      if |x| != shape.Width() {
        return None;
      }
      var bits: seq<int> := [];
      for i := 0 to shape.m
        invariant bits == BitsOfFirst(shape, x, i)
      {
        SlotFits(shape, shape.k + i);
        var value := x[shape.SlotOff(shape.k + i) + NOTE_VALUE];
        ghost var was := bits;
        for b := 0 to shape.a.rangeBits
          invariant bits == was + BitsOf(value, b)
        {
          bits := bits + [BitOf(value, b)];
        }
      }
      return Some(x + bits);
    }

    /** Evaluate every row. */
    method F(point: seq<int>) returns (r: Option<seq<int>>)
      requires Valid()
      ensures r.None? <==> |point| != shape.FullWidth()
      ensures r.Some? ==> Evaluates(shape, r.value, Reduced(shape.a.p, point))
    {
      hide AllRows, NoteFamilies;
      if |point| != shape.FullWidth() {
        return None;
      }
      var x := Reduced(shape.a.p, point);
      var out: seq<int> := [];
      RowsFit(shape);
      for i := 0 to |rows|
        invariant |out| == i
        invariant forall j | 0 <= j < i :: RowFits(shape, rows[j]) && out[j] == RowAt(shape, rows[j], x)
      {
        assert rows[i] in rows;
        match rows[i] {
          case NoteRow(slot, l) => out := out + [shape.a.noteRow(SlotOf(shape, x, slot), l) % shape.a.p];
          case Linear(terms) =>
            var acc := 0;
            for j := 0 to |terms|
              invariant acc == LinearAt(terms[..j], x)
            {
              assert terms[j] in terms && terms[..j + 1][..j] == terms[..j];
              acc := acc + terms[j].coef * x[terms[j].pos];
            }
            assert terms[..|terms|] == terms;
            out := out + [acc % shape.a.p];
          case BitRow(pos) => out := out + [(x[pos] * x[pos] - x[pos]) % shape.a.p];
          case NullifierRow(slot) => out := out + [shape.a.nullifier(SlotOf(shape, x, slot)) % shape.a.p];
        }
      }
      return Some(out);
    }
  }

  lemma FamilySizes(sh: Shape)
    requires sh.Valid()
    ensures |AssetFamily(sh)| == sh.Slots() - 1 && |RangeFamily(sh)| == sh.m && |BitFamily(sh)| == sh.BitCount()
    ensures |NullifierFamily(sh)| == sh.k && |OwnerFamily(sh)| == sh.k
  {
  }

  /** No row reaches outside the variable vector. */
  lemma RowsFit(sh: Shape)
    requires sh.Valid()
    ensures forall row <- AllRows(sh) :: RowFits(sh, row)
  {
    NotesFit(sh, sh.Slots());
    SumFits(sh);
    AssetsFit(sh);
    RangesFit(sh);
    BitsFit(sh);
    OwnersFit(sh);
    BindFits(sh);
    hide RowFits, NoteFamilies, AssetFamily, RangeFamily, BitFamily, NullifierFamily, OwnerFamily, SumTerms, Nonzero;
  }

  lemma {:induction false} NotesFit(sh: Shape, slots: nat)
    requires slots <= sh.Slots()
    ensures forall row <- NoteFamilies(sh, slots) :: RowFits(sh, row)
  {
    if slots > 0 {
      NotesFit(sh, slots - 1);
    }
  }

  lemma BindFits(sh: Shape)
    ensures RowFits(sh, Linear([Term(sh.BindPos(), 1)]))
  {
  }

  lemma SumFits(sh: Shape)
    requires sh.Valid()
    ensures RowFits(sh, Linear(Nonzero(SumTerms(sh))))
  {
    forall s: nat | s < sh.Slots() ensures sh.SlotOff(s) + NOTE_VALUE < sh.FullWidth() {
      SlotFits(sh, s);
    }
  }

  lemma AssetsFit(sh: Shape)
    requires sh.Valid()
    ensures forall row <- AssetFamily(sh) :: RowFits(sh, row)
  {
    forall s: nat | s < sh.Slots() ensures sh.SlotOff(s) + NOTE_ASSET < sh.FullWidth() {
      SlotFits(sh, s);
    }
  }

  lemma BitIsInside(sh: Shape, i: nat, b: nat)
    requires i < sh.m && b < sh.a.rangeBits
    ensures sh.BitPos(i, b) < sh.FullWidth() && i * sh.a.rangeBits + b < sh.m * sh.a.rangeBits
  {
    MulMonotone(i + 1, sh.m, sh.a.rangeBits);
  }

  lemma RecompFits(sh: Shape, i: nat)
    requires sh.Valid() && i < sh.m
    ensures forall t <- RecompTerms(sh, i) :: t.pos < sh.FullWidth()
    ensures RowFits(sh, Linear(Nonzero(RecompTerms(sh, i))))
  {
    var terms := RecompTerms(sh, i);
    forall n | 0 <= n < |terms| ensures terms[n].pos < sh.FullWidth() {
      SlotFits(sh, sh.k + i);
      if n > 0 {
        BitIsInside(sh, i, n - 1);
      }
    }
  }

  lemma RangesFit(sh: Shape)
    requires sh.Valid()
    ensures forall row <- RangeFamily(sh) :: RowFits(sh, row)
  {
    forall i: nat | i < sh.m ensures RowFits(sh, Linear(Nonzero(RecompTerms(sh, i)))) {
      RecompFits(sh, i);
    }
  }

  lemma BitsFit(sh: Shape)
    ensures forall row <- BitFamily(sh) :: RowFits(sh, row)
  {
  }

  lemma OwnersFit(sh: Shape)
    requires sh.Valid()
    ensures forall row <- NullifierFamily(sh) :: RowFits(sh, row)
    ensures forall row <- OwnerFamily(sh) :: RowFits(sh, row)
  {
    forall s: nat | s < sh.k ensures sh.SlotOff(s) + NOTE_OWNER < sh.FullWidth() {
      SlotFits(sh, s);
    }
  }
}
