/**
 The builders (chain/transaction.py `build_transaction`, chain/mint.py `build_mint`): what they make, their
 own checks pass.
 */
module Builders {
  import opened Basics
  import opened TxSystem
  import opened RowTheorems
  import opened Transactions
  import opened Money

  /** The opening of a note: three named coordinates and the blinders. */
  datatype Note = Note(value: int, asset: int, owner: int, rest: seq<int>)

  ghost predicate Fits(a: Algebra, n: Note) {
    |n.rest| + 3 == a.nNote
  }

  function Coords(a: Algebra, n: Note): (r: seq<int>)
    requires a.p > 0
    ensures |r| == |n.rest| + 3 && InField(a.p, r)
    ensures r[NOTE_VALUE] == n.value % a.p && r[NOTE_ASSET] == n.asset % a.p && r[NOTE_OWNER] == n.owner % a.p
  {
    [n.value % a.p, n.asset % a.p, n.owner % a.p] + Reduced(a.p, n.rest)
  }

  function CmOf(sc: Scheme, n: Note): string
    requires sc.Valid()
  {
    sc.noteId(VectorOf(sc.a, Coords(sc.a, n)))
  }

  function CmsOf(sc: Scheme, notes: seq<Note>): (r: seq<string>)
    requires sc.Valid()
    ensures |r| == |notes|
  {
    seq(|notes|, i requires 0 <= i < |notes| => CmOf(sc, notes[i]))
  }

  function Total(notes: seq<Note>): int {
    if notes == [] then 0 else Total(notes[..|notes| - 1]) + notes[|notes| - 1].value
  }

  /** The base block: the notes' coordinates, slot after slot, then the binding scalar. */
  function Flat(a: Algebra, notes: seq<Note>): seq<int>
    requires a.p > 0
  {
    if notes == [] then [] else Flat(a, notes[..|notes| - 1]) + Coords(a, notes[|notes| - 1])
  }

  lemma {:induction false} FlatAt(a: Algebra, notes: seq<Note>, s: nat, off: nat)
    requires a.p > 0 && (forall n <- notes :: Fits(a, n)) && s < |notes| && off == s * a.nNote
    ensures off + a.nNote <= |Flat(a, notes)| && Flat(a, notes)[off..off + a.nNote] == Coords(a, notes[s])
  {
    var front, last := notes[..|notes| - 1], notes[|notes| - 1];
    assert last in notes && Fits(a, last);
    if s < |front| {
      FlatAt(a, front, s, off);
    } else {
      FlatSize(a, front);
    }
  }

  lemma {:induction false} FlatSize(a: Algebra, notes: seq<Note>)
    requires a.p > 0 && forall n <- notes :: Fits(a, n)
    ensures |Flat(a, notes)| == |notes| * a.nNote && InField(a.p, Flat(a, notes))
  {
    if notes != [] {
      FlatSize(a, notes[..|notes| - 1]);
      assert Fits(a, notes[|notes| - 1]);
      assert |notes| * a.nNote == (|notes| - 1) * a.nNote + a.nNote;
    }
  }

  // ---- what evaluation makes of a good assignment ----

  /** The asset coordinate of every slot is the first slot's. */
  ghost predicate OneAsset(sh: Shape, xs: seq<int>)
    requires sh.Valid() && |xs| == sh.FullWidth()
  {
    forall s: nat | s < sh.Slots() :: AssetIn(sh, xs, s) == AssetIn(sh, xs, 0)
  }

  function AssetIn(sh: Shape, xs: seq<int>, s: nat): int
    requires sh.Valid() && |xs| == sh.FullWidth() && s < sh.Slots()
  {
    SlotFits(sh, s);
    xs[sh.SlotOff(s) + NOTE_ASSET]
  }

  lemma AssetRowZero(sh: Shape, xs: seq<int>, s: nat)
    requires sh.Valid() && |xs| == sh.FullWidth() && 0 < s < sh.Slots() && AssetIn(sh, xs, s) == AssetIn(sh, xs, 0)
    ensures RowFits(sh, Linear(Nonzero(AssetTerms(sh, s)))) && RowAt(sh, Linear(Nonzero(AssetTerms(sh, s))), xs) == 0
  {
    SlotFits(sh, s);
    SlotFits(sh, 0);
    var terms, x, p := AssetTerms(sh, s), AssetIn(sh, xs, 0), sh.a.p;
    NonzeroSame(terms, xs);
    assert terms[..1] == [Term(sh.SlotOff(s) + NOTE_ASSET, 1)] && terms[..1][..0] == [];
    assert LinearAt(terms[..1], xs) == x;
    assert LinearAt(terms, xs) == x + (p - 1) * x;
    assert x + (p - 1) * x == x * p;
    ModIs(x * p, p, x, 0);
  }

  /** A satisfying assignment evaluates to rows that pass every check in the clear. */
  lemma GoodIsClear(sc: Scheme, sh: Shape, v: seq<int>, xs: seq<int>, declared: seq<string>, sum: int, beta: int)
    requires sc.Valid() && sh.Valid() && sh.a == sc.a && |xs| == sh.FullWidth() && Evaluates(sh, v, xs)
             && |declared| == sh.Slots()
    requires RangeRowsHold(sh, xs) && OneAsset(sh, xs) && sh.BindPos() < |xs| && xs[sh.BindPos()] == beta
             && 0 <= beta < sh.a.p
    requires RowFits(sh, Linear(Nonzero(SumTerms(sh)))) && RowAt(sh, Linear(Nonzero(SumTerms(sh))), xs) == sum
    requires forall s: nat | s < sh.Slots() :: sc.noteId(VectorOf(sc.a, SlotOf(sh, xs, s))) == declared[s]
    ensures ClearRows(sc, sh, v, declared, sum, beta)
  {
    RowPlaces(sh);
    SumRowIs(sh, v, xs);
    BindRowIs(sh, v, xs);
    NotesClear(sc, sh, v, xs, declared);
    AssetsClear(sh, v, xs);
    RangesClear(sh, v, xs);
    hide *;
    assert |v| == BindAt(sh) + 1 by {
      EvaluatesAt(sh, v, xs, BindAt(sh));
      LengthIs(sh, v, xs);
    }
    Gathered(sc, sh, v, declared, sum, beta);
  }

  lemma LengthIs(sh: Shape, v: seq<int>, xs: seq<int>)
    requires sh.Valid() && |xs| == sh.FullWidth() && Evaluates(sh, v, xs)
    ensures |v| == |AllRows(sh)|
  {
  }

  lemma Gathered(sc: Scheme, sh: Shape, v: seq<int>, declared: seq<string>, sum: int, beta: int)
    requires sc.Valid() && sh.Valid() && |declared| == sh.Slots() && |v| == BindAt(sh) + 1
    requires v[BindAt(sh)] == beta && NotesMatch(sc, sh, v, declared) && v[SumAt(sh)] == sum
    requires ZeroRun(v, AssetAt(sh), RangeAt(sh)) && ZeroRun(v, RangeAt(sh), BitAt(sh))
             && ZeroRun(v, BitAt(sh), NullifierAt(sh))
    ensures ClearRows(sc, sh, v, declared, sum, beta)
  {
  }

  lemma BindRowIs(sh: Shape, v: seq<int>, xs: seq<int>)
    requires sh.Valid() && |xs| == sh.FullWidth() && Evaluates(sh, v, xs) && 0 <= xs[sh.BindPos()] < sh.a.p
    ensures BindAt(sh) < |v| && v[BindAt(sh)] == xs[sh.BindPos()]
  {
    RowPlaces(sh);
    EvaluatesAt(sh, v, xs, BindAt(sh));
    hide AllRows, NoteAt;
    var terms := [Term(sh.BindPos(), 1)];
    assert terms[..0] == [];
    assert LinearAt(terms, xs) == xs[sh.BindPos()];
    ModIs(xs[sh.BindPos()], sh.a.p, 0, xs[sh.BindPos()]);
  }

  lemma NotesClear(sc: Scheme, sh: Shape, v: seq<int>, xs: seq<int>, declared: seq<string>)
    requires sc.Valid() && sh.Valid() && sh.a == sc.a && |xs| == sh.FullWidth() && Evaluates(sh, v, xs)
             && |declared| == sh.Slots()
    requires forall s: nat | s < sh.Slots() :: sc.noteId(VectorOf(sc.a, SlotOf(sh, xs, s))) == declared[s]
    ensures NotesMatch(sc, sh, v, declared)
  {
    RowPlaces(sh);
    LengthIs(sh, v, xs);
    hide AllRows;
    forall s: nat | s < sh.Slots() ensures NoteMatches(sc, sh, v, declared, s) {
      NoteInside(sh, s);
      var vector, want := v[NoteAt(sh, s)..NoteEnd(sh, s)], VectorOf(sc.a, SlotOf(sh, xs, s));
      forall l | 0 <= l < sh.a.noteRows ensures vector[l] == want[l] {
        NoteRowIs(sh, s, l);
        EvaluatesAt(sh, v, xs, NoteAt(sh, s) + l);
      }
      assert vector == want;
    }
  }

  lemma AssetRowIs(sh: Shape, i: nat)
    requires sh.Valid() && AssetAt(sh) <= i < RangeAt(sh)
    ensures i < |AllRows(sh)| && i - AssetAt(sh) + 1 < sh.Slots()
            && AllRows(sh)[i] == Linear(Nonzero(AssetTerms(sh, i - AssetAt(sh) + 1)))
  {
    hide AllRows, NoteAt, Nonzero, AssetTerms;
    RowPlaces(sh);
    assert AllRows(sh)[AssetAt(sh)..RangeAt(sh)][i - AssetAt(sh)] == AllRows(sh)[i];
  }

  lemma RangeRowIs(sh: Shape, i: nat)
    requires sh.Valid() && RangeAt(sh) <= i < BitAt(sh)
    ensures i < |AllRows(sh)| && i - RangeAt(sh) < sh.m
            && AllRows(sh)[i] == Linear(Nonzero(RecompTerms(sh, i - RangeAt(sh))))
  {
    hide AllRows, NoteAt, Nonzero, RecompTerms;
    RowPlaces(sh);
    assert AllRows(sh)[RangeAt(sh)..BitAt(sh)][i - RangeAt(sh)] == AllRows(sh)[i];
  }

  lemma BitRowIs(sh: Shape, i: nat)
    requires sh.Valid() && BitAt(sh) <= i < NullifierAt(sh)
    ensures i < |AllRows(sh)| && i - BitAt(sh) < sh.BitCount() && AllRows(sh)[i] == BitRow(sh.Width() + (i - BitAt(sh)))
  {
    hide AllRows, NoteAt;
    RowPlaces(sh);
    assert AllRows(sh)[BitAt(sh)..NullifierAt(sh)][i - BitAt(sh)] == AllRows(sh)[i];
  }

  /** The zero runs of checked families lie inside the vector. */
  lemma RunsInside(sh: Shape, v: seq<int>, xs: seq<int>)
    requires sh.Valid() && |xs| == sh.FullWidth() && Evaluates(sh, v, xs)
    ensures AssetAt(sh) <= RangeAt(sh) <= BitAt(sh) <= NullifierAt(sh) <= |v|
  {
    hide AllRows, NoteAt, Evaluates, NoteFamilies;
    RowPlaces(sh);
    LengthIs(sh, v, xs);
  }

  lemma AssetsClear(sh: Shape, v: seq<int>, xs: seq<int>)
    requires sh.Valid() && |xs| == sh.FullWidth() && Evaluates(sh, v, xs) && OneAsset(sh, xs)
    ensures ZeroRun(v, AssetAt(sh), RangeAt(sh))
  {
    hide NoteFamilies, AssetAt, RangeAt, AllRows, NoteAt, Nonzero, AssetTerms, RowAt, RowFits, Evaluates;
    hide Shape.FullWidth, Shape.Width;
    RunsInside(sh, v, xs);
    forall i | AssetAt(sh) <= i < RangeAt(sh) ensures v[i] == 0 {
      AssetRowIs(sh, i);
      AssetRowZero(sh, xs, i - AssetAt(sh) + 1);
      EvaluatesAt(sh, v, xs, i);
    }
  }

  lemma RangesClear(sh: Shape, v: seq<int>, xs: seq<int>)
    requires sh.Valid() && |xs| == sh.FullWidth() && Evaluates(sh, v, xs) && RangeRowsHold(sh, xs)
    ensures ZeroRun(v, RangeAt(sh), BitAt(sh)) && ZeroRun(v, BitAt(sh), NullifierAt(sh))
  {
    hide NoteFamilies, RangeAt, BitAt, NullifierAt, AllRows, NoteAt, Nonzero, RecompTerms, RowAt, RowFits, Evaluates;
    hide Shape.FullWidth, Shape.Width;
    RunsInside(sh, v, xs);
    forall i | RangeAt(sh) <= i < BitAt(sh) ensures v[i] == 0 {
      RangeRowIs(sh, i);
      assert RecompHolds(sh, xs, i - RangeAt(sh));
      EvaluatesAt(sh, v, xs, i);
    }
    forall i | BitAt(sh) <= i < NullifierAt(sh) ensures v[i] == 0 {
      BitRowIs(sh, i);
      assert BitHolds(sh, xs, i - BitAt(sh));
      EvaluatesAt(sh, v, xs, i);
    }
  }

  // ---- the assignment a builder makes ----

  function BaseOf(sh: Shape, notes: seq<Note>, beta: int): seq<int>
    requires sh.Valid()
  {
    Flat(sh.a, notes) + [beta]
  }

  lemma BaseFits(sh: Shape, notes: seq<Note>, beta: int)
    requires sh.Valid() && (forall n <- notes :: Fits(sh.a, n)) && |notes| == sh.Slots() && 0 <= beta < sh.a.p
    ensures |BaseOf(sh, notes, beta)| == sh.Width() && InField(sh.a.p, BaseOf(sh, notes, beta))
    ensures Reduced(sh.a.p, BaseOf(sh, notes, beta)) == BaseOf(sh, notes, beta)
  {
    FlatSize(sh.a, notes);
    FieldIsReduced(sh.a.p, BaseOf(sh, notes, beta));
  }

  lemma FieldIsReduced(p: nat, xs: seq<int>)
    requires p > 0 && InField(p, xs)
    ensures Reduced(p, xs) == xs
  {
    forall i | 0 <= i < |xs| ensures xs[i] % p == xs[i] {
      ModIs(xs[i], p, 0, xs[i]);
    }
  }

  lemma {:induction false} BitsInField(sh: Shape, base: seq<int>, n: nat)
    requires sh.Valid() && |base| == sh.Width() && n <= sh.m
    ensures InField(sh.a.p, BitsOfFirst(sh, base, n))
  {
    if n > 0 {
      BitsInField(sh, base, n - 1);
      SlotFits(sh, sh.k + n - 1);
      BitsSmall(base[sh.SlotOff(sh.k + n - 1) + NOTE_VALUE], sh.a.rangeBits);
    }
  }

  lemma {:induction false} BitsSmall(value: int, n: nat)
    ensures forall b | 0 <= b < n :: 0 <= BitsOf(value, n)[b] < 2
  {
    if n > 0 {
      BitsSmall(value, n - 1);
    }
  }

  lemma LiftedInField(sh: Shape, base: seq<int>)
    requires sh.Valid() && |base| == sh.Width() && InField(sh.a.p, base)
    ensures InField(sh.a.p, Lifted(sh, base)) && Reduced(sh.a.p, Lifted(sh, base)) == Lifted(sh, base)
  {
    BitsInField(sh, base, sh.m);
    FieldIsReduced(sh.a.p, Lifted(sh, base));
  }

  /** The slots of the lifted assignment are the notes. */
  lemma SlotIsNote(sh: Shape, notes: seq<Note>, beta: int, s: nat)
    requires sh.Valid() && (forall n <- notes :: Fits(sh.a, n)) && s < |notes| == sh.Slots() && 0 <= beta < sh.a.p
    requires |BaseOf(sh, notes, beta)| == sh.Width()
    ensures var xs := Lifted(sh, BaseOf(sh, notes, beta));
            && SlotOf(sh, xs, s) == Coords(sh.a, notes[s])
            && ValueIn(sh, xs, s) == notes[s].value % sh.a.p && AssetIn(sh, xs, s) == notes[s].asset % sh.a.p
            && sh.SlotOff(s) + NOTE_OWNER < |xs| && xs[sh.SlotOff(s) + NOTE_OWNER] == notes[s].owner % sh.a.p
  {
    var xs, off := Lifted(sh, BaseOf(sh, notes, beta)), sh.SlotOff(s);
    SlotFits(sh, s);
    FlatAt(sh.a, notes, s, off);
    FlatSize(sh.a, notes);
    var slot := SlotOf(sh, xs, s);
    assert slot == Flat(sh.a, notes)[off..off + sh.a.nNote];
    assert slot[NOTE_VALUE] == xs[off + NOTE_VALUE] && slot[NOTE_ASSET] == xs[off + NOTE_ASSET]
      && slot[NOTE_OWNER] == xs[off + NOTE_OWNER];
  }

  lemma {:induction false} SumIsTotal(sh: Shape, notes: seq<Note>, xs: seq<int>, low: nat, high: nat) returns (q: int)
    requires sh.Valid() && |notes| == sh.Slots() && |xs| == sh.FullWidth() && low <= high <= sh.Slots()
    requires forall s: nat | s < sh.Slots() :: ValueIn(sh, xs, s) == notes[s].value % sh.a.p
    ensures Total(notes[low..high]) == SumOf(sh, xs, low, high) + q * sh.a.p
    decreases high
  {
    q := 0;
    if high > low {
      var before := SumIsTotal(sh, notes, xs, low, high - 1);
      assert notes[low..high][..high - 1 - low] == notes[low..high - 1];
      var v := notes[high - 1].value;
      q := before + v / sh.a.p;
      OneMoreValue(Total(notes[low..high - 1]), SumOf(sh, xs, low, high - 1), before, v, sh.a.p);
    }
  }

  lemma OneMoreValue(total: int, sum: int, q: int, v: int, p: nat)
    requires p > 0 && total == sum + q * p
    ensures total + v == sum + v % p + (q + v / p) * p
  {
    assert v == v % p + (v / p) * p;
    assert (q + v / p) * p == q * p + (v / p) * p;
  }

  lemma NotesInRange(sh: Shape, notes: seq<Note>, beta: int)
    requires sh.Valid() && (forall n <- notes :: Fits(sh.a, n)) && |notes| == sh.Slots() && 0 <= beta < sh.a.p
    requires |BaseOf(sh, notes, beta)| == sh.Width()
    requires forall i: nat | sh.k <= i < sh.Slots() :: 0 <= notes[i].value < Pow2(sh.a.rangeBits)
    ensures RangeRowsHold(sh, Lifted(sh, BaseOf(sh, notes, beta)))
  {
    var base := BaseOf(sh, notes, beta);
    forall i: nat | i < sh.m ensures 0 <= ValueInBase(sh, base, i) < Pow2(sh.a.rangeBits) {
      OutputInRange(sh, notes, beta, i);
    }
    hide *;
    LiftSatisfies(sh, base);
  }

  lemma OutputInRange(sh: Shape, notes: seq<Note>, beta: int, i: nat)
    requires sh.Valid() && (forall n <- notes :: Fits(sh.a, n)) && |notes| == sh.Slots() && 0 <= beta < sh.a.p
             && i < sh.m
    requires |BaseOf(sh, notes, beta)| == sh.Width() && 0 <= notes[sh.k + i].value < Pow2(sh.a.rangeBits)
    ensures 0 <= ValueInBase(sh, BaseOf(sh, notes, beta), i) < Pow2(sh.a.rangeBits)
  {
    hide Pow2, BitsOfFirst, Flat;
    SlotIsNote(sh, notes, beta, sh.k + i);
    RemainderBelow(notes[sh.k + i].value, sh.a.p);
    SlotFits(sh, sh.k + i);
  }

  lemma NotesOneAsset(sh: Shape, notes: seq<Note>, beta: int)
    requires sh.Valid() && (forall n <- notes :: Fits(sh.a, n)) && |notes| == sh.Slots() && 0 <= beta < sh.a.p
    requires |BaseOf(sh, notes, beta)| == sh.Width() && forall n <- notes :: n.asset == notes[0].asset
    ensures OneAsset(sh, Lifted(sh, BaseOf(sh, notes, beta)))
  {
    var xs := Lifted(sh, BaseOf(sh, notes, beta));
    forall s: nat | s < sh.Slots() ensures AssetIn(sh, xs, s) == AssetIn(sh, xs, 0) {
      SlotIsNote(sh, notes, beta, s);
      SlotIsNote(sh, notes, beta, 0);
      assert notes[s] in notes;
    }
  }

  lemma NotesSum(sh: Shape, notes: seq<Note>, beta: int, sum: int)
    requires sh.Valid() && (forall n <- notes :: Fits(sh.a, n)) && |notes| == sh.Slots() && 0 <= beta < sh.a.p
    requires |BaseOf(sh, notes, beta)| == sh.Width() && Total(notes[0..sh.k]) - Total(notes[sh.k..sh.Slots()]) == sum
    ensures RowFits(sh, Linear(Nonzero(SumTerms(sh))))
    ensures RowAt(sh, Linear(Nonzero(SumTerms(sh))), Lifted(sh, BaseOf(sh, notes, beta))) == sum % sh.a.p
  {
    var xs := Lifted(sh, BaseOf(sh, notes, beta));
    forall s: nat | s < sh.Slots() ensures ValueIn(sh, xs, s) == notes[s].value % sh.a.p {
      SlotIsNote(sh, notes, beta, s);
    }
    SumRowMeans(sh, xs);
    var q := SumIsTotal(sh, notes, xs, 0, sh.k);
    var r := SumIsTotal(sh, notes, xs, sh.k, sh.Slots());
    hide *;
    InputSumIs(sh, xs);
    Difference(InputSum(sh, xs), OutputSum(sh, xs), q, r, sum, sh.a.p);
  }

  lemma InputSumIs(sh: Shape, xs: seq<int>)
    requires sh.Valid() && |xs| == sh.FullWidth()
    ensures sh.k <= sh.Slots() && InputSum(sh, xs) == SumOf(sh, xs, 0, sh.k)
            && OutputSum(sh, xs) == SumOf(sh, xs, sh.k, sh.Slots())
  {
  }

  lemma BindIsBeta(sh: Shape, notes: seq<Note>, beta: int)
    requires sh.Valid() && (forall n <- notes :: Fits(sh.a, n)) && |notes| == sh.Slots() && 0 <= beta < sh.a.p
    requires |BaseOf(sh, notes, beta)| == sh.Width()
    ensures sh.BindPos() < sh.FullWidth() && Lifted(sh, BaseOf(sh, notes, beta))[sh.BindPos()] == beta
  {
    FlatSize(sh.a, notes);
  }

  lemma RemainderBelow(v: int, p: nat)
    requires v >= 0 && p > 0
    ensures 0 <= v % p <= v
  {
    assert v == (v / p) * p + v % p;
    assert (v / p) * p >= 0;
  }

  lemma Difference(i: int, o: int, q: int, r: int, sum: int, p: nat)
    requires p > 0 && (i + q * p) - (o + r * p) == sum
    ensures (i - o) % p == sum % p
  {
    assert (q - r) * p == q * p - r * p;
    SameResidue(sum, i - o, q - r, p);
  }

  // ---- building ----

  datatype Spend = Spend(note: Note, pub: string)

  /** A scheme whose owner images are field elements and whose signatures verify. */
  ghost predicate Signs(sc: Scheme, sign: (string, int) -> string) {
    && sc.Valid()
    && (forall pub {:trigger sc.ownerField(pub)} :: 0 <= sc.ownerField(pub) < sc.a.p)
    && (forall pub, beta {:trigger sign(pub, beta)} :: sc.verifySig(pub, beta, sign(pub, beta)))
  }

  function InputNotes(spends: seq<Spend>): (r: seq<Note>)
    ensures |r| == |spends|
  {
    seq(|spends|, i requires 0 <= i < |spends| => spends[i].note)
  }

  function Pubs(spends: seq<Spend>): (r: seq<string>)
    ensures |r| == |spends|
  {
    seq(|spends|, i requires 0 <= i < |spends| => spends[i].pub)
  }

  /** What the builder insists on. */
  ghost predicate Buildable(sc: Scheme, spends: seq<Spend>, outputs: seq<Note>, fee: int, sealedNotes: seq<string>,
                            tags: seq<string>)
    requires sc.Valid()
  {
    Sendable(sc, spends, outputs, fee, sealedNotes, tags) && Total(InputNotes(spends)) - Total(outputs) == fee
  }

  /** All of it but the balance. */
  ghost predicate Sendable(sc: Scheme, spends: seq<Spend>, outputs: seq<Note>, fee: int, sealedNotes: seq<string>,
                           tags: seq<string>)
    requires sc.Valid()
  {
    && spends != [] && outputs != [] && fee >= 0
    && (forall n <- InputNotes(spends) + outputs :: n.asset == spends[0].note.asset)
    && (forall n <- outputs :: 0 <= n.value < Pow2(sc.a.rangeBits))
    && (forall s <- spends :: s.note.owner == sc.ownerField(s.pub))
    && NoRepeats(CmsOf(sc, InputNotes(spends)))
    && (sealedNotes != [] ==> |sealedNotes| == |outputs|) && (tags != [] ==> |tags| == |outputs|)
  }

  method SumOfValues(notes: seq<Note>) returns (total: int)
    ensures total == Total(notes)
  {
    total := 0;
    for i := 0 to |notes|
      invariant total == Total(notes[..i])
    {
      assert notes[..i + 1][..i] == notes[..i];
      total := total + notes[i].value;
    }
    assert notes[..|notes|] == notes;
  }

  method CanBuild(sc: Scheme, spends: seq<Spend>, outputs: seq<Note>, fee: int, sealedNotes: seq<string>,
                  tags: seq<string>) returns (ok: bool)
    requires sc.Valid()
    ensures ok <==> Buildable(sc, spends, outputs, fee, sealedNotes, tags)
  {
    if spends == [] || outputs == [] || fee < 0 {
      return false;
    }
    var totalIn := SumOfValues(InputNotes(spends));
    var totalOut := SumOfValues(outputs);
    if totalIn - totalOut != fee {
      return false;
    }
    if exists n <- InputNotes(spends) + outputs :: n.asset != spends[0].note.asset {
      return false;
    }
    if exists n <- outputs :: !(0 <= n.value < Pow2(sc.a.rangeBits)) {
      return false;
    }
    if exists s <- spends :: s.note.owner != sc.ownerField(s.pub) {
      return false;
    }
    var twice := Repeats(CmsOf(sc, InputNotes(spends)));
    if twice {
      return false;
    }
    return !((sealedNotes != [] && |sealedNotes| != |outputs|) || (tags != [] && |tags| != |outputs|));
  }

  /** Lift the notes and evaluate every row. */
  method Prepare(sc: Scheme, sh: Shape, notes: seq<Note>, beta: int)
    returns (ts: TxSystem, v: seq<int>, ghost xs: seq<int>)
    requires sc.Valid() && sh.Valid() && sh.a == sc.a && (forall n <- notes :: Fits(sh.a, n)) && |notes| == sh.Slots()
             && 0 <= beta < sh.a.p
    ensures |BaseOf(sh, notes, beta)| == sh.Width() && xs == Lifted(sh, BaseOf(sh, notes, beta)) && ts.Valid()
            && ts.shape == sh
    ensures Witnesses(sh, v, beta, xs) && Reduced(sh.a.p, v) == v && |v| == BindAt(sh) + 1
  {
    BaseFits(sh, notes, beta);
    var base := BaseOf(sh, notes, beta);
    ts := new TxSystem(sh);
    var x := ts.Lift(base);
    xs := x.value;
    LiftedInField(sh, base);
    BindIsBeta(sh, notes, beta);
    var out := ts.F(x.value);
    v := out.value;
    ValuesInField(sh, v, xs);
    FieldIsReduced(sh.a.p, v);
    LengthIs(sh, v, xs);
    RowPlaces(sh);
  }

  lemma ValuesInField(sh: Shape, v: seq<int>, xs: seq<int>)
    requires sh.Valid() && |xs| == sh.FullWidth() && Evaluates(sh, v, xs)
    ensures InField(sh.a.p, v)
  {
    LengthIs(sh, v, xs);
    hide AllRows;
    forall i | 0 <= i < |v| ensures 0 <= v[i] < sh.a.p {
      EvaluatesAt(sh, v, xs, i);
    }
  }

  /** The prepared vector passes every check in the clear. */
  lemma PreparedIsClear(sc: Scheme, sh: Shape, notes: seq<Note>, beta: int, v: seq<int>, declared: seq<string>,
                        sum: int)
    requires sc.Valid() && sh.Valid() && sh.a == sc.a && (forall n <- notes :: Fits(sh.a, n)) && |notes| == sh.Slots()
             && 0 <= beta < sh.a.p
    requires |BaseOf(sh, notes, beta)| == sh.Width() && Evaluates(sh, v, Lifted(sh, BaseOf(sh, notes, beta)))
    requires Total(notes[0..sh.k]) - Total(notes[sh.k..sh.Slots()]) == sum && declared == CmsOf(sc, notes)
    requires forall n <- notes :: n.asset == notes[0].asset
    requires forall i: nat | sh.k <= i < sh.Slots() :: 0 <= notes[i].value < Pow2(sh.a.rangeBits)
    ensures ClearRows(sc, sh, v, declared, sum % sh.a.p, beta)
  {
    var xs := Lifted(sh, BaseOf(sh, notes, beta));
    NotesInRange(sh, notes, beta);
    NotesOneAsset(sh, notes, beta);
    NotesSum(sh, notes, beta, sum);
    BindIsBeta(sh, notes, beta);
    forall s: nat | s < sh.Slots() ensures sc.noteId(VectorOf(sc.a, SlotOf(sh, xs, s))) == declared[s] {
      SlotIsNote(sh, notes, beta, s);
    }
    GoodIsClear(sc, sh, v, xs, declared, sum % sh.a.p, beta);
  }

  /** The nullifier and owner rows of input j. */
  lemma InputRows(sh: Shape, notes: seq<Note>, beta: int, v: seq<int>, j: nat)
    requires sh.Valid() && (forall n <- notes :: Fits(sh.a, n)) && |notes| == sh.Slots() && 0 <= beta < sh.a.p
             && j < sh.k
    requires |BaseOf(sh, notes, beta)| == sh.Width() && Evaluates(sh, v, Lifted(sh, BaseOf(sh, notes, beta)))
    ensures OwnerAt(sh) + j < |v| && v[OwnerAt(sh) + j] == notes[j].owner % sh.a.p
  {
    hide AllRows, NoteAt, BitsOfFirst, Flat, Evaluates, BaseOf, Lifted, Shape.Width;
    var xs := Lifted(sh, BaseOf(sh, notes, beta));
    SlotIsNote(sh, notes, beta, j);
    RowPlaces(sh);
    LengthIs(sh, v, xs);
    var rows := AllRows(sh);
    assert rows[OwnerAt(sh)..BindAt(sh)][j] == rows[OwnerAt(sh) + j];
    EvaluatesAt(sh, v, xs, OwnerAt(sh) + j);
    var terms := [Term(sh.SlotOff(j) + NOTE_OWNER, 1)];
    assert terms[..0] == [];
    assert LinearAt(terms, xs) == xs[sh.SlotOff(j) + NOTE_OWNER];
    RemainderTwice(notes[j].owner, sh.a.p);
  }

  lemma RemainderTwice(v: int, p: nat)
    requires p > 0
    ensures v % p % p == v % p
  {
    ModIs(v % p, p, 0, v % p);
  }

  /** Build and prove. What is built passes its own checks exactly when its output commitments and its
      nullifiers do not repeat, which the builder does not look at; and a proof of it exists. */
  method BuildTransaction(sc: Scheme, chainId: string, spends: seq<Spend>, outputs: seq<Note>, fee: int,
                          sealedNotes: seq<string>, tags: seq<string>, sign: (string, int) -> string)
    returns (r: Option<Transaction>)
    requires Signs(sc, sign) && forall n <- InputNotes(spends) + outputs :: Fits(sc.a, n)
    ensures r.Some? <==> Buildable(sc, spends, outputs, fee, sealedNotes, tags)
    ensures r.Some? ==>
              var tx := r.value;
              && tx.fee == fee && tx.InputCms() == CmsOf(sc, InputNotes(spends)) && tx.outputs == CmsOf(sc, outputs)
              && (Authentic(sc, chainId, tx) <==> NoRepeats(tx.outputs) && NoRepeats(tx.Nullifiers()))
              && ShapeOf(sc, tx).Valid() && HasWitness(ShapeOf(sc, tx), Reduced(sc.a.p, tx.v), sc.Beta(tx.TheBody()))
  {
    var ok := CanBuild(sc, spends, outputs, fee, sealedNotes, tags);
    if !ok {
      return None;
    }
    var tx := Assembled(sc, chainId, spends, outputs, fee, sealedNotes, tags, sign);
    return Some(tx);
  }

  method Assembled(sc: Scheme, chainId: string, spends: seq<Spend>, outputs: seq<Note>, fee: int,
                   sealedNotes: seq<string>, tags: seq<string>, sign: (string, int) -> string)
    returns (tx: Transaction)
    requires Signs(sc, sign) && (forall n <- InputNotes(spends) + outputs :: Fits(sc.a, n))
    requires Buildable(sc, spends, outputs, fee, sealedNotes, tags)
    ensures tx.fee == fee && tx.InputCms() == CmsOf(sc, InputNotes(spends)) && tx.outputs == CmsOf(sc, outputs)
    ensures Authentic(sc, chainId, tx) <==> NoRepeats(tx.outputs) && NoRepeats(tx.Nullifiers())
    ensures ShapeOf(sc, tx).Valid() && HasWitness(ShapeOf(sc, tx), Reduced(sc.a.p, tx.v), sc.Beta(tx.TheBody()))
  {
    hide NoRepeats, Flat, BitsOfFirst, Evaluates, Total, AllRows, NoteAt, ClearRows, InputAuthorised, NotesMatch;
    var notes := InputNotes(spends) + outputs;
    var beta := sc.Beta(BodyOf(sc, chainId, spends, outputs, fee, sealedNotes, tags));
    var sh := Shape(sc.a, |spends|, |outputs|);
    BetaInField(sc, BodyOf(sc, chainId, spends, outputs, fee, sealedNotes, tags));
    var ts, v;
    ghost var xs;
    ts, v, xs := Prepare(sc, sh, notes, beta);
    tx := Made(sc, chainId, spends, outputs, fee, sealedNotes, tags, sign, v);
    MadeIsAuthentic(sc, chainId, spends, outputs, fee, sealedNotes, tags, sign, v, xs);
  }

  function BodyOf(sc: Scheme, chainId: string, spends: seq<Spend>, outputs: seq<Note>, fee: int,
                  sealedNotes: seq<string>, tags: seq<string>): Body
    requires sc.Valid()
  {
    Body(chainId, TX_VERSION, fee, CmsOf(sc, InputNotes(spends)), CmsOf(sc, outputs), Pubs(spends), sealedNotes, tags)
  }

  /** The transaction around an output vector. */
  function Made(sc: Scheme, chainId: string, spends: seq<Spend>, outputs: seq<Note>, fee: int,
                sealedNotes: seq<string>, tags: seq<string>, sign: (string, int) -> string, v: seq<int>): Transaction
    requires sc.Valid() && outputs != [] && |v| == BindAt(Shape(sc.a, |spends|, |outputs|)) + 1
  {
    var sh, beta, cms := Shape(sc.a, |spends|, |outputs|),
      sc.Beta(BodyOf(sc, chainId, spends, outputs, fee, sealedNotes, tags)), CmsOf(sc, InputNotes(spends));
    var inputs := seq(|spends|, j requires 0 <= j < |spends| && NullifierAt(sh) + j < |v| =>
      TxInput(cms[j], sc.nullifierId(cms[j], v[NullifierAt(sh) + j]), spends[j].pub, sign(spends[j].pub, beta)));
    Transaction(TX_VERSION, chainId, fee, inputs, CmsOf(sc, outputs), v, beta, sealedNotes, tags)
  }

  /** Any transaction that carries these notes and rows, signed, is authentic as soon as its fee is the balance modulo
      p. */
  lemma HonestIsAuthentic(sc: Scheme, chainId: string, sh: Shape, spends: seq<Spend>, outputs: seq<Note>, fee: int,
                          sealedNotes: seq<string>, tags: seq<string>, sign: (string, int) -> string, v: seq<int>,
                          tx: Transaction)
    requires Signs(sc, sign) && (forall n <- InputNotes(spends) + outputs :: Fits(sc.a, n))
    requires Sendable(sc, spends, outputs, fee, sealedNotes, tags)
             && (Total(InputNotes(spends)) - Total(outputs)) % sc.a.p == fee % sc.a.p
    requires sh == Shape(sc.a, |spends|, |outputs|) && sh.Valid() && |v| == BindAt(sh) + 1
             && NullifierAt(sh) + |spends| <= |v|
    requires tx.fee == fee && tx.InputCms() == CmsOf(sc, InputNotes(spends)) && tx.outputs == CmsOf(sc, outputs)
             && |tx.inputs| == |spends|
    requires v == Reduced(sc.a.p, tx.v) && tx.version == TX_VERSION && tx.chainId == chainId
             && tx.sealedNotes == sealedNotes && tx.tags == tags
    requires var beta := sc.Beta(tx.TheBody());
             && tx.binding == beta && |BaseOf(sh, InputNotes(spends) + outputs, beta)| == sh.Width()
             && Evaluates(sh, v, Lifted(sh, BaseOf(sh, InputNotes(spends) + outputs, beta)))
             && forall j: nat {:trigger tx.inputs[j]} | j < |spends| ::
                  tx.inputs[j] == TxInput(tx.inputs[j].cm, sc.nullifierId(tx.inputs[j].cm, v[NullifierAt(sh) + j]),
                                          spends[j].pub, sign(spends[j].pub, beta))
    ensures Authentic(sc, chainId, tx) <==> NoRepeats(tx.outputs) && NoRepeats(tx.Nullifiers())
  {
    hide NoRepeats, Evaluates, Total, AllRows, NullifierAt, BindAt, ClearRows, InputAuthorised, Lifted, BaseOf;
    hide Authentic, CmOf, Fits, Shape.Width;
    assert outputs == [] || |CmsOf(sc, outputs)| == |outputs|;
    BetaInField(sc, tx.TheBody());
    AllAuthorised(sc, sh, spends, outputs, v, tx, sign);
    BuiltIsClear(sc, sh, spends, outputs, fee, tx.binding, v, sealedNotes, tags);
    AuthenticIff(sc, chainId, tx, v);
  }

  /** Around the rows of honest notes a transaction is authentic as soon as its fee is the balance modulo p. */
  lemma MadeIsAuthentic(sc: Scheme, chainId: string, spends: seq<Spend>, outputs: seq<Note>, fee: int,
                        sealedNotes: seq<string>, tags: seq<string>, sign: (string, int) -> string, v: seq<int>,
                        xs: seq<int>)
    requires Signs(sc, sign) && (forall n <- InputNotes(spends) + outputs :: Fits(sc.a, n))
    requires Sendable(sc, spends, outputs, fee, sealedNotes, tags)
             && (Total(InputNotes(spends)) - Total(outputs)) % sc.a.p == fee % sc.a.p
    requires var sh, notes, beta := Shape(sc.a, |spends|, |outputs|), InputNotes(spends) + outputs,
             sc.Beta(BodyOf(sc, chainId, spends, outputs, fee, sealedNotes, tags));
             && |BaseOf(sh, notes, beta)| == sh.Width() && xs == Lifted(sh, BaseOf(sh, notes, beta))
             && Witnesses(sh, v, beta, xs) && Reduced(sc.a.p, v) == v && |v| == BindAt(sh) + 1
    ensures var tx := Made(sc, chainId, spends, outputs, fee, sealedNotes, tags, sign, v);
            && tx.fee == fee && tx.InputCms() == CmsOf(sc, InputNotes(spends)) && tx.outputs == CmsOf(sc, outputs)
            && (Authentic(sc, chainId, tx) <==> NoRepeats(tx.outputs) && NoRepeats(tx.Nullifiers()))
            && ShapeOf(sc, tx).Valid() && HasWitness(ShapeOf(sc, tx), Reduced(sc.a.p, tx.v), sc.Beta(tx.TheBody()))
  {
    hide NoRepeats, Evaluates, Total, AllRows, NullifierAt, BindAt, Made, Lifted, BaseOf, BodyOf, Authentic, CmsOf;
    hide Fits, Signs, Sendable, Shape.Width;
    var sh, beta := Shape(sc.a, |spends|, |outputs|),
      sc.Beta(BodyOf(sc, chainId, spends, outputs, fee, sealedNotes, tags));
    var tx := Made(sc, chainId, spends, outputs, fee, sealedNotes, tags, sign, v);
    MadeIs(sc, chainId, spends, outputs, fee, sealedNotes, tags, sign, v);
    assert Witnesses(sh, v, beta, xs);
    HonestIsAuthentic(sc, chainId, sh, spends, outputs, fee, sealedNotes, tags, sign, v, tx);
  }

  lemma AllAuthorised(sc: Scheme, sh: Shape, spends: seq<Spend>, outputs: seq<Note>, v: seq<int>, tx: Transaction,
                      sign: (string, int) -> string)
    requires Signs(sc, sign) && sh == Shape(sc.a, |spends|, |outputs|) && sh.Valid() && |spends| == |tx.inputs|
             && |v| == BindAt(sh) + 1
    requires (forall n <- InputNotes(spends) + outputs :: Fits(sc.a, n))
             && (forall s <- spends :: s.note.owner == sc.ownerField(s.pub))
    requires NullifierAt(sh) + |spends| <= |v|
    requires var beta := sc.Beta(tx.TheBody());
             && |BaseOf(sh, InputNotes(spends) + outputs, beta)| == sh.Width()
             && Evaluates(sh, v, Lifted(sh, BaseOf(sh, InputNotes(spends) + outputs, beta)))
             && forall j: nat {:trigger tx.inputs[j]} | j < |spends| ::
                  tx.inputs[j] == TxInput(tx.inputs[j].cm, sc.nullifierId(tx.inputs[j].cm, v[NullifierAt(sh) + j]),
                                          spends[j].pub, sign(spends[j].pub, beta))
    ensures forall j: nat | j < |tx.inputs| :: InputAuthorised(sc, sh, tx, v, j)
  {
    hide Evaluates, Lifted, BaseOf, InputAuthorised, AllRows, NullifierAt, Fits;
    forall j: nat | j < |tx.inputs| ensures InputAuthorised(sc, sh, tx, v, j) {
      InputIsAuthorised(sc, sh, spends, outputs, v, tx, sign, j);
    }
  }

  lemma MadeIs(sc: Scheme, chainId: string, spends: seq<Spend>, outputs: seq<Note>, fee: int, sealedNotes: seq<string>,
               tags: seq<string>, sign: (string, int) -> string, v: seq<int>)
    requires sc.Valid() && outputs != [] && |v| == BindAt(Shape(sc.a, |spends|, |outputs|)) + 1
    ensures var tx, sh := Made(sc, chainId, spends, outputs, fee, sealedNotes, tags, sign, v),
            Shape(sc.a, |spends|, |outputs|);
            var body := BodyOf(sc, chainId, spends, outputs, fee, sealedNotes, tags);
            && tx.fee == fee && tx.InputCms() == CmsOf(sc, InputNotes(spends)) && tx.outputs == CmsOf(sc, outputs)
            && |tx.inputs| == |spends|
            && tx.TheBody() == body && tx.v == v && tx.binding == sc.Beta(body) && tx.version == TX_VERSION
            && tx.chainId == chainId
            && tx.sealedNotes == sealedNotes && tx.tags == tags && ShapeOf(sc, tx) == sh
            && NullifierAt(sh) + |spends| <= |v|
            && forall j: nat {:trigger tx.inputs[j]} | j < |spends| ::
                 tx.inputs[j] == TxInput(tx.inputs[j].cm, sc.nullifierId(tx.inputs[j].cm, v[NullifierAt(sh) + j]),
                                         spends[j].pub, sign(spends[j].pub, sc.Beta(body)))
  {
    hide CmOf, AllRows;
    var tx := Made(sc, chainId, spends, outputs, fee, sealedNotes, tags, sign, v);
    assert tx.InputCms() == CmsOf(sc, InputNotes(spends)) && tx.OwnerPubs() == Pubs(spends);
  }

  /** A transaction whose rows and inputs are right is authentic exactly when nothing in it repeats. */
  lemma AuthenticIff(sc: Scheme, chainId: string, tx: Transaction, v: seq<int>)
    requires sc.Valid() && tx.version == TX_VERSION && tx.chainId == chainId && tx.fee >= 0 && tx.inputs != []
             && tx.outputs != []
    requires (tx.sealedNotes != [] ==> |tx.sealedNotes| == |tx.outputs|)
             && (tx.tags != [] ==> |tx.tags| == |tx.outputs|)
    requires NoRepeats(tx.InputCms()) && v == Reduced(sc.a.p, tx.v) && tx.binding == sc.Beta(tx.TheBody())
    requires ClearRows(sc, ShapeOf(sc, tx), v, tx.InputCms() + tx.outputs, tx.fee % sc.a.p, sc.Beta(tx.TheBody()))
    requires forall j: nat | j < |tx.inputs| :: InputAuthorised(sc, ShapeOf(sc, tx), tx, v, j)
    ensures Authentic(sc, chainId, tx) <==> NoRepeats(tx.outputs) && NoRepeats(tx.Nullifiers())
  {
    hide NoRepeats, InputAuthorised, ClearRows;
    BetaInField(sc, tx.TheBody());
  }

  lemma InputIsAuthorised(sc: Scheme, sh: Shape, spends: seq<Spend>, outputs: seq<Note>, v: seq<int>, tx: Transaction,
                          sign: (string, int) -> string, j: nat)
    requires Signs(sc, sign) && sh == Shape(sc.a, |spends|, |outputs|) && sh.Valid() && j < sh.k == |tx.inputs|
             && |v| == BindAt(sh) + 1
    requires (forall n <- InputNotes(spends) + outputs :: Fits(sc.a, n))
             && (forall s <- spends :: s.note.owner == sc.ownerField(s.pub))
    requires var beta := sc.Beta(tx.TheBody());
             && |BaseOf(sh, InputNotes(spends) + outputs, beta)| == sh.Width()
             && Evaluates(sh, v, Lifted(sh, BaseOf(sh, InputNotes(spends) + outputs, beta)))
             && tx.inputs[j] == TxInput(tx.inputs[j].cm, sc.nullifierId(tx.inputs[j].cm, v[NullifierAt(sh) + j]),
                                        spends[j].pub, sign(spends[j].pub, beta))
    ensures InputAuthorised(sc, sh, tx, v, j)
  {
    BetaInField(sc, tx.TheBody());
    InputRows(sh, InputNotes(spends) + outputs, sc.Beta(tx.TheBody()), v, j);
    assert spends[j] in spends;
    ModIs(sc.ownerField(spends[j].pub), sc.a.p, 0, sc.ownerField(spends[j].pub));
  }

  lemma BetaInField(sc: Scheme, body: Body)
    requires sc.Valid()
    ensures 0 <= sc.Beta(body) < sc.a.p && sc.Beta(body) % sc.a.p == sc.Beta(body)
  {
    RemainderTwice(sc.bind(body), sc.a.p);
  }

  lemma BuiltIsClear(sc: Scheme, sh: Shape, spends: seq<Spend>, outputs: seq<Note>, fee: int, beta: int, v: seq<int>,
                     sealedNotes: seq<string>, tags: seq<string>)
    requires sc.Valid() && sh == Shape(sc.a, |spends|, |outputs|) && sh.Valid() && 0 <= beta < sc.a.p
    requires (forall n <- InputNotes(spends) + outputs :: Fits(sc.a, n))
             && Sendable(sc, spends, outputs, fee, sealedNotes, tags)
    requires (Total(InputNotes(spends)) - Total(outputs)) % sc.a.p == fee % sc.a.p
    requires |BaseOf(sh, InputNotes(spends) + outputs, beta)| == sh.Width()
    requires Evaluates(sh, v, Lifted(sh, BaseOf(sh, InputNotes(spends) + outputs, beta)))
    ensures ClearRows(sc, sh, v, CmsOf(sc, InputNotes(spends)) + CmsOf(sc, outputs), fee % sc.a.p, beta)
  {
    hide NoRepeats, Flat, BitsOfFirst, Evaluates, Total, Lifted, BaseOf, ClearRows, AllRows, CmOf, Shape.Width;
    hide Shape.FullWidth, RowFits, Fits, SlotOf, BindAt;
    var ins := InputNotes(spends);
    var notes := ins + outputs;
    assert notes[0..sh.k] == ins && notes[sh.k..sh.Slots()] == outputs;
    assert CmsOf(sc, notes) == CmsOf(sc, ins) + CmsOf(sc, outputs);
    forall i: nat | sh.k <= i < sh.Slots() ensures 0 <= notes[i].value < Pow2(sh.a.rangeBits) {
      assert notes[i] == outputs[i - sh.k] && outputs[i - sh.k] in outputs;
    }
    PreparedIsClear(sc, sh, notes, beta, v, CmsOf(sc, notes), Total(ins) - Total(outputs));
  }

  // ---- any fee congruent to the balance ----

  /** What every row evaluates to. */
  ghost function Valued(sh: Shape, xs: seq<int>): (v: seq<int>)
    requires sh.Valid() && |xs| == sh.FullWidth()
    ensures Evaluates(sh, v, xs)
  {
    RowsFit(sh);
    seq(|AllRows(sh)|, i requires 0 <= i < |AllRows(sh)|
        && RowFits(sh, AllRows(sh)[i]) => RowAt(sh, AllRows(sh)[i], xs))
  }

  /** The lift of honest notes and the rows' values there. */
  lemma Rowed(sc: Scheme, sh: Shape, notes: seq<Note>, beta: int) returns (v: seq<int>, xs: seq<int>)
    requires sc.Valid() && sh.Valid() && sh.a == sc.a && (forall n <- notes :: Fits(sh.a, n)) && |notes| == sh.Slots()
             && 0 <= beta < sh.a.p
    ensures |BaseOf(sh, notes, beta)| == sh.Width() && xs == Lifted(sh, BaseOf(sh, notes, beta))
    ensures Witnesses(sh, v, beta, xs) && Reduced(sh.a.p, v) == v && |v| == BindAt(sh) + 1
  {
    BaseFits(sh, notes, beta);
    xs := Lifted(sh, BaseOf(sh, notes, beta));
    LiftedInField(sh, BaseOf(sh, notes, beta));
    BindIsBeta(sh, notes, beta);
    v := Valued(sh, xs);
    ValuesInField(sh, v, xs);
    FieldIsReduced(sh.a.p, v);
    LengthIs(sh, v, xs);
    RowPlaces(sh);
  }

  /** For every fee that is the balance modulo p there is a transaction that passes every check in the clear and has a
      witness. */
  lemma EveryCongruentFee(sc: Scheme, chainId: string, spends: seq<Spend>, outputs: seq<Note>, fee: int,
                          sealedNotes: seq<string>, tags: seq<string>, sign: (string, int) -> string)
    returns (tx: Transaction)
    requires Signs(sc, sign) && (forall n <- InputNotes(spends) + outputs :: Fits(sc.a, n))
    requires Sendable(sc, spends, outputs, fee, sealedNotes, tags)
             && (Total(InputNotes(spends)) - Total(outputs)) % sc.a.p == fee % sc.a.p
    ensures tx.fee == fee && tx.InputCms() == CmsOf(sc, InputNotes(spends)) && tx.outputs == CmsOf(sc, outputs)
    ensures Authentic(sc, chainId, tx) <==> NoRepeats(tx.outputs) && NoRepeats(tx.Nullifiers())
    ensures ShapeOf(sc, tx).Valid() && HasWitness(ShapeOf(sc, tx), Reduced(sc.a.p, tx.v), sc.Beta(tx.TheBody()))
  {
    hide NoRepeats, Flat, BitsOfFirst, Evaluates, Total, AllRows, NoteAt, ClearRows, InputAuthorised, NotesMatch;
    var beta := sc.Beta(BodyOf(sc, chainId, spends, outputs, fee, sealedNotes, tags));
    BetaInField(sc, BodyOf(sc, chainId, spends, outputs, fee, sealedNotes, tags));
    var v, xs := Rowed(sc, Shape(sc.a, |spends|, |outputs|), InputNotes(spends) + outputs, beta);
    tx := Made(sc, chainId, spends, outputs, fee, sealedNotes, tags, sign, v);
    MadeIsAuthentic(sc, chainId, spends, outputs, fee, sealedNotes, tags, sign, v, xs);
  }

  // ---- the mint ----

  ghost predicate Mintable(sc: Scheme, notes: seq<Note>, sealedNotes: seq<string>, tags: seq<string>)
    requires sc.Valid()
  {
    && notes != [] && (forall n <- notes :: n.asset == notes[0].asset)
    && (forall n <- notes :: 0 <= n.value < Pow2(sc.a.rangeBits)) && NoRepeats(CmsOf(sc, notes))
    && (sealedNotes != [] ==> |sealedNotes| == |notes|) && (tags != [] ==> |tags| == |notes|)
  }

  /** What is minted passes its own checks, and a proof of it exists. */
  method BuildMint(sc: Scheme, bind: MintBinder, notes: seq<Note>, context: string, sealedNotes: seq<string>,
                   tags: seq<string>)
    returns (r: Option<GenesisMint>)
    requires sc.Valid() && forall n <- notes :: Fits(sc.a, n)
    ensures r.Some? <==> Mintable(sc, notes, sealedNotes, tags)
    ensures r.Some? ==>
              var mint, sh := r.value, Shape(sc.a, 0, |notes|);
              && mint.total == Total(notes) && mint.outputs == CmsOf(sc, notes)
              && sh.Valid() && HasWitness(sh, Reduced(sc.a.p, mint.v), MintBeta(sc, bind, mint, context))
              && forall prove: Prover ::
                   MintVerified(sc, bind, context, mint, prove)
                   <==> prove(sh, Reduced(sc.a.p, mint.v), MintBeta(sc, bind, mint, context))
  {
    hide NoRepeats, Flat, BitsOfFirst, Evaluates, AllRows, NoteAt, ClearRows, Total, OwnerAt;
    if notes == [] {
      return None;
    }
    if exists n <- notes :: n.asset != notes[0].asset {
      return None;
    }
    if exists n <- notes :: !(0 <= n.value < Pow2(sc.a.rangeBits)) {
      return None;
    }
    var total := SumOfValues(notes);
    var outCms := CmsOf(sc, notes);
    var twice := Repeats(outCms);
    if twice || (sealedNotes != [] && |sealedNotes| != |notes|) || (tags != [] && |tags| != |notes|) {
      return None;
    }
    var blank := GenesisMint(MINT_VERSION, context, total, outCms, [], 0, sealedNotes, tags);
    var beta := MintBeta(sc, bind, blank, context);
    var sh := Shape(sc.a, 0, |notes|);
    MintBetaInField(sc, bind, blank, context);
    var ts, v;
    ghost var xs;
    ts, v, xs := Prepare(sc, sh, notes, beta);
    var mint := blank.(v := v, binding := beta);
    assert HasWitness(sh, v, beta);
    MintIsClear(sc, sh, notes, beta, v, total);
    TotalIsNatural(notes);
    return Some(mint);
  }

  /** For every total that is the minted value modulo p there is a mint that has a witness and passes every other
      check. */
  lemma EveryCongruentTotal(sc: Scheme, bind: MintBinder, notes: seq<Note>, total: int, context: string, prove: Prover)
    returns (mint: GenesisMint)
    requires sc.Valid() && (forall n <- notes :: Fits(sc.a, n)) && Mintable(sc, notes, [], [])
    requires total >= 0 && total % sc.a.p == Total(notes) % sc.a.p
    ensures mint.total == total && mint.outputs == CmsOf(sc, notes)
    ensures var sh := Shape(sc.a, 0, |notes|);
            && sh.Valid() && HasWitness(sh, Reduced(sc.a.p, mint.v), MintBeta(sc, bind, mint, context))
            && (prove(sh, Reduced(sc.a.p, mint.v), MintBeta(sc, bind, mint, context)) ==>
                MintVerified(sc, bind, context, mint, prove))
  {
    hide NoRepeats, Flat, BitsOfFirst, Evaluates, AllRows, NoteAt, ClearRows;
    var blank := GenesisMint(MINT_VERSION, context, total, CmsOf(sc, notes), [], 0, [], []);
    var beta := MintBeta(sc, bind, blank, context);
    var sh := Shape(sc.a, 0, |notes|);
    MintBetaInField(sc, bind, blank, context);
    var v, xs := Rowed(sc, sh, notes, beta);
    mint := blank.(v := v, binding := beta);
    assert HasWitness(sh, v, beta);
    MintIsClear(sc, sh, notes, beta, v, total);
  }

  lemma MintBetaInField(sc: Scheme, bind: MintBinder, mint: GenesisMint, context: string)
    requires sc.Valid()
    ensures 0 <= MintBeta(sc, bind, mint, context) < sc.a.p
    ensures MintBeta(sc, bind, mint, context) % sc.a.p == MintBeta(sc, bind, mint, context)
  {
    RemainderTwice(bind(context, MINT_VERSION, mint.total, mint.outputs, mint.sealedNotes, mint.tags), sc.a.p);
  }

  lemma {:induction false} TotalIsNatural(notes: seq<Note>)
    requires forall n <- notes :: n.value >= 0
    ensures Total(notes) >= 0
  {
    if notes != [] {
      TotalIsNatural(notes[..|notes| - 1]);
    }
  }

  lemma MintIsClear(sc: Scheme, sh: Shape, notes: seq<Note>, beta: int, v: seq<int>, total: int)
    requires sc.Valid() && sh == Shape(sc.a, 0, |notes|) && sh.Valid() && 0 <= beta < sc.a.p
             && total % sc.a.p == Total(notes) % sc.a.p
    requires (forall n <- notes :: Fits(sc.a, n)) && (forall n <- notes :: n.asset == notes[0].asset)
    requires forall n <- notes :: 0 <= n.value < Pow2(sc.a.rangeBits)
    requires |BaseOf(sh, notes, beta)| == sh.Width() && Evaluates(sh, v, Lifted(sh, BaseOf(sh, notes, beta)))
    ensures ClearRows(sc, sh, v, CmsOf(sc, notes), (sc.a.p - total % sc.a.p) % sc.a.p, beta)
  {
    hide NoRepeats, Flat, BitsOfFirst, Evaluates, CmsOf;
    assert notes[0..0] == [] && notes[0..|notes|] == notes;
    PreparedIsClear(sc, sh, notes, beta, v, CmsOf(sc, notes), -Total(notes));
    Negated(Total(notes), sc.a.p);
  }

  lemma Negated(total: int, p: nat)
    requires p > 0
    ensures (-total) % p == (p - total % p) % p
  {
    assert total == (total / p) * p + total % p;
    assert p - total % p == -total + (total / p + 1) * p by {
      assert (total / p + 1) * p == (total / p) * p + p;
    }
    SameResidue(p - total % p, -total, total / p + 1, p);
  }
}
