/**
 What a verified transaction and a verified mint say about money (chain/transaction.py, chain/mint.py): the
 hidden values behind the commitments, and their sums over the integers.
 */
module Money {
  import opened Basics
  import opened TxSystem
  import opened RowTheorems
  import opened Transactions

  // ---- the proof system, as the existence of a witness ----

  ghost predicate Witnesses(sh: Shape, v: seq<int>, beta: int, xs: seq<int>) {
    && sh.Valid() && |xs| == sh.FullWidth() && InField(sh.a.p, xs) && Evaluates(sh, v, xs)
    && sh.BindPos() < |xs| && xs[sh.BindPos()] == beta
  }

  /** Whether a proof for this shape, output vector and binding scalar verifies. */
  type Prover = (Shape, seq<int>, int) -> bool

  ghost predicate HasWitness(sh: Shape, v: seq<int>, beta: int) {
    exists xs :: Witnesses(sh, v, beta, xs)
  }

  ghost predicate Sound(prove: Prover) {
    forall sh, v, beta {:trigger prove(sh, v, beta)} :: prove(sh, v, beta) ==> HasWitness(sh, v, beta)
  }

  // ---- from rows to openings ----

  lemma ZeroRowsHold(sh: Shape, v: seq<int>, xs: seq<int>)
    requires sh.Valid() && |xs| == sh.FullWidth() && Evaluates(sh, v, xs)
    requires ZeroRun(v, RangeAt(sh), BitAt(sh)) && ZeroRun(v, BitAt(sh), NullifierAt(sh))
    ensures RangeRowsHold(sh, xs)
  {
    hide BitAt, AssetFamily, NullifierAt, Nonzero, NoteFamilies, Shape.Width, AssetTerms, SlotOf, OwnerFamily, RowFits;
    hide NoteFamily, Algebra.Valid;
    RowPlaces(sh);
    var rows := AllRows(sh);
    hide AllRows;
    forall i: nat | i < sh.m ensures RecompHolds(sh, xs, i) {
      assert rows[RangeAt(sh)..BitAt(sh)][i] == rows[RangeAt(sh) + i];
      assert v[RangeAt(sh) + i] == 0;
    }
    forall j: nat | j < sh.BitCount() ensures BitHolds(sh, xs, j) {
      assert rows[BitAt(sh)..NullifierAt(sh)][j] == rows[BitAt(sh) + j];
      assert v[BitAt(sh) + j] == 0;
    }
  }

  lemma SlotInField(sh: Shape, xs: seq<int>, s: nat)
    requires sh.Valid() && |xs| == sh.FullWidth() && InField(sh.a.p, xs) && s < sh.Slots()
    ensures InField(sh.a.p, SlotOf(sh, xs, s)) && SlotOf(sh, xs, s)[NOTE_VALUE] == ValueIn(sh, xs, s)
  {
    SlotFits(sh, s);
  }

  lemma NoteRowsOpen(sc: Scheme, sh: Shape, v: seq<int>, xs: seq<int>, declared: seq<string>, s: nat)
    requires sc.Valid() && sh.Valid() && sh.a == sc.a && |xs| == sh.FullWidth() && Evaluates(sh, v, xs)
             && InField(sh.a.p, xs)
    requires s < sh.Slots() == |declared| && NoteMatches(sc, sh, v, declared, s)
    ensures Opens(sc, declared[s], SlotOf(sh, xs, s))
  {
    SlotInField(sh, xs, s);
    var vector, want := v[NoteAt(sh, s)..NoteEnd(sh, s)], VectorOf(sc.a, SlotOf(sh, xs, s));
    forall l | 0 <= l < sh.a.noteRows ensures vector[l] == want[l] {
      NoteRowIs(sh, s, l);
      assert vector[l] == v[NoteAt(sh, s) + l];
    }
    assert vector == want;
  }

  lemma NoteRowIs(sh: Shape, s: nat, l: nat)
    requires sh.Valid() && s < sh.Slots() && l < sh.a.noteRows
    ensures NoteAt(sh, s) + l < |AllRows(sh)| && AllRows(sh)[NoteAt(sh, s) + l] == NoteRow(s, l)
  {
    hide Nonzero, TxSystem.Valid, BitFamily, Scheme.Valid, RowAt, SlotOf, Shape.FullWidth, RowFits, LinearAt, Reduced;
    hide Algebra.Valid, NoteFamily, Shape.Slots, RangeFamily;
    NoteFamiliesAt(sh, sh.Slots(), s, l);
    RowPlaces(sh);
    assert NoteFamilies(sh, sh.Slots()) <= AllRows(sh);
  }

  lemma ValueIs(sc: Scheme, cm: string, coords: seq<int>)
    requires Binding(sc) && Opens(sc, cm, coords)
    ensures ValueOf(sc, cm) == coords[NOTE_VALUE]
  {
    var some :| Opens(sc, cm, some) && ValueOf(sc, cm) == some[NOTE_VALUE];
  }

  /** Every commitment a checked vector declares opens to the witness's slot. */
  lemma SlotValue(sc: Scheme, sh: Shape, v: seq<int>, xs: seq<int>, declared: seq<string>, s: nat)
    requires Binding(sc) && sh.Valid() && sh.a == sc.a && |xs| == sh.FullWidth() && Evaluates(sh, v, xs)
             && InField(sh.a.p, xs)
    requires s < sh.Slots() == |declared| && NotesMatch(sc, sh, v, declared)
    ensures Opens(sc, declared[s], SlotOf(sh, xs, s)) && ValueOf(sc, declared[s]) == ValueIn(sh, xs, s)
  {
    NoteRowsOpen(sc, sh, v, xs, declared, s);
    SlotInField(sh, xs, s);
    ValueIs(sc, declared[s], SlotOf(sh, xs, s));
  }

  lemma {:induction false} ListIsSum(sc: Scheme, sh: Shape, v: seq<int>, xs: seq<int>, declared: seq<string>, low: nat,
                                     high: nat)
    requires Binding(sc) && sh.Valid() && sh.a == sc.a && |xs| == sh.FullWidth() && Evaluates(sh, v, xs)
             && InField(sh.a.p, xs)
    requires low <= high <= sh.Slots() == |declared| && NotesMatch(sc, sh, v, declared)
    ensures ListValue(sc, declared[low..high]) == SumOf(sh, xs, low, high)
    decreases high
  {
    if high > low {
      ListIsSum(sc, sh, v, xs, declared, low, high - 1);
      SlotValue(sc, sh, v, xs, declared, high - 1);
      assert declared[low..high][..high - 1 - low] == declared[low..high - 1];
    }
  }

  lemma SumRowIs(sh: Shape, v: seq<int>, xs: seq<int>)
    requires sh.Valid() && |xs| == sh.FullWidth() && Evaluates(sh, v, xs)
    ensures SumAt(sh) < |v| && RowFits(sh, Linear(Nonzero(SumTerms(sh))))
    ensures v[SumAt(sh)] == RowAt(sh, Linear(Nonzero(SumTerms(sh))), xs)
  {
    RowPlaces(sh);
    hide *;
    EvaluatesAt(sh, v, xs, SumAt(sh));
  }

  lemma EvaluatesAt(sh: Shape, v: seq<int>, xs: seq<int>, i: nat)
    requires sh.Valid() && |xs| == sh.FullWidth() && Evaluates(sh, v, xs) && i < |AllRows(sh)|
    ensures i < |v| && RowFits(sh, AllRows(sh)[i]) && v[i] == RowAt(sh, AllRows(sh)[i], xs)
  {
    hide AllRows, RowAt;
    var row := v[i];
    assert RowFits(sh, AllRows(sh)[i]);
  }

  // ---- one transaction ----

  /** The commitment opens, to a value below 2^B. */
  ghost predicate InRange(sc: Scheme, cm: string)
    requires sc.Valid()
  {
    (exists coords :: Opens(sc, cm, coords)) && 0 <= ValueOf(sc, cm) < Pow2(sc.a.rangeBits)
  }

  ghost predicate Verified(sc: Scheme, chainId: string, tx: Transaction, prove: Prover)
    requires sc.Valid()
  {
    Authentic(sc, chainId, tx) && prove(ShapeOf(sc, tx), Reduced(sc.a.p, tx.v), sc.Beta(tx.TheBody()))
  }

  method VerifyTransaction(sc: Scheme, chainId: string, tx: Transaction, prove: Prover) returns (ok: bool)
    requires sc.Valid()
    ensures ok <==> Verified(sc, chainId, tx, prove)
  {
    ok := Authenticate(sc, chainId, tx);
    if ok {
      ok := prove(ShapeOf(sc, tx), Reduced(sc.a.p, tx.v), sc.Beta(tx.TheBody()));
    }
  }

  /** The field has room for all the slots of a transaction together. */
  predicate RoomFor(sc: Scheme, slots: nat) {
    slots * Pow2(sc.a.rangeBits) <= sc.a.p
  }

  /** What a verified transaction establishes: its outputs are in range, and if its inputs are, the values
      behind the commitments are conserved exactly when the fee is below k * 2^B. */
  lemma VerifiedConserves(sc: Scheme, chainId: string, tx: Transaction, prove: Prover)
    requires Binding(sc) && sc.a.Field() && Sound(prove) && Verified(sc, chainId, tx, prove)
    requires RoomFor(sc, |tx.inputs| + |tx.outputs|)
    ensures forall cm <- tx.outputs :: InRange(sc, cm)
    ensures (forall cm <- tx.InputCms() :: InRange(sc, cm)) ==>
              (ListValue(sc, tx.InputCms()) == ListValue(sc, tx.outputs) + tx.fee
               <==> tx.fee < |tx.inputs| * Pow2(sc.a.rangeBits))
  {
    var sh, v, beta := ShapeOf(sc, tx), Reduced(sc.a.p, tx.v), sc.Beta(tx.TheBody());
    assert HasWitness(sh, v, beta);
    var xs :| Witnesses(sh, v, beta, xs);
    hide Algebra.Field, Binding, Sound, AllRows, NoteAt, RangeRowsHold, Nonzero, SumTerms;
    RangeFits(sh);
    ClearRowsConserve(sc, sh, v, xs, tx.InputCms(), tx.outputs, tx.fee % sc.a.p, beta);
    ZeroRowsHold(sh, v, xs);
    SumRowIs(sh, v, xs);
    if forall cm <- tx.InputCms() :: InRange(sc, cm) {
      forall s: nat | s < sh.k ensures 0 <= ValueIn(sh, xs, s) < Pow2(sc.a.rangeBits) {
        SlotValue(sc, sh, v, xs, tx.InputCms() + tx.outputs, s);
        assert tx.InputCms()[s] in tx.InputCms();
      }
      ConservedIffPayable(sh, xs, tx.fee);
    }
  }

  /** The same with separate bounds on the two sides, when the fee is small enough. */
  lemma VerifiedConservesWithin(sc: Scheme, chainId: string, tx: Transaction, prove: Prover)
    requires Binding(sc) && sc.a.Field() && Sound(prove) && Verified(sc, chainId, tx, prove)
    requires RoomFor(sc, |tx.inputs|) && |tx.outputs| * Pow2(sc.a.rangeBits) + tx.fee <= sc.a.p
    requires forall cm <- tx.InputCms() :: InRange(sc, cm)
    ensures forall cm <- tx.outputs :: InRange(sc, cm)
    ensures ListValue(sc, tx.InputCms()) == ListValue(sc, tx.outputs) + tx.fee
  {
    var sh, v, beta := ShapeOf(sc, tx), Reduced(sc.a.p, tx.v), sc.Beta(tx.TheBody());
    assert HasWitness(sh, v, beta);
    var xs :| Witnesses(sh, v, beta, xs);
    hide Algebra.Field, Binding, Sound, AllRows, NoteAt, RangeRowsHold, Nonzero, SumTerms;
    MulMonotone(1, |tx.inputs|, Pow2(sc.a.rangeBits));
    ClearRowsConserve(sc, sh, v, xs, tx.InputCms(), tx.outputs, tx.fee % sc.a.p, beta);
    ZeroRowsHold(sh, v, xs);
    SumRowIs(sh, v, xs);
    forall s: nat | s < sh.k ensures 0 <= ValueIn(sh, xs, s) < Pow2(sc.a.rangeBits) {
      SlotValue(sc, sh, v, xs, tx.InputCms() + tx.outputs, s);
      assert tx.InputCms()[s] in tx.InputCms();
    }
    ConservedWithin(sh, xs, tx.fee);
  }

  /** The list sums are the witness's slot sums, and the outputs are in range. */
  lemma ClearRowsConserve(sc: Scheme, sh: Shape, v: seq<int>, xs: seq<int>, ins: seq<string>, outs: seq<string>,
                          sum: int, beta: int)
    requires Binding(sc) && sc.a.Field() && sh.Valid() && sh.a == sc.a && |xs| == sh.FullWidth()
             && Evaluates(sh, v, xs) && InField(sh.a.p, xs)
    requires |ins| == sh.k && |outs| == sh.m && ClearRows(sc, sh, v, ins + outs, sum, beta)
             && Pow2(sc.a.rangeBits) <= sc.a.p
    ensures ListValue(sc, ins) == InputSum(sh, xs) && ListValue(sc, outs) == OutputSum(sh, xs)
    ensures forall cm <- outs :: InRange(sc, cm)
  {
    hide AllRows, Evaluates;
    ZeroRowsHold(sh, v, xs);
    OutputsInRange(sh, xs);
    ListIsSum(sc, sh, v, xs, ins + outs, 0, sh.k);
    ListIsSum(sc, sh, v, xs, ins + outs, sh.k, sh.Slots());
    assert (ins + outs)[0..sh.k] == ins && (ins + outs)[sh.k..sh.Slots()] == outs;
    forall cm <- outs ensures InRange(sc, cm) {
      var i :| 0 <= i < |outs| && outs[i] == cm;
      assert (ins + outs)[sh.k + i] == cm;
      SlotValue(sc, sh, v, xs, ins + outs, sh.k + i);
    }
  }

  // ---- the mint ----

  datatype GenesisMint = GenesisMint(
    version: int, context: string, total: int, outputs: seq<string>, v: seq<int>, binding: int,
      sealedNotes: seq<string>, tags: seq<string>)

  const MINT_VERSION := 1

  /** `mint_binding`: an arbitrary function of the document, the total and the outputs. */
  type MintBinder = (string, int, int, seq<string>, seq<string>, seq<string>) -> int

  function MintBeta(sc: Scheme, bind: MintBinder, mint: GenesisMint, context: string): int
    requires sc.Valid()
  {
    bind(context, MINT_VERSION, mint.total, mint.outputs, mint.sealedNotes, mint.tags) % sc.a.p
  }

  ghost predicate MintVerified(sc: Scheme, bind: MintBinder, context: string, mint: GenesisMint, prove: Prover)
    requires sc.Valid()
  {
    && mint.version == MINT_VERSION && mint.context == context && mint.total >= 0 && mint.outputs != []
    && NoRepeats(mint.outputs)
    && (mint.sealedNotes != [] ==> |mint.sealedNotes| == |mint.outputs|)
    && (mint.tags != [] ==> |mint.tags| == |mint.outputs|)
    && var sh, v, beta := Shape(sc.a, 0, |mint.outputs|), Reduced(sc.a.p, mint.v), MintBeta(sc, bind, mint, context);
       && beta == mint.binding % sc.a.p
       && ClearRows(sc, sh, v, mint.outputs, (sc.a.p - mint.total % sc.a.p) % sc.a.p, beta)
       && prove(sh, v, beta)
  }

  method VerifyMint(sc: Scheme, bind: MintBinder, context: string, mint: GenesisMint, prove: Prover) returns (ok: bool)
    requires sc.Valid()
    ensures ok <==> MintVerified(sc, bind, context, mint, prove)
  {
    hide ClearRows, NoRepeats, SumAt, Shape.Width, SumTerms, MintBeta;
    if mint.version != MINT_VERSION || mint.context != context || mint.total < 0 {
      return false;
    }
    var m := |mint.outputs|;
    if m < 1 {
      return false;
    }
    var twice := Repeats(mint.outputs);
    if twice || (mint.sealedNotes != [] && |mint.sealedNotes| != m) || (mint.tags != [] && |mint.tags| != m) {
      return false;
    }
    var ts := new TxSystem(Shape(sc.a, 0, m));
    var v := Reduced(sc.a.p, mint.v);
    RowCount(ts.shape);
    if |v| != |ts.rows| {
      WrongLengthFails(sc, ts.shape, v, mint.outputs, (sc.a.p - mint.total % sc.a.p) % sc.a.p,
                       MintBeta(sc, bind, mint, context));
      return false;
    }
    var beta := MintBeta(sc, bind, mint, context);
    if beta != mint.binding % sc.a.p {
      return false;
    }
    ok := CheckClearRows(sc, ts, v, mint.outputs, (sc.a.p - mint.total % sc.a.p) % sc.a.p, beta);
    if ok {
      ok := prove(ts.shape, v, beta);
    }
  }

  lemma WrongLengthFails(sc: Scheme, sh: Shape, v: seq<int>, declared: seq<string>, sum: int, beta: int)
    requires sc.Valid() && sh.Valid() && |declared| == sh.Slots() && |v| != BindAt(sh) + 1
    ensures !ClearRows(sc, sh, v, declared, sum, beta)
  {
  }

  /** A verified mint's outputs are in range and add up to the declared total, exactly when the total is
      less than p: a total is compared with the hidden sum modulo p only. */
  lemma MintAddsUp(sc: Scheme, bind: MintBinder, context: string, mint: GenesisMint, prove: Prover)
    requires Binding(sc) && sc.a.Field() && Sound(prove) && MintVerified(sc, bind, context, mint, prove)
    requires RoomFor(sc, |mint.outputs|)
    ensures forall cm <- mint.outputs :: InRange(sc, cm)
    ensures ListValue(sc, mint.outputs) == mint.total <==> mint.total < sc.a.p
  {
    hide BitAt, RangeAt, AssetAt, BindAt, RowFits, RecompTerms, NullifierAt, Algebra.Valid, SumAt, BitFamily;
    hide RecompHolds, InRange;
    var sh, v, beta := Shape(sc.a, 0, |mint.outputs|), Reduced(sc.a.p, mint.v), MintBeta(sc, bind, mint, context);
    assert HasWitness(sh, v, beta);
    var xs :| Witnesses(sh, v, beta, xs);
    hide Algebra.Field, Binding, Sound, AllRows, NoteAt, RangeRowsHold, Nonzero, SumTerms;
    RangeFits(sh);
    assert [] + mint.outputs == mint.outputs;
    ClearRowsConserve(sc, sh, v, xs, [], mint.outputs, (sc.a.p - mint.total % sc.a.p) % sc.a.p, beta);
    ZeroRowsHold(sh, v, xs);
    SumRowIs(sh, v, xs);
    MintedIffInField(sh, xs, mint.total);
  }
}
