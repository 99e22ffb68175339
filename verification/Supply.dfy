/**
 Money over whole runs: live value plus burned fees is what was minted (chain/state.py, chain/mint.py,
 chain/transaction.py).
 */
module Supply {
  import opened Basics
  import opened SealAccumulator
  import opened SealTheorems
  import opened Ledger
  import opened Merging
  import opened Money
  import B = Builders
  import R = RowTheorems
  import T = Transactions

  /** The unspent commitments. */
  function LiveSet(d: Dump): set<string> {
    set i | 0 <= i < |d.items| && i !in d.dead :: d.items[i]
  }

  lemma LiveSetIs(d: Dump, v: string)
    ensures v in LiveSet(d) <==> d.Live(v)
  {
  }

  ghost function SetValue(sc: T.Scheme, cms: set<string>): int
    requires sc.Valid()
  {
    if cms == {} then 0
    else
      var cm :| cm in cms;
      T.ValueOf(sc, cm) + SetValue(sc, cms - {cm})
  }

  /** The sum does not depend on the order. */
  lemma {:induction false} SetValueWithout(sc: T.Scheme, cms: set<string>, x: string)
    requires sc.Valid() && x in cms
    ensures SetValue(sc, cms) == T.ValueOf(sc, x) + SetValue(sc, cms - {x})
    decreases |cms|
  {
    var cm :| cm in cms && SetValue(sc, cms) == T.ValueOf(sc, cm) + SetValue(sc, cms - {cm});
    if cm != x {
      SetValueWithout(sc, cms - {cm}, x);
      SetValueWithout(sc, cms - {x}, cm);
      assert cms - {cm} - {x} == cms - {x} - {cm};
    }
  }

  function AsSet(values: seq<string>): set<string> {
    set v | v in values
  }

  /** Taking out a list of different members takes out their values; putting it in adds them. */
  lemma {:induction false} SetValueMinusList(sc: T.Scheme, cms: set<string>, values: seq<string>)
    requires sc.Valid() && NoRepeats(values) && forall v <- values :: v in cms
    ensures SetValue(sc, cms) == SetValue(sc, cms - AsSet(values)) + T.ListValue(sc, values)
  {
    if values == [] {
      assert cms - AsSet(values) == cms;
    } else {
      var front, last := values[..|values| - 1], values[|values| - 1];
      assert values == front + [last];
      NoRepeatsGrows(front, last);
      SetValueMinusList(sc, cms, front);
      SetValueWithout(sc, cms - AsSet(front), last);
      assert cms - AsSet(front) - {last} == cms - AsSet(values);
    }
  }

  lemma SetValuePlusList(sc: T.Scheme, cms: set<string>, values: seq<string>)
    requires sc.Valid() && NoRepeats(values) && forall v <- values :: v !in cms
    ensures SetValue(sc, cms + AsSet(values)) == SetValue(sc, cms) + T.ListValue(sc, values)
  {
    SetValueMinusList(sc, cms + AsSet(values), values);
    assert cms + AsSet(values) - AsSet(values) == cms;
  }

  /** What applying a delta does to the live set. */
  lemma LiveSetAfter(s: Ledger, d: Delta)
    requires s.Valid() && Apply(s, d).Some? && |d.spent| == |d.nullifiers|
    ensures LiveSet(Apply(s, d).value.utxo) == LiveSet(s.utxo) - AsSet(d.spent) + AsSet(d.created)
    ensures NoRepeats(d.spent) && NoRepeats(d.created)
    ensures (forall v <- d.spent :: v in LiveSet(s.utxo)) && forall v <- d.created :: v !in LiveSet(s.utxo)
  {
    AppliesIff(s, d);
    ApplyKeepsValid(s, d);
    var t := Apply(s, d).value;
    hide Apply, NoRepeats;
    forall v ensures v in LiveSet(t.utxo) <==> v in LiveSet(s.utxo) - AsSet(d.spent) + AsSet(d.created) {
      LiveSetIs(s.utxo, v);
      LiveSetIs(t.utxo, v);
      if v in d.created {
        CreatedIsLive(s, d, v);
      } else {
        LiveAfter(s, d, v);
      }
    }
  }

  lemma CreatedIsLive(s: Ledger, d: Delta, v: string)
    requires s.Valid() && Apply(s, d).Some? && v in d.created
    ensures Apply(s, d).value.utxo.Live(v) && !s.utxo.Live(v)
  {
    hide Added, Spent;
    AppliesIff(s, d);
    var t := Apply(s, d).value;
    var j :| 0 <= j < |d.created| && d.created[j] == v;
    var i: nat := |s.utxo.items| + j;
    assert t.utxo.items[i] == v;
    forall p <- t.utxo.dead ensures p < |s.utxo.items| {
    }
    assert i !in t.utxo.dead;
  }

  // ---- the supply ----

  /** Every live commitment opens to a value in range, and live values plus burned fees are the supply. */
  ghost predicate Holds(sc: T.Scheme, s: Ledger, minted: int)
    requires sc.Valid()
  {
    && s.Valid()
    && (forall cm <- LiveSet(s.utxo) :: InRange(sc, cm))
    && SetValue(sc, LiveSet(s.utxo)) + s.burned == minted
  }

  /** An accepted transaction, apart from the size of its fee. */
  ghost predicate Accepted(sc: T.Scheme, chainId: string, prove: Prover, tx: T.Transaction)
    requires sc.Valid()
  {
    Verified(sc, chainId, tx, prove) && RoomFor(sc, |tx.inputs| + |tx.outputs|)
  }

  predicate Payable(sc: T.Scheme, tx: T.Transaction) {
    tx.fee < |tx.inputs| * Pow2(sc.a.rangeBits)
  }

  /** One accepted transaction keeps the supply exactly when its fee is below k * 2^B. */
  lemma StepHoldsIff(sc: T.Scheme, chainId: string, prove: Prover, s: Ledger, tx: T.Transaction, minted: int)
    requires T.Binding(sc) && sc.a.Field() && Sound(prove) && Holds(sc, s, minted) && Accepted(sc, chainId, prove, tx)
    requires ApplyTx(s, tx).Some?
    ensures Holds(sc, ApplyTx(s, tx).value, minted) <==> Payable(sc, tx)
  {
    var d, t := DeltaOf(tx), ApplyTx(s, tx).value;
    ApplyKeepsValid(s, d);
    LiveSetAfter(s, d);
    BurnedAfter(s, d);
    VerifiedConserves(sc, chainId, tx, prove);
    SetValueMinusList(sc, LiveSet(s.utxo), d.spent);
    SetValuePlusList(sc, LiveSet(s.utxo) - AsSet(d.spent), d.created);
  }

  lemma BurnedAfter(s: Ledger, d: Delta)
    requires Apply(s, d).Some?
    ensures Apply(s, d).value.burned == s.burned + d.fees
  {
  }

  /** Conservation over any run of accepted transactions with payable fees. */
  lemma {:induction false} RunConserves(sc: T.Scheme, chainId: string, prove: Prover, s: Ledger,
                                        txs: seq<T.Transaction>, minted: int)
    requires T.Binding(sc) && sc.a.Field() && Sound(prove) && Holds(sc, s, minted)
    requires forall i | 0 <= i < |txs| :: Accepted(sc, chainId, prove, txs[i]) && Payable(sc, txs[i])
    requires RunAll(s, txs).Some?
    ensures Holds(sc, RunAll(s, txs).value, minted)
  {
    if txs != [] {
      var front := txs[..|txs| - 1];
      assert forall i | 0 <= i < |front| :: front[i] == txs[i];
      RunConserves(sc, chainId, prove, s, front, minted);
      StepHoldsIff(sc, chainId, prove, RunAll(s, front).value, txs[|txs| - 1], minted);
    }
  }

  /** Applying the merged delta of checked grids conserves as well. */
  lemma MergeConserves(sc: T.Scheme, chainId: string, prove: Prover, s: Ledger, groups: seq<seq<T.Transaction>>,
                       verify: T.Transaction -> bool, number: string -> nat, parts: nat, minted: int)
    requires T.Binding(sc) && sc.a.Field() && Sound(prove) && Holds(sc, s, minted) && parts > 0
    requires forall tx {:trigger verify(tx)} :: verify(tx) ==> Accepted(sc, chainId, prove, tx) && Payable(sc, tx)
    requires forall g | 0 <= g < |groups| :: IsSomeGrids(s, groups[g], verify, number, parts)
    ensures var merged := Joined(Pick(Deltas(groups), KeptUpTo(Deltas(groups), |groups|)));
            Apply(s, merged).Some? && Holds(sc, Apply(s, merged).value, minted)
  {
    hide CeremonySet, Holds, Accepted, KeptUpTo, Apply, RunAll, EachDistinct, Ledger.Valid, Dump.WellFormed, HasWitness;
    hide Witnesses;
    assert s.Valid() by {
      HoldsIsValid(sc, s, minted);
    }
    forall g | 0 <= g < |groups| ensures EachDistinct(groups[g]) && IsSomeGrids(s, groups[g], verify, number, parts) {
      var part :| CeremonySet(s, groups[g], verify, number, part, parts);
      SetIsDistinct(sc, chainId, prove, s, groups[g], verify, number, part, parts);
    }
    MergeIsSequence(s, groups, verify, number, parts);
    var picked := Pick(groups, KeptUpTo(Deltas(groups), |groups|));
    PickedFrom(groups, KeptUpTo(Deltas(groups), |groups|));
    forall g <- picked ensures forall i | 0 <= i < |g| :: verify(g[i]) {
      var j :| 0 <= j < |groups| && groups[j] == g;
      var part :| CeremonySet(s, groups[j], verify, number, part, parts);
      SetVerifies(s, g, verify, number, part, parts);
    }
    FlattenVerifies(picked, verify);
    RunConserves(sc, chainId, prove, s, Flatten(picked), minted);
  }

  lemma HoldsIsValid(sc: T.Scheme, s: Ledger, minted: int)
    requires sc.Valid() && Holds(sc, s, minted)
    ensures s.Valid()
  {
  }

  lemma SetVerifies(s: Ledger, txs: seq<T.Transaction>, verify: T.Transaction -> bool, number: string -> nat,
                    part: nat, parts: nat)
    requires parts > 0 && CeremonySet(s, txs, verify, number, part, parts)
    ensures forall i | 0 <= i < |txs| :: verify(txs[i])
  {
  }

  lemma {:induction false} FlattenVerifies(groups: seq<seq<T.Transaction>>, verify: T.Transaction -> bool)
    requires forall g <- groups :: forall i | 0 <= i < |g| :: verify(g[i])
    ensures forall i | 0 <= i < |Flatten(groups)| :: verify(Flatten(groups)[i])
  {
    if groups != [] {
      var last := groups[|groups| - 1];
      assert last in groups;
      FlattenVerifies(groups[..|groups| - 1], verify);
    }
  }

  /** `authenticate` refuses repeats within a transaction. */
  lemma SetIsDistinct(sc: T.Scheme, chainId: string, prove: Prover, s: Ledger, txs: seq<T.Transaction>,
                      verify: T.Transaction -> bool, number: string -> nat, part: nat, parts: nat)
    requires sc.Valid() && parts > 0 && CeremonySet(s, txs, verify, number, part, parts)
    requires forall tx {:trigger verify(tx)} :: verify(tx) ==> Accepted(sc, chainId, prove, tx) && Payable(sc, tx)
    ensures EachDistinct(txs)
  {
    SetVerifies(s, txs, verify, number, part, parts);
    forall i | 0 <= i < |txs| ensures DeltaOf(txs[i]).Distinct() {
      assert verify(txs[i]);
      AcceptedIsDistinct(sc, chainId, prove, txs[i]);
    }
  }

  lemma AcceptedIsDistinct(sc: T.Scheme, chainId: string, prove: Prover, tx: T.Transaction)
    requires sc.Valid() && Accepted(sc, chainId, prove, tx)
    ensures DeltaOf(tx).Distinct()
  {
    SameNotion(tx.InputCms());
    SameNotion(tx.outputs);
    SameNotion(tx.Nullifiers());
  }

  lemma SameNotion(values: seq<string>)
    ensures NoRepeats(values) <==> T.NoRepeats(values)
  {
  }

  /** From a verified mint whose total is a field element the supply is that total. */
  lemma MintStarts(sc: T.Scheme, bind: MintBinder, context: string, mint: GenesisMint, prove: Prover)
    requires T.Binding(sc) && sc.a.Field() && Sound(prove) && MintVerified(sc, bind, context, mint, prove)
    requires RoomFor(sc, |mint.outputs|) && mint.total < sc.a.p
    ensures var issued := AddedAll(Dump([], {}), mint.outputs);
            issued.Some? && Holds(sc, Ledger(issued.value, Dump([], {}), 0), mint.total)
  {
    hide AddedAll, Holds, NoRepeats, T.NoRepeats, T.Binding, Sound, InRange, T.ListValue, T.ClearRows;
    MintAddsUp(sc, bind, context, mint, prove);
    SameNotion(mint.outputs);
    IssuedHolds(sc, mint.outputs);
  }

  /** Different notes put into an empty ledger are its supply. */
  lemma IssuedHolds(sc: T.Scheme, values: seq<string>)
    requires sc.Valid() && NoRepeats(values) && forall cm <- values :: InRange(sc, cm)
    ensures AddedAll(Dump([], {}), values).Some?
            && Holds(sc, Ledger(AddedAll(Dump([], {}), values).value, Dump([], {}), 0), T.ListValue(sc, values))
  {
    hide InRange, T.ListValue, NoRepeats, Added;
    AddedAllIs(Dump([], {}), values);
    AddedKeepsForm(Dump([], {}), values);
    var issued := AddedAll(Dump([], {}), values).value;
    assert issued.items == values;
    IssuedLive(issued, values);
    SetValuePlusList(sc, {}, values);
    assert {} + AsSet(values) == AsSet(values);
  }

  lemma IssuedLive(d: Dump, values: seq<string>)
    requires d == Dump(values, {})
    ensures LiveSet(d) == AsSet(values)
  {
  }

  // ---- inputs outside the conditions ----

  /** A proof system that proves whatever has a witness. */
  ghost predicate Complete(prove: Prover) {
    forall sh, v, beta {:trigger prove(sh, v, beta)} {:trigger HasWitness(sh, v, beta)} :: HasWitness(sh, v, beta) ==>
      prove(sh, v, beta)
  }

  /** For any one note sent on as one note there is an accepted transaction whose fee is the honest balance plus p:
      nothing refuses it, and it is not payable, so by `StepHoldsIff` applying it breaks the supply. */
  lemma UnpayableFeeIsAccepted(sc: T.Scheme, chainId: string, prove: Prover, spend: B.Spend, output: B.Note,
                               sign: (string, int) -> string) returns (tx: T.Transaction)
    requires B.Signs(sc, sign) && Complete(prove) && RoomFor(sc, 2) && B.Fits(sc.a, spend.note) && B.Fits(sc.a, output)
    requires B.Sendable(sc, [spend], [output], spend.note.value - output.value + sc.a.p, [], [])
    ensures tx.InputCms() == [B.CmOf(sc, spend.note)] && tx.outputs == [B.CmOf(sc, output)]
    ensures tx.fee == spend.note.value - output.value + sc.a.p
    ensures Accepted(sc, chainId, prove, tx)
    ensures spend.note.value >= output.value ==> !Payable(sc, tx)
  {
    var fee := spend.note.value - output.value + sc.a.p;
    assert B.InputNotes([spend]) == [spend.note];
    OneNote(spend.note);
    OneNote(output);
    AddModulus(spend.note.value - output.value, sc.a.p);
    tx := B.EveryCongruentFee(sc, chainId, [spend], [output], fee, [], [], sign);
    assert B.CmsOf(sc, [spend.note]) == [B.CmOf(sc, spend.note)] && B.CmsOf(sc, [output]) == [B.CmOf(sc, output)];
    assert |tx.inputs| == 1 && |tx.outputs| == 1;
    MulMonotone(1, 2, Pow2(sc.a.rangeBits));
  }

  lemma OneNote(n: B.Note)
    ensures B.Total([n]) == n.value
  {
    assert [n][..0] == [];
  }

  lemma AddModulus(v: int, p: nat)
    requires p > 0
    ensures v % p == (v + p) % p
  {
    R.SameResidue(v + p, v, 1, p);
  }

  /** And a mint of one note that declares p more than the note is worth verifies: its total is outside the field. */
  lemma OverstatedMintIsVerified(sc: T.Scheme, bind: MintBinder, context: string, prove: Prover, note: B.Note)
    returns (mint: GenesisMint)
    requires sc.Valid() && Complete(prove) && B.Fits(sc.a, note) && 0 <= note.value < Pow2(sc.a.rangeBits)
    ensures mint.outputs == [B.CmOf(sc, note)] && mint.total == note.value + sc.a.p
    ensures MintVerified(sc, bind, context, mint, prove) && mint.total >= sc.a.p
  {
    OneNote(note);
    AddModulus(note.value, sc.a.p);
    mint := B.EveryCongruentTotal(sc, bind, [note], note.value + sc.a.p, context, prove);
    assert B.CmsOf(sc, [note]) == [B.CmOf(sc, note)];
  }

  /** From the mint through any run: what is live plus what was burned is what was minted. */
  lemma MoneyIsConserved(sc: T.Scheme, bind: MintBinder, context: string, mint: GenesisMint, chainId: string,
                         prove: Prover, txs: seq<T.Transaction>)
    requires T.Binding(sc) && sc.a.Field() && Sound(prove) && MintVerified(sc, bind, context, mint, prove)
    requires RoomFor(sc, |mint.outputs|) && mint.total < sc.a.p
    requires forall i | 0 <= i < |txs| :: Accepted(sc, chainId, prove, txs[i]) && Payable(sc, txs[i])
    requires AddedAll(Dump([], {}), mint.outputs).Some?
    requires RunAll(Ledger(AddedAll(Dump([], {}), mint.outputs).value, Dump([], {}), 0), txs).Some?
    ensures var end := RunAll(Ledger(AddedAll(Dump([], {}), mint.outputs).value, Dump([], {}), 0), txs).value;
            SetValue(sc, LiveSet(end.utxo)) + end.burned == mint.total
            && forall cm <- LiveSet(end.utxo) :: InRange(sc, cm)
  {
    MintStarts(sc, bind, context, mint, prove);
    RunConserves(sc, chainId, prove, Ledger(AddedAll(Dump([], {}), mint.outputs).value, Dump([], {}), 0), txs,
                 mint.total);
  }
}
