/**
 The ledger's two records of a spend, the buried note and the published nullifier (chain/state.py, `cross_check`): that
 they agree in every run, and the one delta that would part them.
 */
module Records {
  import opened Basics
  import opened SealAccumulator
  import opened SealTheorems
  import opened Ledger
  import opened Merging
  import T = Transactions

  const Empty := Ledger(Dump([], {}), Dump([], {}), 0)

  /** As many notes are spent as nullifiers are published. */
  predicate Agree(s: Ledger) {
    |s.utxo.dead| == |s.nullifiers.items|
  }

  /** Applying a delta to a ledger in order leaves the records in agreement exactly when it names as many nullifiers as
      inputs. */
  lemma AgreeAfterIff(s: Ledger, d: Delta)
    requires s.Valid() && Apply(s, d).Some?
    ensures Agree(Apply(s, d).value) <==> |d.spent| == |d.nullifiers|
    ensures Apply(s, d).value.Valid() <==> |d.spent| == |d.nullifiers|
  {
    hide Dump.Live, NoRepeats, SpentAll, AddedAll;
    AppliesIff(s, d);
    SlotsCount(s.utxo.items, d.spent);
    forall v <- d.spent ensures Slot(s.utxo.items, v) !in s.utxo.dead {
      LiveIsUndeadSlot(s.utxo, v);
    }
    assert |s.utxo.dead + SlotsOf(s.utxo.items, d.spent)| == |s.utxo.dead| + |d.spent|;
    if |d.spent| == |d.nullifiers| {
      ApplyKeepsValid(s, d);
    }
  }

  /** A note put into circulation at genesis, one transaction, or the merged delta of a network block. */
  datatype Step = Issue(cm: string) | Spend(tx: T.Transaction) | Settle(groups: seq<seq<T.Transaction>>)

  /** What a network block's grids amount to. */
  ghost function Settled(groups: seq<seq<T.Transaction>>): Delta {
    Joined(Pick(Deltas(groups), KeptUpTo(Deltas(groups), |groups|)))
  }

  ghost predicate Follows(s: Ledger, step: Step, t: Ledger) {
    match step
    case Issue(cm) => Added(s.utxo, cm) == Some(t.utxo) && t == s.(utxo := t.utxo)
    case Spend(tx) => ApplyTx(s, tx) == Some(t)
    case Settle(groups) => Apply(s, Settled(groups)) == Some(t)
  }

  ghost predicate IsRun(states: seq<Ledger>, steps: seq<Step>) {
    && |states| == |steps| + 1 && states[0] == Empty
    && forall i | 0 <= i < |steps| :: Follows(states[i], steps[i], states[i + 1])
  }

  /** In every run from the empty ledger the two records agree at every point, so the comparison never stops a node. */
  lemma {:induction false} RecordsAgree(states: seq<Ledger>, steps: seq<Step>, k: nat)
    requires IsRun(states, steps) && k < |states|
    ensures states[k].Valid() && Agree(states[k])
  {
    if k > 0 {
      RecordsAgree(states, steps, k - 1);
      StepAgrees(states[k - 1], steps[k - 1], states[k]);
    }
  }

  lemma StepAgrees(s: Ledger, step: Step, t: Ledger)
    requires s.Valid() && Follows(s, step, t)
    ensures t.Valid()
  {
    hide Apply, Settled;
    match step
    case Issue(cm) =>
      IssueKeepsForm(s.utxo, cm);
    case Spend(tx) =>
      AgreeAfterIff(s, DeltaOf(tx));
    case Settle(groups) =>
      SettledInStep(groups);
      AgreeAfterIff(s, Settled(groups));
  }

  lemma IssueKeepsForm(d: Dump, cm: string)
    requires d.WellFormed() && Added(d, cm).Some?
    ensures Added(d, cm).value.WellFormed() && Added(d, cm).value.dead == d.dead
  {
    assert [cm][..0] == [] && AddedAll(d, []) == Some(d) && AddedAll(d, [cm]) == Added(d, cm);
    AddedKeepsForm(d, [cm]);
  }

  /** Whatever grids are merged, inputs and nullifiers go in step. */
  lemma SettledInStep(groups: seq<seq<T.Transaction>>)
    ensures |Settled(groups).spent| == |Settled(groups).nullifiers|
  {
    hide KeptUpTo, Joined;
    var kept := KeptUpTo(Deltas(groups), |groups|);
    PickDeltas(groups, kept);
    JoinedIsFlat(Pick(groups, kept));
    TxsInStep(Flatten(Pick(groups, kept)));
  }
}
