/**
 What a block that passes `check_block` is worth (chain/state.py): it is the next one, its transactions are verified and
 spend nothing twice, its roots are of the ledger it leaves, and it conserves money.
 */
module BlockWorth {
  import opened Basics
  import opened SealAccumulator
  import opened Ledger
  import opened Merging
  import opened Mempool
  import opened BlockBuilding
  import opened Supply
  import A = SpendAuthority
  import M = Money
  import S = Seats
  import T = Transactions

  /** Where it stands, and what it lists. */
  lemma CheckedIsNext(s: Ledger, tip: Tip, verify: T.Transaction -> bool, id: Naming, b: Block)
    requires BlockBuilding.Checks(s, tip, verify, id, b)
    ensures b.chainId == tip.chainId && b.height == tip.height + 1 && b.prevHash == tip.hash && |b.txIds| == |b.txs|
    ensures forall i | 0 <= i < |b.txs| :: b.txIds[i] == id(b.txs[i]) && verify(b.txs[i])
    ensures forall i, j | 0 <= i < j < |b.txs| :: id(b.txs[i]) != id(b.txs[j])
  {
    hide Runs, RunAll;
    forall i | 0 <= i < |b.txs| ensures b.txs[i] in b.txs {
    }
    forall i, j | 0 <= i < j < |b.txs| ensures id(b.txs[i]) != id(b.txs[j]) {
      assert IdsOf(id, b.txs)[i] != IdsOf(id, b.txs)[j];
    }
  }

  /** Of any two of its transactions neither spends a note or publishes a nullifier of the other, and each fits the
      ledger the ones before it leave. */
  lemma {:induction false} RunsApart(s: Ledger, txs: seq<T.Transaction>, i: nat, j: nat)
    requires Runs(s, txs) && i < j < |txs|
    ensures Disjoint(txs[i].InputCms(), txs[j].InputCms()) && Disjoint(txs[i].Nullifiers(), txs[j].Nullifiers())
    ensures RunAll(s, txs[..j]).Some? && FitsLedger(RunAll(s, txs[..j]).value, txs[j])
  {
    hide FitsLedger, Apply;
    var n := |txs| - 1;
    if j < n {
      RunsApart(s, txs[..n], i, j);
      assert txs[..n][..j] == txs[..j];
    } else {
      LastApart(s, txs, i);
    }
  }

  lemma LastApart(s: Ledger, txs: seq<T.Transaction>, i: nat)
    requires Runs(s, txs) && i < |txs| - 1
    ensures Disjoint(txs[i].InputCms(), txs[|txs| - 1].InputCms())
    ensures Disjoint(txs[i].Nullifiers(), txs[|txs| - 1].Nullifiers())
  {
    hide FitsLedger, Apply, RunAll, FromTxs;
    var n := |txs| - 1;
    assert txs[..n][i] == txs[i];
    forall v <- txs[n].InputCms() ensures v !in txs[i].InputCms() {
      FromTxsFromSome(txs[..n], v);
    }
    forall v <- txs[n].Nullifiers() ensures v !in txs[i].Nullifiers() {
      FromTxsFromSome(txs[..n], v);
    }
  }

  /** Its two roots are over the notes, spent ones buried, and the nullifiers of the ledger its transactions leave. */
  lemma CheckedCommits(s: Ledger, tip: Tip, verify: T.Transaction -> bool, id: Naming, b: Block)
    requires s.Valid() && BlockBuilding.Checks(s, tip, verify, id, b)
    ensures RunAll(s, b.txs).Some?
    ensures var t := RunAll(s, b.txs).value;
            && |b.utxoRoot| == |t.utxo.items| + 1 && b.utxoRoot[0] == DomainLeaf("utxo")
            && (forall i | 0 <= i < |t.utxo.items| ::
                  b.utxoRoot[i + 1] == LeafOf("utxo", if i in t.utxo.dead then Buried(t.utxo.items[i])
                                              else t.utxo.items[i]))
            && |b.nfRoot| == |t.nullifiers.items| + 1 && b.nfRoot[0] == DomainLeaf("nf")
            && (forall i | 0 <= i < |t.nullifiers.items| :: b.nfRoot[i + 1] == LeafOf("nf", t.nullifiers.items[i]))
  {
    hide Runs, RunAll, IdsOf;
    A.RunKeepsValid(s, b.txs);
    var t := RunAll(s, b.txs).value;
    forall i | 0 <= i < |t.utxo.items|
      ensures b.utxoRoot[i + 1] == LeafOf("utxo", if i in t.utxo.dead then Buried(t.utxo.items[i])
                                          else t.utxo.items[i]) {
      assert t.utxo.Leaves("utxo")[i + 1] == t.utxo.SlotLeaf("utxo", i);
    }
    forall i | 0 <= i < |t.nullifiers.items| ensures b.nfRoot[i + 1] == LeafOf("nf", t.nullifiers.items[i]) {
      assert t.nullifiers.Leaves("nf")[i + 1] == t.nullifiers.SlotLeaf("nf", i);
    }
  }

  /** It leaves the supply as it was, fees burned included. */
  lemma CheckedConserves(sc: T.Scheme, chainId: string, prove: M.Prover, s: Ledger, tip: Tip,
                         verify: T.Transaction -> bool, id: Naming, b: Block, minted: int)
    requires T.Binding(sc) && sc.a.Field() && M.Sound(prove) && Holds(sc, s, minted)
    requires forall tx {:trigger verify(tx)} :: verify(tx) ==> Accepted(sc, chainId, prove, tx) && Payable(sc, tx)
    requires BlockBuilding.Checks(s, tip, verify, id, b)
    ensures RunAll(s, b.txs).Some? && Holds(sc, RunAll(s, b.txs).value, minted)
  {
    hide Runs, RunAll, Accepted, Holds;
    forall i | 0 <= i < |b.txs| ensures Accepted(sc, chainId, prove, b.txs[i]) && Payable(sc, b.txs[i]) {
      assert verify(b.txs[i]);
    }
    RunConserves(sc, chainId, prove, s, b.txs, minted);
  }
}
