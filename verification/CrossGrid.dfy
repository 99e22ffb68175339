/**
 Why grids may work side by side (chain/tiers.py, `tx_partition`, `GridWorkload.validate`; chain/state.py,
 `merge_deltas`): a note has one nullifier, a nullifier one partition and a partition one grid, so no note is spent in
 two grids' blocks.
 */
module CrossGrid {
  import opened Basics
  import opened Locality
  import opened Register
  import opened GridWorld
  import opened Ledger
  import opened Merging
  import opened GridWorkload
  import opened TierBlocks
  import opened SealTheorems
  import opened Ceilings
  import A = SpendAuthority
  import M = Money
  import S = Seats
  import T = Transactions

  // ---- what an accepted grid block says ----

  /** What every seat that accepted it has checked, of each transaction by itself and of any two. */
  lemma AcceptedTransactions(d: Desk, s: Ledger, rules: Rules, g: GridId, epoch: int, b: GridBlock, i: nat)
    requires d.Covers(g) && Accepts(d, s, rules, g, epoch, b) && i < |b.txs|
    ensures rules.verify(b.txs[i]) && b.txs[i].inputs != []
    ensures forall t <- b.txs[i].inputs ::
              && s.utxo.Live(t.cm) && t.nullifier !in s.nullifiers.items
              && rules.number(t.nullifier) % |d.world.layout.grids| == d.world.layout.grids[g].index
    ensures forall cm <- b.txs[i].outputs :: cm !in s.utxo.items
    ensures forall j | 0 <= j < |b.txs| && j != i ::
              && (forall t <- b.txs[i].inputs :: forall u <- b.txs[j].inputs ::
                  t.cm != u.cm
                  && t.nullifier != u.nullifier)
              && (forall cm <- b.txs[i].outputs :: cm !in b.txs[j].outputs)
  {
    hide Partition, Desk.RegisterAfter, RootOf;
    var tx := b.txs[i];
    PartitionOf(rules.number, tx, |d.world.layout.grids|);
    assert FitsLedger(s, tx);
    forall t <- tx.inputs ensures t.cm in tx.InputCms() && t.nullifier in tx.Nullifiers() {
      InputListed(tx, t);
    }
    forall j | 0 <= j < |b.txs| && j != i
      ensures forall t <- tx.inputs :: forall u <- b.txs[j].inputs :: t.cm != u.cm && t.nullifier != u.nullifier
      ensures forall cm <- tx.outputs :: cm !in b.txs[j].outputs
    {
      assert if i < j then Apart(tx, b.txs[j]) else Apart(b.txs[j], tx);
      forall u <- b.txs[j].inputs ensures u.cm in b.txs[j].InputCms() && u.nullifier in b.txs[j].Nullifiers() {
        InputListed(b.txs[j], u);
      }
    }
  }

  lemma InputListed(tx: T.Transaction, t: T.TxInput)
    requires t in tx.inputs
    ensures t.cm in tx.InputCms() && t.nullifier in tx.Nullifiers()
  {
    var i :| 0 <= i < |tx.inputs| && tx.inputs[i] == t;
    assert tx.InputCms()[i] == t.cm && tx.Nullifiers()[i] == t.nullifier;
  }

  /** A transaction is of a partition exactly when every one of its nullifiers is. */
  lemma PartitionOf(number: string -> nat, tx: T.Transaction, parts: nat)
    requires parts > 0
    ensures forall part :: Partition(number, tx, parts) == Some(part)
              <==> tx.inputs != [] && forall t <- tx.inputs :: number(t.nullifier) % parts == part
  {
    forall t <- tx.inputs ensures exists j :: 0 <= j < |tx.inputs| && tx.inputs[j] == t {
    }
    assert tx.inputs != [] ==> tx.inputs[0] in tx.inputs;
    forall j | 0 <= j < |tx.inputs| ensures tx.inputs[j] in tx.inputs {
    }
  }

  /** The rest of it: where it stands, what its roll is read off, whose reports it carries, and the quorum it claims. */
  lemma AcceptedHeader(d: Desk, s: Ledger, rules: Rules, g: GridId, epoch: int, b: GridBlock)
    requires d.Covers(g) && Accepts(d, s, rules, g, epoch, b)
    ensures b.header.chainId == d.chainId && b.header.prevHash == d.tip && b.header.epoch == epoch
            && b.header.txs == b.txs
    ensures d.height != 0 && g in d.certs ==>
              && b.prevCert.Some? && b.prevCert.value.sound && b.prevCert.value.height == d.height
              && b.prevCert.value.chainId == d.chainId && b.prevCert.value.signers != {}
    ensures b.header.gridId == g && b.header.partition == d.world.layout.grids[g].index
            && b.header.parts == |d.world.layout.grids| && b.header.delta == b.delta && b.header.prevCert == b.prevCert
            && b.header.reports == multiset(b.reports)
    ensures IsCeiling(b.header.quorum, |d.world.books[g].Attesters()|, d.quorumNum, d.quorumDen)
    ensures d.height == 0 || g !in d.certs ==> b.prevCert.None?
    ensures b.roll.Some? && b.header.roll == b.roll.value
    ensures b.prevCert.None? ==> b.roll.value.epoch == -1 && b.roll.value.seated == {} && b.roll.value.attended == {}
    ensures b.prevCert.Some? ==>
              && b.roll.value.epoch == b.prevCert.value.epoch && b.roll.value.attended == b.prevCert.value.attended
              && forall n :: n in b.roll.value.seated <==>
                   n in d.world.layout.members[g] && n in d.world.books[g].members
                   && d.world.books[g].members[n].standing != Suspended
    ensures forall r <- b.reports :: r.signed && r.substantiated
  {
    hide CeremonySet, RootOf, FromTxs, Desk.RegisterAfter, IsCeiling, Desk.QuorumFor;
    QuorumForIs(d, g);
  }

  // ---- two grids ----

  /** No two grids' accepted blocks publish one nullifier. */
  lemma NoNullifierInTwo(d: Desk, s: Ledger, rules: Rules, g: GridId, h: GridId, epoch: int, b: GridBlock,
                         c: GridBlock, i: nat, j: nat, t: T.TxInput, u: T.TxInput)
    requires d.world.layout.Numbered() && d.Covers(g) && d.Covers(h) && g != h
    requires Accepts(d, s, rules, g, epoch, b) && Accepts(d, s, rules, h, epoch, c)
    requires i < |b.txs| && j < |c.txs| && t in b.txs[i].inputs && u in c.txs[j].inputs
    ensures t.nullifier != u.nullifier
  {
    hide Accepts;
    AcceptedTransactions(d, s, rules, g, epoch, b, i);
    AcceptedTransactions(d, s, rules, h, epoch, c, j);
    assert d.world.layout.Apart(g, h);
  }

  /** Every transaction the rules verify is a verified spend of this chain. */
  ghost predicate Spends(rules: Rules, sc: T.Scheme, chainId: string, prove: M.Prover)
    requires sc.Valid()
  {
    forall tx {:trigger rules.verify(tx)} :: rules.verify(tx) ==> M.Verified(sc, chainId, tx, prove)
  }

  /** And, commitments opening one way, none spends a note the other does: a note's one nullifier has one grid. */
  lemma NoNoteInTwo(d: Desk, s: Ledger, rules: Rules, sc: T.Scheme, prove: M.Prover, g: GridId, h: GridId, epoch: int,
                    b: GridBlock, c: GridBlock, i: nat, j: nat, x: nat, y: nat)
    requires d.world.layout.Numbered() && d.Covers(g) && d.Covers(h) && g != h
    requires T.Binding(sc) && M.Sound(prove) && Spends(rules, sc, d.chainId, prove)
    requires Accepts(d, s, rules, g, epoch, b) && Accepts(d, s, rules, h, epoch, c)
    requires i < |b.txs| && j < |c.txs| && x < |b.txs[i].inputs| && y < |c.txs[j].inputs|
    ensures b.txs[i].inputs[x].cm != c.txs[j].inputs[y].cm
  {
    hide Accepts, M.Verified, M.Sound, A.HasNullifier, A.SignedFor;
    AcceptedTransactions(d, s, rules, g, epoch, b, i);
    AcceptedTransactions(d, s, rules, h, epoch, c, j);
    var t, u := b.txs[i].inputs[x], c.txs[j].inputs[y];
    A.VerifiedIsSigned(sc, d.chainId, b.txs[i], prove, x);
    A.VerifiedIsSigned(sc, d.chainId, c.txs[j], prove, y);
    NoNullifierInTwo(d, s, rules, g, h, epoch, b, c, i, j, t, u);
    if t.cm == u.cm {
      A.OneNullifierANote(sc, t.cm, t.nullifier, u.nullifier);
    }
  }

  // ---- so merging drops for outputs only ----

  lemma {:induction false} KeptStays(ds: seq<Delta>, n: nat, m: nat, i: nat)
    requires i < n <= m <= |ds|
    ensures i in KeptUpTo(ds, n) <==> i in KeptUpTo(ds, m)
  {
    hide Admits, Joined, Pick;
    if n < m {
      KeptStays(ds, n, m - 1, i);
    }
  }

  /** What a joined delta holds, one of the joined holds. */
  lemma {:induction false} JoinedFrom(ds: seq<Delta>, v: string)
    ensures v in Joined(ds).spent <==> exists d <- ds :: v in d.spent
    ensures v in Joined(ds).nullifiers <==> exists d <- ds :: v in d.nullifiers
    ensures v in Joined(ds).created <==> exists d <- ds :: v in d.created
  {
    if ds != [] {
      var front, last := ds[..|ds| - 1], ds[|ds| - 1];
      JoinedFrom(front, v);
      assert forall d :: d in ds <==> d in front || d == last;
    }
  }

  lemma PickedAt<A>(all: seq<A>, at: seq<nat>, x: A) returns (k: nat)
    requires Below(at, |all|) && x in Pick(all, at)
    ensures k in at && k < |all| && all[k] == x
  {
    var j :| 0 <= j < |at| && Pick(all, at)[j] == x;
    k := at[j];
  }

  /** Which transaction of a set a value of its delta comes from. */
  lemma SpentIn(txs: seq<T.Transaction>, cm: string) returns (i: nat, x: nat)
    requires cm in FromTxs(txs).spent
    ensures i < |txs| && x < |txs[i].inputs| && txs[i].inputs[x].cm == cm
  {
    FromTxsFromSome(txs, cm);
    i :| 0 <= i < |txs| && cm in txs[i].InputCms();
    x :| 0 <= x < |txs[i].inputs| && txs[i].InputCms()[x] == cm;
  }

  lemma PublishedIn(txs: seq<T.Transaction>, nf: string) returns (i: nat, x: nat)
    requires nf in FromTxs(txs).nullifiers
    ensures i < |txs| && x < |txs[i].inputs| && txs[i].inputs[x].nullifier == nf
  {
    FromTxsFromSome(txs, nf);
    i :| 0 <= i < |txs| && nf in txs[i].Nullifiers();
    x :| 0 <= x < |txs[i].inputs| && txs[i].Nullifiers()[x] == nf;
  }

  /** The deltas of two grids' accepted blocks spend and publish nothing in common. */
  lemma DeltasApart(d: Desk, s: Ledger, rules: Rules, sc: T.Scheme, prove: M.Prover, g: GridId, h: GridId, epoch: int,
                    b: GridBlock, c: GridBlock)
    requires d.world.layout.Numbered() && d.Covers(g) && d.Covers(h) && g != h
    requires T.Binding(sc) && M.Sound(prove) && Spends(rules, sc, d.chainId, prove)
    requires Accepts(d, s, rules, g, epoch, b) && Accepts(d, s, rules, h, epoch, c)
    ensures Disjoint(b.delta.spent, c.delta.spent) && Disjoint(b.delta.nullifiers, c.delta.nullifiers)
  {
    DeltaIs(d, s, rules, g, epoch, b);
    DeltaIs(d, s, rules, h, epoch, c);
    hide Accepts, FromTxs;
    forall v | v in b.delta.spent && v in c.delta.spent ensures false {
      var i, x := SpentIn(b.txs, v);
      var j, y := SpentIn(c.txs, v);
      NoNoteInTwo(d, s, rules, sc, prove, g, h, epoch, b, c, i, j, x, y);
    }
    forall v | v in b.delta.nullifiers && v in c.delta.nullifiers ensures false {
      var i, x := PublishedIn(b.txs, v);
      var j, y := PublishedIn(c.txs, v);
      NoNullifierInTwo(d, s, rules, g, h, epoch, b, c, i, j, b.txs[i].inputs[x], c.txs[j].inputs[y]);
    }
  }

  lemma DeltaIs(d: Desk, s: Ledger, rules: Rules, g: GridId, epoch: int, b: GridBlock)
    requires d.Covers(g) && Accepts(d, s, rules, g, epoch, b)
    ensures b.delta == FromTxs(b.txs) && b.header.gridId == g
  {
    hide CeremonySet, FromTxs;
  }

  /** Of the accepted blocks of one epoch the merge drops only one that creates a note an earlier kept one creates:
      money is never the reason. */
  lemma DroppedForAnOutput(d: Desk, s: Ledger, rules: Rules, sc: T.Scheme, prove: M.Prover, epoch: int,
                           children: seq<GridBlock>, n: nat) returns (k: nat, cm: string)
    requires s.Valid() && d.world.layout.Numbered() && Grounded(d, s, rules, epoch, children)
    requires T.Binding(sc) && M.Sound(prove) && Spends(rules, sc, d.chainId, prove)
    requires n < |children| && n !in KeptUpTo(DeltasOf(children), |children|)
    ensures k < n && k in KeptUpTo(DeltasOf(children), |children|)
    ensures cm in children[k].delta.created && cm in children[n].delta.created
  {
    hide Accepts, Joined, KeptUpTo, Spends, M.Sound, T.Binding;
    var ds := DeltasOf(children);
    var before := KeptUpTo(ds, n);
    assert ChildGrounded(d, s, rules, epoch, children[n]);
    NotAdmitted(ds, n);
    ChildRepeatsNothing(d, s, rules, epoch, children[n]);
    var acc := Joined(Pick(ds, before));
    forall v ensures !(v in acc.spent && v in ds[n].spent) && !(v in acc.nullifiers && v in ds[n].nullifiers) {
      if (v in acc.spent && v in ds[n].spent) || (v in acc.nullifiers && v in ds[n].nullifiers) {
        JoinedFrom(Pick(ds, before), v);
        var x :| x in Pick(ds, before) && ((v in x.spent && v in ds[n].spent)
                                           || (v in x.nullifiers && v in ds[n].nullifiers));
        var j := PickedAt(ds, before, x);
        assert ChildGrounded(d, s, rules, epoch, children[j]);
        DeltasApart(d, s, rules, sc, prove, children[j].header.gridId, children[n].header.gridId, epoch, children[j],
                    children[n]);
        assert false;
      }
    }
    cm :| cm in acc.created && cm in ds[n].created;
    JoinedFrom(Pick(ds, before), cm);
    var x :| x in Pick(ds, before) && cm in x.created;
    k := PickedAt(ds, before, x);
    KeptStays(ds, n, |ds|, k);
  }

  lemma NotAdmitted(ds: seq<Delta>, n: nat)
    requires n < |ds| && n !in KeptUpTo(ds, |ds|)
    ensures !Admits(Joined(Pick(ds, KeptUpTo(ds, n))), ds[n])
  {
    hide Admits, Joined, Pick, KeptUpTo;
    KeptStays(ds, n + 1, |ds|, n);
    if Admits(Joined(Pick(ds, KeptUpTo(ds, n))), ds[n]) {
      KeptNext(ds, n);
    }
  }

  lemma ChildRepeatsNothing(d: Desk, s: Ledger, rules: Rules, epoch: int, b: GridBlock)
    requires s.Valid() && ChildGrounded(d, s, rules, epoch, b)
    ensures NoRepeats(b.delta.spent) && NoRepeats(b.delta.nullifiers)
  {
    hide CeremonySet, NoRepeats, EachDistinct, RootOf, FromTxs, Desk.RegisterAfter;
    var part, parts := d.world.layout.grids[b.header.gridId].index, |d.world.layout.grids|;
    SetDelta(s, b.txs, rules.verify, rules.number, part, parts);
  }
}
