/**
 Who may spend (chain/transaction.py, `authenticate`, `verify_transaction`): a note leaves the ledger only under a
 signature of the key it was made out to, over this very transaction, and publishes the one nullifier that note has.
 */
module SpendAuthority {
  import opened Basics
  import opened TxSystem
  import opened RowTheorems
  import opened Transactions
  import opened Money
  import opened Ledger
  import opened Supply

  /** What the opening of a note says, and the nullifier that follows from it. */
  ghost predicate MadeOutTo(sc: Scheme, cm: string, owner: int)
    requires sc.Valid()
  {
    exists coords :: Opens(sc, cm, coords) && coords[NOTE_OWNER] == owner
  }

  ghost predicate HasNullifier(sc: Scheme, cm: string, nf: string)
    requires sc.Valid()
  {
    exists coords :: Opens(sc, cm, coords) && nf == sc.nullifierId(cm, sc.a.nullifier(coords) % sc.a.p)
  }

  ghost predicate OfAsset(sc: Scheme, cm: string, asset: int)
    requires sc.Valid()
  {
    exists coords :: Opens(sc, cm, coords) && coords[NOTE_ASSET] == asset
  }

  /** The key `pub` owns the note, and signed, for this chain and version, this fee, these inputs, outputs, owners,
      sealed openings and tags. */
  ghost predicate SignedFor(sc: Scheme, chainId: string, tx: Transaction, cm: string, pub: string, signature: string)
    requires sc.Valid()
  {
    && MadeOutTo(sc, cm, sc.ownerField(pub))
    && var body := Body(chainId, 1, tx.fee, tx.InputCms(), tx.outputs, tx.OwnerPubs(), tx.sealedNotes, tx.tags);
       sc.verifySig(pub, sc.bind(body) % sc.a.p, signature)
  }

  // ---- from rows to the opening ----

  /** Where the owner, nullifier and asset rows of a slot are. */
  lemma RowsOf(sh: Shape, j: nat)
    requires sh.Valid()
    ensures |AllRows(sh)| == BindAt(sh) + 1
    ensures j < sh.k ==>
              && OwnerAt(sh) + j < BindAt(sh)
              && AllRows(sh)[OwnerAt(sh) + j] == Linear([Term(sh.SlotOff(j) + NOTE_OWNER, 1)])
              && AllRows(sh)[NullifierAt(sh) + j] == NullifierRow(j)
    ensures 0 < j < sh.Slots() ==>
              && AssetAt(sh) + (j - 1) < BindAt(sh)
              && AllRows(sh)[AssetAt(sh) + (j - 1)] == Linear(Nonzero(AssetTerms(sh, j)))
  {
    hide AllRows, SumTerms, Nonzero, RecompTerms, AssetTerms, Shape.BindPos, Shape.SlotOff, Shape.BitCount, AssetAt;
    hide Algebra.Valid;
    RowPlaces(sh);
    var rows := AllRows(sh);
    if j < sh.k {
      assert rows[OwnerAt(sh)..BindAt(sh)][j] == rows[OwnerAt(sh) + j];
      assert rows[NullifierAt(sh)..OwnerAt(sh)][j] == rows[NullifierAt(sh) + j];
    }
    if 0 < j < sh.Slots() {
      assert rows[AssetAt(sh)..RangeAt(sh)][j - 1] == rows[AssetAt(sh) + (j - 1)];
    }
  }

  lemma OwnerRowIs(sh: Shape, v: seq<int>, xs: seq<int>, j: nat)
    requires sh.Valid() && |xs| == sh.FullWidth() && InField(sh.a.p, xs) && Evaluates(sh, v, xs) && j < sh.k
    ensures OwnerAt(sh) + j < |v| && v[OwnerAt(sh) + j] == SlotOf(sh, xs, j)[NOTE_OWNER]
  {
    hide AllRows, AssetAt, RangeAt, BitAt, NullifierAt, Nonzero, AssetTerms, SlotOf, Shape.SlotOff, Shape.BindPos;
    hide Shape.FullWidth, Shape.Width, Evaluates, LinearAt;
    RowsOf(sh, j);
    CoordinateAt(sh, xs, j, NOTE_OWNER);
    EvaluatesAt(sh, v, xs, OwnerAt(sh) + j);
    OneTerm(sh.SlotOff(j) + NOTE_OWNER, xs);
  }

  lemma CoordinateAt(sh: Shape, xs: seq<int>, s: nat, c: nat)
    requires |xs| == sh.FullWidth() && InField(sh.a.p, xs) && s < sh.Slots() && c < sh.a.nNote
    ensures sh.SlotOff(s) + c < |xs| && SlotOf(sh, xs, s)[c] == xs[sh.SlotOff(s) + c]
    ensures 0 <= xs[sh.SlotOff(s) + c] < sh.a.p
  {
    SlotFits(sh, s);
  }

  lemma OneTerm(pos: nat, xs: seq<int>)
    requires pos < |xs|
    ensures LinearAt([Term(pos, 1)], xs) == xs[pos]
  {
    assert [Term(pos, 1)][..0] == [];
  }

  lemma NullifierRowIs(sh: Shape, v: seq<int>, xs: seq<int>, j: nat)
    requires sh.Valid() && |xs| == sh.FullWidth() && InField(sh.a.p, xs) && Evaluates(sh, v, xs) && j < sh.k
    ensures NullifierAt(sh) + j < |v| && v[NullifierAt(sh) + j] == sh.a.nullifier(SlotOf(sh, xs, j)) % sh.a.p
  {
    hide AllRows, AssetAt, RangeAt, BitAt, NullifierAt, Nonzero, AssetTerms;
    RowsOf(sh, j);
    EvaluatesAt(sh, v, xs, NullifierAt(sh) + j);
  }

  lemma AssetRowIs(sh: Shape, v: seq<int>, xs: seq<int>, s: nat)
    requires sh.Valid() && |xs| == sh.FullWidth() && InField(sh.a.p, xs) && Evaluates(sh, v, xs) && 0 < s < sh.Slots()
    requires ZeroRun(v, AssetAt(sh), RangeAt(sh))
    ensures SlotOf(sh, xs, s)[NOTE_ASSET] == SlotOf(sh, xs, 0)[NOTE_ASSET]
  {
    hide AllRows, AssetAt, BitAt, NullifierAt, Nonzero, SlotOf, Shape.SlotOff, Shape.BindPos, Shape.FullWidth;
    hide Shape.Width, Evaluates, LinearAt;
    RowsOf(sh, s);
    CoordinateAt(sh, xs, s, NOTE_ASSET);
    CoordinateAt(sh, xs, 0, NOTE_ASSET);
    EvaluatesAt(sh, v, xs, AssetAt(sh) + (s - 1));
    assert v[AssetAt(sh) + (s - 1)] == 0;
    NonzeroSame(AssetTerms(sh, s), xs);
    TwoTerms(sh.SlotOff(s) + NOTE_ASSET, sh.SlotOff(0) + NOTE_ASSET, sh.a.p - 1, xs);
    DifferenceVanishes(xs[sh.SlotOff(s) + NOTE_ASSET], xs[sh.SlotOff(0) + NOTE_ASSET], sh.a.p);
  }

  lemma TwoTerms(one: nat, other: nat, coef: int, xs: seq<int>)
    requires one < |xs| && other < |xs|
    ensures LinearAt([Term(one, 1), Term(other, coef)], xs) == xs[one] + coef * xs[other]
  {
    var terms := [Term(one, 1), Term(other, coef)];
    assert terms[..1] == [Term(one, 1)];
    OneTerm(one, xs);
  }

  lemma DifferenceVanishes(a: nat, b: nat, p: nat)
    requires a < p && b < p && (a + (p - 1) * b) % p == 0
    ensures a == b
  {
    assert a + (p - 1) * b == (a - b) + b * p;
    SameResidue(a + (p - 1) * b, a - b, b, p);
  }

  // ---- one transaction ----

  /** What the proof of a verified transaction vouches for, input by input: the note opens, to the owner whose key
      signed this transaction, and the published nullifier is that note's. */
  lemma VerifiedIsSigned(sc: Scheme, chainId: string, tx: Transaction, prove: Prover, j: nat)
    requires sc.Valid() && Sound(prove) && Verified(sc, chainId, tx, prove) && j < |tx.inputs|
    ensures SignedFor(sc, chainId, tx, tx.inputs[j].cm, tx.inputs[j].ownerPub, tx.inputs[j].signature)
    ensures HasNullifier(sc, tx.inputs[j].cm, tx.inputs[j].nullifier)
  {
    hide AllRows, Evaluates, SlotOf, NotesMatch, ZeroRun, AssetAt, RangeAt, BitAt, BindAt;
    var sh, v, beta := ShapeOf(sc, tx), Reduced(sc.a.p, tx.v), sc.Beta(tx.TheBody());
    assert HasWitness(sh, v, beta);
    var xs :| Witnesses(sh, v, beta, xs);
    var t, coords := tx.inputs[j], SlotOf(sh, xs, j);
    SlotOpens(sc, sh, v, xs, tx.InputCms() + tx.outputs, j);
    OwnerRowIs(sh, v, xs, j);
    NullifierRowIs(sh, v, xs, j);
    assert (tx.InputCms() + tx.outputs)[j] == t.cm;
    assert InputAuthorised(sc, sh, tx, v, j);
    assert Opens(sc, t.cm, coords);
    assert tx.TheBody() == Body(chainId, 1, tx.fee, tx.InputCms(), tx.outputs, tx.OwnerPubs(), tx.sealedNotes, tx.tags);
  }

  lemma SlotOpens(sc: Scheme, sh: Shape, v: seq<int>, xs: seq<int>, declared: seq<string>, s: nat)
    requires sc.Valid() && sh.Valid() && sh.a == sc.a && |xs| == sh.FullWidth() && Evaluates(sh, v, xs)
             && InField(sh.a.p, xs)
    requires s < sh.Slots() == |declared| && NotesMatch(sc, sh, v, declared)
    ensures Opens(sc, declared[s], SlotOf(sh, xs, s))
  {
    assert NoteMatches(sc, sh, v, declared, s);
    NoteRowsOpen(sc, sh, v, xs, declared, s);
  }

  lemma SlotIsOfAsset(sc: Scheme, sh: Shape, v: seq<int>, xs: seq<int>, declared: seq<string>, s: nat)
    requires sc.Valid() && sh.Valid() && sh.a == sc.a && |xs| == sh.FullWidth() && Evaluates(sh, v, xs)
             && InField(sh.a.p, xs)
    requires s < sh.Slots() == |declared| && NotesMatch(sc, sh, v, declared) && ZeroRun(v, AssetAt(sh), RangeAt(sh))
    ensures OfAsset(sc, declared[s], SlotOf(sh, xs, 0)[NOTE_ASSET])
  {
    hide AllRows, Evaluates, SlotOf, NotesMatch, ZeroRun;
    SlotOpens(sc, sh, v, xs, declared, s);
    if s > 0 {
      AssetRowIs(sh, v, xs, s);
    }
    assert Opens(sc, declared[s], SlotOf(sh, xs, s));
  }

  /** All notes of a verified transaction, in and out, are of one asset. */
  lemma VerifiedIsOneAsset(sc: Scheme, chainId: string, tx: Transaction, prove: Prover) returns (asset: int)
    requires sc.Valid() && Sound(prove) && Verified(sc, chainId, tx, prove)
    ensures forall cm :: cm in tx.InputCms() || cm in tx.outputs ==> OfAsset(sc, cm, asset)
  {
    hide AllRows, Evaluates, SlotOf, NotesMatch, ZeroRun, AssetAt, RangeAt, BitAt, NullifierAt, BindAt, OfAsset;
    var sh, v, beta := ShapeOf(sc, tx), Reduced(sc.a.p, tx.v), sc.Beta(tx.TheBody());
    assert HasWitness(sh, v, beta);
    var xs :| Witnesses(sh, v, beta, xs);
    var declared := tx.InputCms() + tx.outputs;
    asset := SlotOf(sh, xs, 0)[NOTE_ASSET];
    forall s: nat | s < |declared| ensures OfAsset(sc, declared[s], asset) {
      SlotIsOfAsset(sc, sh, v, xs, declared, s);
    }
    forall cm | cm in tx.InputCms() || cm in tx.outputs ensures OfAsset(sc, cm, asset) {
      assert cm in declared;
    }
  }

  /** So are all notes of a verified mint, whose proof is bound to the genesis document, the total and the outputs. */
  lemma VerifiedMintIsOneAsset(sc: Scheme, bind: MintBinder, context: string, mint: GenesisMint, prove: Prover)
    returns (asset: int)
    requires sc.Valid() && Sound(prove) && MintVerified(sc, bind, context, mint, prove)
    ensures forall cm <- mint.outputs :: OfAsset(sc, cm, asset)
    ensures mint.context == context && mint.version == 1 && mint.total >= 0 && mint.outputs != []
    ensures mint.sealedNotes != [] ==> |mint.sealedNotes| == |mint.outputs|
    ensures mint.tags != [] ==> |mint.tags| == |mint.outputs|
    ensures HasWitness(Shape(sc.a, 0, |mint.outputs|), Reduced(sc.a.p, mint.v),
                       bind(context, 1, mint.total, mint.outputs, mint.sealedNotes, mint.tags) % sc.a.p)
  {
    hide AllRows, Evaluates, SlotOf, NotesMatch, ZeroRun, AssetAt, RangeAt, BitAt, NullifierAt, BindAt, OfAsset;
    var sh, v, beta := Shape(sc.a, 0, |mint.outputs|), Reduced(sc.a.p, mint.v), MintBeta(sc, bind, mint, context);
    assert HasWitness(sh, v, beta);
    var xs :| Witnesses(sh, v, beta, xs);
    asset := SlotOf(sh, xs, 0)[NOTE_ASSET];
    forall s: nat | s < |mint.outputs| ensures OfAsset(sc, mint.outputs[s], asset) {
      SlotIsOfAsset(sc, sh, v, xs, mint.outputs, s);
    }
  }

  /** With commitments that open one way, a note has one owner and one nullifier: it cannot be spent twice under two. */
  lemma OneNullifierANote(sc: Scheme, cm: string, one: string, other: string)
    requires Binding(sc) && HasNullifier(sc, cm, one) && HasNullifier(sc, cm, other)
    ensures one == other
  {
    var x :| Opens(sc, cm, x) && one == sc.nullifierId(cm, sc.a.nullifier(x) % sc.a.p);
    var y :| Opens(sc, cm, y) && other == sc.nullifierId(cm, sc.a.nullifier(y) % sc.a.p);
  }

  lemma OneOwnerANote(sc: Scheme, cm: string, one: int, other: int)
    requires Binding(sc) && MadeOutTo(sc, cm, one) && MadeOutTo(sc, cm, other)
    ensures one == other
  {
    var x :| Opens(sc, cm, x) && x[NOTE_OWNER] == one;
    var y :| Opens(sc, cm, y) && y[NOTE_OWNER] == other;
  }

  /** The proof of a verified transaction is bound to its whole body, and so are the scalar it shows and its last row.
      */
  lemma VerifiedIsBound(sc: Scheme, chainId: string, tx: Transaction, prove: Prover)
    requires sc.Valid() && Sound(prove) && Verified(sc, chainId, tx, prove)
    ensures var beta := sc.bind(Body(chainId, 1, tx.fee, tx.InputCms(), tx.outputs, tx.OwnerPubs(), tx.sealedNotes,
                                     tx.tags)) % sc.a.p;
            && HasWitness(Shape(sc.a, |tx.inputs|, |tx.outputs|), Reduced(sc.a.p, tx.v), beta)
            && tx.binding % sc.a.p == beta && tx.v != [] && tx.v[|tx.v| - 1] % sc.a.p == beta
    ensures tx.chainId == chainId && tx.fee >= 0 && tx.inputs != [] && tx.outputs != []
    ensures (tx.sealedNotes != [] ==> |tx.sealedNotes| == |tx.outputs|) && (tx.tags != [] ==> |tx.tags| == |tx.outputs|)
  {
    hide NotesMatch, ZeroRun, HasWitness, NoRepeats, InputAuthorised;
    assert tx.TheBody() == Body(chainId, 1, tx.fee, tx.InputCms(), tx.outputs, tx.OwnerPubs(), tx.sealedNotes, tx.tags);
  }

  // ---- whole runs ----

  /** Some input of the run's transaction i spends the note under its owner's signature, and its nullifier is out. */
  ghost predicate SpentBy(sc: Scheme, chainId: string, end: Ledger, tx: Transaction, j: nat, cm: string)
    requires sc.Valid()
  {
    && j < |tx.inputs| && tx.inputs[j].cm == cm
    && SignedFor(sc, chainId, tx, cm, tx.inputs[j].ownerPub, tx.inputs[j].signature)
    && HasNullifier(sc, cm, tx.inputs[j].nullifier) && tx.inputs[j].nullifier in end.nullifiers.items
  }

  lemma StepIsSigned(sc: Scheme, chainId: string, prove: Prover, s: Ledger, tx: Transaction, cm: string)
    returns (j: nat)
    requires sc.Valid() && Sound(prove) && s.Valid() && Verified(sc, chainId, tx, prove) && ApplyTx(s, tx).Some?
    requires cm in LiveSet(s.utxo) && cm !in LiveSet(ApplyTx(s, tx).value.utxo)
    ensures SpentBy(sc, chainId, ApplyTx(s, tx).value, tx, j, cm)
  {
    hide Verified, Sound, SignedFor, HasNullifier, Apply, LiveSet, Ledger.Valid;
    LiveSetAfter(s, DeltaOf(tx));
    AppliesIff(s, DeltaOf(tx));
    assert cm in tx.InputCms();
    j :| 0 <= j < |tx.inputs| && tx.InputCms()[j] == cm;
    VerifiedIsSigned(sc, chainId, tx, prove, j);
    assert tx.Nullifiers()[j] == tx.inputs[j].nullifier;
  }

  /** Every note that leaves the live set in a run of verified transactions was signed for by its owner, in a
      transaction of that run, and its one nullifier is published. */
  lemma {:induction false} LeavingIsSigned(sc: Scheme, chainId: string, prove: Prover, s: Ledger,
                                           txs: seq<Transaction>, cm: string) returns (i: nat, j: nat)
    requires sc.Valid() && Sound(prove) && s.Valid() && RunAll(s, txs).Some?
    requires forall k | 0 <= k < |txs| :: Verified(sc, chainId, txs[k], prove)
    requires cm in LiveSet(s.utxo) && cm !in LiveSet(RunAll(s, txs).value.utxo)
    ensures i < |txs| && SpentBy(sc, chainId, RunAll(s, txs).value, txs[i], j, cm)
  {
    hide Verified, Sound, SignedFor, HasNullifier, LiveSet, Apply, Ledger.Valid;
    if txs == [] {
      assert false;
    }
    var n := |txs| - 1;
    var front, t := txs[..n], RunAll(s, txs[..n]).value;
    RunKeepsValid(s, front);
    assert forall k | 0 <= k < n :: front[k] == txs[k];
    if cm in LiveSet(t.utxo) {
      i := n;
      j := StepIsSigned(sc, chainId, prove, t, txs[n], cm);
    } else {
      i, j := LeavingIsSigned(sc, chainId, prove, s, front, cm);
      AppliesIff(t, DeltaOf(txs[n]));
    }
  }

  lemma {:induction false} RunKeepsValid(s: Ledger, txs: seq<Transaction>)
    requires s.Valid() && RunAll(s, txs).Some?
    ensures RunAll(s, txs).value.Valid()
  {
    hide Ledger.Valid, Apply;
    if txs != [] {
      RunKeepsValid(s, txs[..|txs| - 1]);
      ApplyKeepsValid(RunAll(s, txs[..|txs| - 1]).value, DeltaOf(txs[|txs| - 1]));
    }
  }

  // ---- what a signature covers ----

  /** What a signature of this transaction's inputs is over. */
  ghost function Signed(chainId: string, tx: Transaction): Body {
    Body(chainId, 1, tx.fee, tx.InputCms(), tx.outputs, tx.OwnerPubs(), tx.sealedNotes, tx.tags)
  }

  /** The binding scalar of two bodies is one: a collision of the hash it is cut from. */
  predicate BindingCollides(sc: Scheme, a: Body, b: Body)
    requires sc.Valid()
  {
    a != b && sc.bind(a) % sc.a.p == sc.bind(b) % sc.a.p
  }

  /** One signature of one key verifies for two scalars: a forgery. */
  predicate Forged(sc: Scheme, pub: string, one: int, other: int, signature: string) {
    one != other && sc.verifySig(pub, one, signature) && sc.verifySig(pub, other, signature)
  }

  /** A signature taken from one transaction fits no other: whatever authentic transaction carries it has the same
      chain, fee, inputs, outputs, owners, sealed openings and tags, or shows a collision or a forgery. */
  lemma SignatureFixesTheTransaction(sc: Scheme, chainId: string, otherChain: string, tx: Transaction,
                                     other: Transaction, i: nat, j: nat)
    requires sc.Valid() && Authentic(sc, chainId, tx) && Authentic(sc, otherChain, other)
    requires i < |tx.inputs| && j < |other.inputs|
    requires tx.inputs[i].ownerPub == other.inputs[j].ownerPub && tx.inputs[i].signature == other.inputs[j].signature
    ensures var a, b := Signed(chainId, tx), Signed(otherChain, other);
            || (chainId == otherChain && tx.fee == other.fee && tx.InputCms() == other.InputCms()
                && tx.outputs == other.outputs && tx.OwnerPubs() == other.OwnerPubs()
                && tx.sealedNotes == other.sealedNotes && tx.tags == other.tags)
            || BindingCollides(sc, a, b)
            || Forged(sc, tx.inputs[i].ownerPub, sc.bind(a) % sc.a.p, sc.bind(b) % sc.a.p, tx.inputs[i].signature)
  {
    hide NotesMatch, ZeroRun, NoRepeats;
    assert InputAuthorised(sc, ShapeOf(sc, tx), tx, Reduced(sc.a.p, tx.v), i);
    assert InputAuthorised(sc, ShapeOf(sc, other), other, Reduced(sc.a.p, other.v), j);
    assert tx.TheBody() == Signed(chainId, tx) && other.TheBody() == Signed(otherChain, other);
  }
}
