/**
 Spends (chain/transaction.py): what is checked of a transaction apart from its proof, what a verified one
 means, and the builder.

 Identifiers, the binding scalar and signatures are arbitrary functions; the proof system is a predicate
 that holds only where a witness exists.
 */
module Transactions {
  import opened Basics
  import opened TxSystem
  import opened RowTheorems

  const TX_VERSION := 1

  datatype TxInput = TxInput(cm: string, nullifier: string, ownerPub: string, signature: string)

  datatype Transaction = Transaction(
    version: int, chainId: string, fee: int, inputs: seq<TxInput>, outputs: seq<string>, v: seq<int>, binding: int,
    sealedNotes: seq<string>, tags: seq<string>)
  {
    function InputCms(): (r: seq<string>)
      ensures |r| == |inputs|
    {
      seq(|inputs|, i requires 0 <= i < |inputs| => inputs[i].cm)
    }

    function Nullifiers(): (r: seq<string>)
      ensures |r| == |inputs|
    {
      seq(|inputs|, i requires 0 <= i < |inputs| => inputs[i].nullifier)
    }

    function OwnerPubs(): seq<string> {
      seq(|inputs|, i requires 0 <= i < |inputs| => inputs[i].ownerPub)
    }

    function TheBody(): Body {
      Body(chainId, version, fee, InputCms(), outputs, OwnerPubs(), sealedNotes, tags)
    }
  }

  /** What the binding scalar covers. */
  datatype Body = Body(
    chainId: string, version: int, fee: int, inputCms: seq<string>, outputCms: seq<string>, ownerPubs: seq<string>,
    sealedNotes: seq<string>, tags: seq<string>)

  datatype Scheme = Scheme(
    a: Algebra, noteId: seq<int> -> string, nullifierId: (string, int) -> string, bind: Body -> int,
    ownerField: string -> int, verifySig: (string, int, string) -> bool)
  {
    predicate Valid() {
      a.Valid()
    }

    function Beta(body: Body): int
      requires Valid()
    {
      bind(body) % a.p
    }
  }

  /** A note's commitment vector. */
  function VectorOf(a: Algebra, coords: seq<int>): seq<int>
    requires a.Valid()
  {
    seq(a.noteRows, l requires 0 <= l < a.noteRows => a.noteRow(coords, l) % a.p)
  }

  ghost predicate Opens(sc: Scheme, cm: string, coords: seq<int>)
    requires sc.Valid()
  {
    |coords| == sc.a.nNote && InField(sc.a.p, coords) && sc.noteId(VectorOf(sc.a, coords)) == cm
  }

  /** A commitment has one opening. */
  ghost predicate Binding(sc: Scheme) {
    sc.Valid() && forall cm, x, y {:trigger Opens(sc, cm, x), Opens(sc, cm, y)} ::
      Opens(sc, cm, x) && Opens(sc, cm, y) ==> x == y
  }

  ghost function ValueOf(sc: Scheme, cm: string): int
    requires sc.Valid()
  {
    if coords :| Opens(sc, cm, coords) then coords[NOTE_VALUE] else 0
  }

  ghost function ListValue(sc: Scheme, cms: seq<string>): int
    requires sc.Valid()
  {
    if cms == [] then 0 else ListValue(sc, cms[..|cms| - 1]) + ValueOf(sc, cms[|cms| - 1])
  }

  // ---- what is checked in the clear ----

  ghost predicate NoRepeats(s: seq<string>) {
    forall i, j | 0 <= i < j < |s| :: s[i] != s[j]
  }

  ghost predicate NoteMatches(sc: Scheme, sh: Shape, v: seq<int>, declared: seq<string>, s: nat)
    requires s < |declared|
  {
    NoteEnd(sh, s) <= |v| && sc.noteId(v[NoteAt(sh, s)..NoteEnd(sh, s)]) == declared[s]
  }

  ghost predicate NotesMatch(sc: Scheme, sh: Shape, v: seq<int>, declared: seq<string>)
    requires |declared| == sh.Slots()
  {
    forall s: nat | s < sh.Slots() :: NoteMatches(sc, sh, v, declared, s)
  }

  function NoteEnd(sh: Shape, s: nat): (r: nat)
    ensures NoteAt(sh, s) <= r
  {
    NoteAt(sh, s) + sh.a.noteRows
  }

  ghost predicate ZeroRun(v: seq<int>, low: nat, high: nat) {
    low <= high <= |v| && forall i | low <= i < high :: v[i] == 0
  }

  function ShapeOf(sc: Scheme, tx: Transaction): Shape {
    Shape(sc.a, |tx.inputs|, |tx.outputs|)
  }

  /** The counts and the distinctness checks. */
  ghost predicate WellFormed(chainId: string, tx: Transaction) {
    && tx.version == TX_VERSION && tx.chainId == chainId && tx.fee >= 0
    && tx.inputs != [] && tx.outputs != []
    && NoRepeats(tx.InputCms()) && NoRepeats(tx.Nullifiers()) && NoRepeats(tx.outputs)
    && (tx.sealedNotes != [] ==> |tx.sealedNotes| == |tx.outputs|) && (tx.tags != [] ==> |tx.tags| == |tx.outputs|)
  }

  ghost predicate InputAuthorised(sc: Scheme, sh: Shape, tx: Transaction, v: seq<int>, j: nat)
    requires sc.Valid() && sh.Valid() && |v| == BindAt(sh) + 1 && sh.k == |tx.inputs| && j < sh.k
  {
    var t := tx.inputs[j];
    && sc.nullifierId(t.cm, v[NullifierAt(sh) + j]) == t.nullifier
    && v[OwnerAt(sh) + j] == sc.ownerField(t.ownerPub)
    && sc.verifySig(t.ownerPub, sc.Beta(tx.TheBody()), t.signature)
  }

  /** The rows every party can read off the output vector. */
  ghost predicate ClearRows(sc: Scheme, sh: Shape, v: seq<int>, declared: seq<string>, sum: int, beta: int)
    requires sc.Valid() && sh.Valid() && |declared| == sh.Slots()
  {
    && |v| == BindAt(sh) + 1 && v[BindAt(sh)] == beta
    && NotesMatch(sc, sh, v, declared)
    && v[SumAt(sh)] == sum
    && ZeroRun(v, AssetAt(sh), RangeAt(sh)) && ZeroRun(v, RangeAt(sh), BitAt(sh))
    && ZeroRun(v, BitAt(sh), NullifierAt(sh))
  }

  ghost predicate Authentic(sc: Scheme, chainId: string, tx: Transaction)
    requires sc.Valid()
  {
    && WellFormed(chainId, tx)
    && var sh, v, beta := ShapeOf(sc, tx), Reduced(sc.a.p, tx.v), sc.Beta(tx.TheBody());
       && beta == tx.binding % sc.a.p
       && ClearRows(sc, sh, v, tx.InputCms() + tx.outputs, tx.fee % sc.a.p, beta)
       && forall j: nat | j < sh.k :: InputAuthorised(sc, sh, tx, v, j)
  }

  // ---- the checks ----

  method Repeats(s: seq<string>) returns (yes: bool)
    ensures yes <==> !NoRepeats(s)
  {
    var seen: set<string> := {};
    for i := 0 to |s|
      invariant NoRepeats(s[..i]) && forall x :: x in seen <==> x in s[..i]
    {
      if s[i] in seen {
        var j :| 0 <= j < i && s[..i][j] == s[i];
        return true;
      }
      assert s[..i + 1] == s[..i] + [s[i]];
      seen := seen + {s[i]};
    }
    assert s[..|s|] == s;
    return false;
  }

  method AllZero(v: seq<int>, at: seq<nat>, ghost low: nat) returns (ok: bool)
    requires at == Run(low, |at|) && low + |at| <= |v|
    ensures ok <==> ZeroRun(v, low, low + |at|)
  {
    for i := 0 to |at|
      invariant ZeroRun(v, low, low + i)
    {
      if v[at[i]] != 0 {
        assert v[low + i] != 0;
        return false;
      }
    }
    return true;
  }

  method CheckNotes(sc: Scheme, ts: TxSystem, v: seq<int>, declared: seq<string>) returns (ok: bool)
    requires sc.Valid() && ts.Valid() && ts.shape.a == sc.a && |declared| == ts.shape.Slots()
             && |v| == BindAt(ts.shape) + 1
    ensures ok <==> NotesMatch(sc, ts.shape, v, declared)
  {
    hide AllRows, Run;
    var sh := ts.shape;
    for s := 0 to sh.Slots()
      invariant forall t: nat | t < s :: NoteMatches(sc, sh, v, declared, t)
    {
      NoteInside(sh, s);
      RunLength(NoteAt(sh, s), sh.a.noteRows);
      var vector := Picked(v, ts.noteRows[s], NoteAt(sh, s));
      assert NoteMatches(sc, sh, v, declared, s) <==> sc.noteId(vector) == declared[s];
      if sc.noteId(vector) != declared[s] {
        return false;
      }
    }
    return true;
  }

  lemma RunLength(start: nat, n: nat)
    ensures |Run(start, n)| == n
  {
  }

  lemma NoteInside(sh: Shape, s: nat)
    requires sh.Valid() && s < sh.Slots()
    ensures NoteEnd(sh, s) <= SumAt(sh) <= BindAt(sh)
  {
    MulMonotone(s + 1, sh.Slots(), sh.a.noteRows);
  }

  method Picked(v: seq<int>, at: seq<nat>, ghost low: nat) returns (r: seq<int>)
    requires at == Run(low, |at|) && low + |at| <= |v|
    ensures r == v[low..low + |at|]
  {
    r := [];
    for i := 0 to |at|
      invariant r == v[low..low + i]
    {
      r := r + [v[at[i]]];
    }
  }

  /** The note, sum, asset, range and bit rows, in the order they are refused. */
  method CheckClearRows(sc: Scheme, ts: TxSystem, v: seq<int>, declared: seq<string>, sum: int, beta: int)
    returns (ok: bool)
    requires sc.Valid() && ts.Valid() && ts.shape.a == sc.a && |declared| == ts.shape.Slots()
             && |v| == BindAt(ts.shape) + 1
    ensures ok <==> ClearRows(sc, ts.shape, v, declared, sum, beta)
  {
    hide NotesMatch, ZeroRun;
    ghost var sh := ts.shape;
    if v[ts.bindRow] != beta {
      return false;
    }
    ok := CheckNotes(sc, ts, v, declared);
    if !ok {
      return;
    }
    if v[ts.sumRow] != sum {
      return false;
    }
    ok := AllZero(v, ts.assetRows, AssetAt(sh));
    if !ok {
      return;
    }
    ok := AllZero(v, ts.rangeRows, RangeAt(sh));
    if !ok {
      return;
    }
    ok := AllZero(v, ts.bitRows, BitAt(sh));
  }

  /** Everything about a transaction that does not need its proof. */
  method Authenticate(sc: Scheme, chainId: string, tx: Transaction) returns (ok: bool)
    requires sc.Valid()
    ensures ok <==> Authentic(sc, chainId, tx)
  {
    if tx.version != TX_VERSION || tx.chainId != chainId || tx.fee < 0 {
      return false;
    }
    var k, m := |tx.inputs|, |tx.outputs|;
    if k < 1 || m < 1 {
      return false;
    }
    var twice := Repeats(tx.InputCms());
    if twice {
      return false;
    }
    twice := Repeats(tx.Nullifiers());
    if twice {
      return false;
    }
    if (tx.sealedNotes != [] && |tx.sealedNotes| != m) || (tx.tags != [] && |tx.tags| != m) {
      return false;
    }
    twice := Repeats(tx.outputs);
    if twice {
      return false;
    }
    ok := AuthenticateRows(sc, chainId, tx);
  }

  method AuthenticateRows(sc: Scheme, chainId: string, tx: Transaction) returns (ok: bool)
    requires sc.Valid() && WellFormed(chainId, tx)
    ensures ok <==> Authentic(sc, chainId, tx)
  {
    hide NotesMatch, ZeroRun, NoRepeats, InputAuthorised;
    var ts := new TxSystem(ShapeOf(sc, tx));
    var v := Reduced(sc.a.p, tx.v);
    RowPlaces(ts.shape);
    if |v| != |ts.rows| {
      return false;
    }
    var beta := sc.Beta(tx.TheBody());
    if beta != tx.binding % sc.a.p {
      return false;
    }
    ok := CheckClearRows(sc, ts, v, tx.InputCms() + tx.outputs, tx.fee % sc.a.p, beta);
    if !ok {
      return;
    }
    ok := CheckInputs(sc, ts, tx, v, beta);
  }

  method CheckInputs(sc: Scheme, ts: TxSystem, tx: Transaction, v: seq<int>, beta: int) returns (ok: bool)
    requires sc.Valid() && ts.Valid() && ts.shape == ShapeOf(sc, tx) && |v| == BindAt(ts.shape) + 1
             && beta == sc.Beta(tx.TheBody())
    ensures ok <==> forall j: nat | j < ts.shape.k :: InputAuthorised(sc, ts.shape, tx, v, j)
  {
    hide AllRows;
    var sh := ts.shape;
    for j := 0 to |tx.inputs|
      invariant forall i: nat | i < j :: InputAuthorised(sc, sh, tx, v, i)
    {
      var t := tx.inputs[j];
      assert ts.nfRows[j] == NullifierAt(sh) + j && ts.ownerRows[j] == OwnerAt(sh) + j;
      if sc.nullifierId(t.cm, v[ts.nfRows[j]]) != t.nullifier
         || v[ts.ownerRows[j]] != sc.ownerField(t.ownerPub)
         || !sc.verifySig(t.ownerPub, beta, t.signature) {
        assert !InputAuthorised(sc, sh, tx, v, j);
        return false;
      }
    }
    return true;
  }
}
