/**
 What the accumulator's histories guarantee: exactly which leaves can be proved, and that undoing a
 block's spends and additions restores the dump, hence both trees.
 */
module SealTheorems {
  import opened Basics
  import opened Digests
  import opened WitnessProof
  import opened WitnessTree
  import opened SealAccumulator

  // ---- which leaves are provable ----

  /** A value reads as a tombstone here: it spells out the buried form of a spent slot. */
  ghost predicate SpellsATombstone(d: Dump, value: string) {
    exists i: nat :: i < |d.items| && i in d.dead && Buried(d.items[i]) == value
  }

  /** Values a caller must keep out for a live leaf never to be mistaken for a tombstone. */
  predicate Reserved(value: string) {
    TOMBSTONE + ":" <= value
  }

  lemma LeafTextInjective(name: string, a: string, b: string)
    requires LeafOf(name, a) == LeafOf(name, b)
    ensures a == b
  {
    var p := name + ":";
    assert (p + a)[|p|..] == a && (p + b)[|p|..] == b;
  }

  lemma DomainLeafIsNoValue(name: string, value: string)
    requires name == [] || name[0] != '_'
    ensures DomainLeaf(name) != LeafOf(name, value)
  {
    assert ("__root__:" + name)[0] == '_';
    assert (name + ":" + value)[0] == if name == [] then ':' else name[0];
  }

  lemma AcceptedMeansShown(name: string, d: Dump, height: nat, value: string, proof: Proof<Seal>)
    requires d.WellFormed() && |d.items| + 1 <= Pow2(height)
    requires name == [] || name[0] != '_'
    requires Accepts(LeafOf(name, value), proof, Root(d.Witnessed(name), height))
    ensures d.Live(value) || SpellsATombstone(d, value)
  {
    hide Positioned, Dump.WellFormed;
    PositionedAt(0, d.Leaves(name));
    DomainLeafIsNoValue(name, value);
    AcceptedOpensToTheLeaf(d.Witnessed(name), height, LeafOf(name, value), proof);
    var i := proof.pos - 1;
    assert d.SlotLeaf(name, i) == LeafOf(name, value);
    LeafTextInjective(name, if i in d.dead then Buried(d.items[i]) else d.items[i], value);
  }

  lemma ShownIsAccepted(name: string, d: Dump, height: nat, i: nat) returns (proof: Proof<Seal>)
    requires i < |d.items| && |d.items| + 1 <= Pow2(height)
    ensures Accepts(d.SlotLeaf(name, i), proof, Root(d.Witnessed(name), height))
  {
    hide Accepts, Root, Buried, LeafOf;
    PositionedAt(0, d.Leaves(name));
    proof := OwnProof(d.Witnessed(name), height, i + 1);
  }

  /** Exactly when some proof of a value's live leaf verifies against the witness root: when the value
      is live, or when it spells the tombstone of a spent one. */
  lemma ProvableIff(name: string, d: Dump, height: nat, value: string)
    requires d.WellFormed() && |d.items| + 1 <= Pow2(height)
    requires name == [] || name[0] != '_'
    ensures (exists proof :: Accepts(LeafOf(name, value), proof, Root(d.Witnessed(name), height)))
            <==> d.Live(value) || SpellsATombstone(d, value)
  {
    forall proof | Accepts(LeafOf(name, value), proof, Root(d.Witnessed(name), height)) {
      AcceptedMeansShown(name, d, height, value, proof);
    }
    if d.Live(value) {
      var i: nat :| i < |d.items| && d.items[i] == value && i !in d.dead;
      var proof := ShownIsAccepted(name, d, height, i);
    } else if SpellsATombstone(d, value) {
      var i: nat :| i < |d.items| && i in d.dead && Buried(d.items[i]) == value;
      var proof := ShownIsAccepted(name, d, height, i);
    }
  }

  /** With the tombstone prefix kept out of the values, provable means live. */
  lemma ProvableMeansLive(name: string, d: Dump, height: nat, value: string)
    requires d.WellFormed() && |d.items| + 1 <= Pow2(height)
    requires name == [] || name[0] != '_'
    requires !Reserved(value)
    ensures (exists proof :: Accepts(LeafOf(name, value), proof, Root(d.Witnessed(name), height))) <==> d.Live(value)
  {
    ProvableIff(name, d, height, value);
    forall i: nat | i < |d.items| ensures Buried(d.items[i]) != value {
      assert Reserved(Buried(d.items[i]));
    }
  }

  /** Without that, a value nobody ever added can be provable. */
  lemma TombstonesCanBeForged()
    ensures exists d: Dump, value, proof ::
              d.WellFormed() && value !in d.items && Accepts(LeafOf("utxo", value), proof, Root(d.Witnessed("utxo"), 1))
  {
    var d, value := Dump(["a"], {0}), Buried("a");
    assert Buried("a")[0] == 'f';
    assert d.items[0] == "a" && 0 in d.dead;
    assert SpellsATombstone(d, value);
    assert Pow2(0) == 1 && Pow2(1) == 2;
    ProvableIff("utxo", d, 1, value);
    var proof :| Accepts(LeafOf("utxo", value), proof, Root(d.Witnessed("utxo"), 1));
    assert d.items[0][0] == 'a';
    assert value !in d.items;
  }

  /** Two trees of one height with one root hold the same leaves. */
  lemma {:induction false} SameRootSameLeaves<V>(a: map<nat, V>, b: map<nat, V>, level: nat, index: nat)
    requires Sub(a, level, index) == Sub(b, level, index)
    ensures forall p: nat :: Ancestor(p, level) == index ==> (p in a <==> p in b) && (p in a ==> a[p] == b[p])
  {
    if level > 0 {
      SameRootSameLeaves(a, b, level - 1, 2 * index);
      SameRootSameLeaves(a, b, level - 1, 2 * index + 1);
      forall p: nat | Ancestor(p, level) == index ensures (p in a <==> p in b) && (p in a ==> a[p] == b[p]) {
        assert Ancestor(p, level - 1) == 2 * index || Ancestor(p, level - 1) == 2 * index + 1;
      }
    } else {
      forall p: nat | Ancestor(p, 0) == index ensures p == index {
      }
    }
  }

  /** Two leaves of the same text come from the same value in the same standing. */
  lemma SameLeafSameSlot(name: string, a: Dump, b: Dump, i: nat)
    requires i < |a.items| && i < |b.items| && a.SlotLeaf(name, i) == b.SlotLeaf(name, i)
    requires !Reserved(a.items[i]) && !Reserved(b.items[i])
    ensures a.items[i] == b.items[i] && (i in a.dead <==> i in b.dead)
  {
    var x := if i in a.dead then Buried(a.items[i]) else a.items[i];
    var y := if i in b.dead then Buried(b.items[i]) else b.items[i];
    LeafTextInjective(name, x, y);
    assert TOMBSTONE + ":" <= Buried(a.items[i]) && TOMBSTONE + ":" <= Buried(b.items[i]);
    var n := |TOMBSTONE + ":"|;
    assert Buried(a.items[i])[n..] == a.items[i] && Buried(b.items[i])[n..] == b.items[i];
  }

  lemma SameRootSameWitness(name: string, a: Dump, b: Dump, height: nat)
    requires |a.items| + 1 <= Pow2(height) && |b.items| + 1 <= Pow2(height)
    requires Root(a.Witnessed(name), height) == Root(b.Witnessed(name), height)
    ensures a.Leaves(name) == b.Leaves(name)
  {
    hide Dump.Leaves, Pow2;
    PositionedAt(0, a.Leaves(name));
    PositionedAt(0, b.Leaves(name));
    SameRootSameLeaves(a.Witnessed(name), b.Witnessed(name), height, 0);
    forall p: nat | p < Pow2(height)
      ensures Ancestor(p, height) == 0 && (p in a.Witnessed(name) <==> p in b.Witnessed(name)) {
      AncestorOfAll(p, height);
    }
    assert |a.items| in a.Witnessed(name) && |b.items| in b.Witnessed(name);
    assert |a.items| in b.Witnessed(name) && |b.items| in a.Witnessed(name);
    forall n | 0 <= n < |a.items| + 1 ensures a.Leaves(name)[n] == b.Leaves(name)[n] {
      assert a.Witnessed(name)[n] == b.Witnessed(name)[n];
    }
  }

  /** The witness root pins the whole logical state, as long as no value spells a tombstone. */
  lemma RootPinsTheDump(name: string, a: Dump, b: Dump, height: nat)
    requires a.WellFormed() && b.WellFormed() && |a.items| + 1 <= Pow2(height) && |b.items| + 1 <= Pow2(height)
    requires forall v :: v in a.items || v in b.items ==> !Reserved(v)
    requires Root(a.Witnessed(name), height) == Root(b.Witnessed(name), height)
    ensures a == b
  {
    SameRootSameWitness(name, a, b, height);
    forall i: nat | i < |a.items| ensures a.items[i] == b.items[i] && (i in a.dead <==> i in b.dead) {
      assert |a.items| + 1 == |a.Leaves(name)| == |b.Leaves(name)|;
      assert a.Leaves(name)[i + 1] == b.Leaves(name)[i + 1];
      assert a.items[i] in a.items && b.items[i] in b.items;
      SameLeafSameSlot(name, a, b, i);
    }
    assert a.items == b.items;
    assert a.dead == b.dead;
  }

  // ---- undoing a block ----

  function SpentAll(d: Dump, values: seq<string>): Option<Dump>
    decreases |values|
  {
    if values == [] then Some(d)
    else match SpentAll(d, values[..|values| - 1])
      case None => None
      case Some(e) => Spent(e, values[|values| - 1])
  }

  function UnspentAll(d: Dump, values: seq<string>): Option<Dump>
    decreases |values|
  {
    if values == [] then Some(d)
    else match UnspentAll(d, values[..|values| - 1])
      case None => None
      case Some(e) => Unspent(e, values[|values| - 1])
  }

  function AddedAll(d: Dump, values: seq<string>): Option<Dump>
    decreases |values|
  {
    if values == [] then Some(d)
    else match AddedAll(d, values[..|values| - 1])
      case None => None
      case Some(e) => Added(e, values[|values| - 1])
  }

  ghost predicate NoRepeats(values: seq<string>) {
    forall i, j :: 0 <= i < j < |values| ==> values[i] != values[j]
  }

  /** The slots a list of values occupies. */
  function SlotsOf(items: seq<string>, values: seq<string>): set<nat>
    requires forall v <- values :: v in items
  {
    set v | v in values :: Slot(items, v)
  }

  lemma NoRepeatsGrows(values: seq<string>, last: string)
    ensures NoRepeats(values + [last]) <==> NoRepeats(values) && last !in values
  {
    var all := values + [last];
    if last in values {
      var j :| 0 <= j < |values| && values[j] == last;
      assert all[j] == all[|values|];
    }
    if NoRepeats(all) {
      forall i, j | 0 <= i < j < |values| ensures values[i] != values[j] {
        assert all[i] != all[j];
      }
    }
  }

  lemma LiveIsUndeadSlot(d: Dump, value: string)
    requires d.WellFormed()
    ensures d.Live(value) <==> value in d.items && Slot(d.items, value) !in d.dead
  {
    if d.Live(value) {
      var i: nat :| i < |d.items| && d.items[i] == value && i !in d.dead;
      SlotIsUnique(d, i);
    }
  }

  /** A list of spends goes through exactly when its values are distinct and live, and then it buries
      exactly their slots. */
  lemma {:induction false} SpentAllIs(d: Dump, values: seq<string>)
    requires d.WellFormed()
    ensures SpentAll(d, values).Some? <==> NoRepeats(values) && forall v <- values :: d.Live(v)
    ensures SpentAll(d, values).Some? ==> (forall v <- values :: v in d.items)
                                          && SpentAll(d, values).value == d.(dead := d.dead + SlotsOf(d.items, values))
    decreases |values|
  {
    hide Slot, Dump.WellFormed;
    if values == [] {
      assert forall v <- values :: v in d.items;
      assert SlotsOf(d.items, values) == {};
      assert d.dead + {} == d.dead;
    } else {
      var front, last := values[..|values| - 1], values[|values| - 1];
      assert values == front + [last];
      SpentAllIs(d, front);
      NoRepeatsGrows(front, last);
      LiveIsUndeadSlot(d, last);
      if SpentAll(d, front).Some? {
        forall v <- front ensures last in d.items && Slot(d.items, v) == Slot(d.items, last) ==> v == last {
          if last in d.items {
            SlotSame(d.items, v, last);
          }
        }
        if SpentAll(d, values).Some? {
          assert SlotsOf(d.items, values) == SlotsOf(d.items, front) + {Slot(d.items, last)};
        }
      }
    }
  }

  lemma SlotSame(items: seq<string>, a: string, b: string)
    requires a in items && b in items
    ensures Slot(items, a) == Slot(items, b) ==> a == b
  {
  }

  lemma {:induction false} AddedAllIs(d: Dump, values: seq<string>)
    ensures AddedAll(d, values).Some? <==> NoRepeats(values) && forall v <- values :: v !in d.items
    ensures AddedAll(d, values).Some? ==> AddedAll(d, values).value == d.(items := d.items + values)
    decreases |values|
  {
    if values == [] {
      assert d.items + [] == d.items;
    } else {
      var front, last := values[..|values| - 1], values[|values| - 1];
      assert values == front + [last];
      AddedAllIs(d, front);
      NoRepeatsGrows(front, last);
      assert d.items + values == d.items + front + [last];
    }
  }

  lemma {:induction false} SlotInPrefix(items: seq<string>, more: seq<string>, value: string)
    requires value in items
    ensures Slot(items + more, value) == Slot(items, value)
  {
    assert (items + more)[0] == items[0];
    if items[0] != value {
      assert (items + more)[1..] == items[1..] + more;
      SlotInPrefix(items[1..], more, value);
    }
  }

  lemma {:induction false} UnspentAllIs(d: Dump, values: seq<string>)
    requires d.WellFormed() && NoRepeats(values)
    requires forall v <- values :: v in d.items && Slot(d.items, v) in d.dead
    ensures UnspentAll(d, values) == Some(d.(dead := d.dead - SlotsOf(d.items, values)))
    decreases |values|
  {
    hide Slot, NoRepeats;
    if values == [] {
      assert SlotsOf(d.items, values) == {};
      assert d.dead - {} == d.dead;
    } else {
      var front, last := values[..|values| - 1], values[|values| - 1];
      assert values == front + [last];
      NoRepeatsGrows(front, last);
      UnspentAllIs(d, front);
      forall v <- front ensures Slot(d.items, v) != Slot(d.items, last) {
        SlotSame(d.items, v, last);
      }
      assert SlotsOf(d.items, values) == SlotsOf(d.items, front) + {Slot(d.items, last)};
      assert d.dead - SlotsOf(d.items, front) - {Slot(d.items, last)} == d.dead - SlotsOf(d.items, values);
    }
  }

  /** Spending a delta's inputs and adding its outputs, then unspending the inputs and truncating the
      outputs, restores the earlier dump; both roots are functions of the dump. */
  lemma UndoRestores(d: Dump, spent: seq<string>, created: seq<string>)
    requires d.WellFormed()
    requires SpentAll(d, spent).Some? && AddedAll(SpentAll(d, spent).value, created).Some?
    ensures var after := AddedAll(SpentAll(d, spent).value, created).value;
            UnspentAll(after, spent).Some? && Truncated(UnspentAll(after, spent).value, |created|) == Some(d)
  {
    SpentAllIs(d, spent);
    var mid := SpentAll(d, spent).value;
    AddedAllIs(mid, created);
    var after := AddedAll(mid, created).value;
    forall v <- spent ensures v in after.items && Slot(after.items, v) == Slot(d.items, v) {
      SlotInPrefix(d.items, created, v);
    }
    AddedKeepsForm(mid, created);
    UnspentAllIs(after, spent);
    assert SlotsOf(after.items, spent) == SlotsOf(d.items, spent);
    forall v <- spent ensures Slot(d.items, v) !in d.dead {
      LiveIsUndeadSlot(d, v);
    }
    assert d.dead + SlotsOf(d.items, spent) - SlotsOf(d.items, spent) == d.dead;
    assert after.items[..|d.items|] == d.items;
  }

  lemma AddedKeepsForm(d: Dump, values: seq<string>)
    requires d.WellFormed() && AddedAll(d, values).Some?
    ensures AddedAll(d, values).value.WellFormed()
  {
    AddedAllIs(d, values);
    var items := d.items + values;
    forall i, j | 0 <= i < j < |items| ensures items[i] != items[j] {
      if i < |d.items| <= j {
        assert values[j - |d.items|] in values;
        assert items[i] in d.items;
      }
    }
  }

  /** Unspending is the inverse of spending, and nothing else: it succeeds exactly where some set spends its way to this
      one. */
  lemma UnspentIff(d: Dump, value: string, e: Dump)
    requires d.WellFormed()
    ensures Unspent(d, value) == Some(e) <==> e.WellFormed() && Spent(e, value) == Some(d)
  {
    if e.WellFormed() && Spent(e, value) == Some(d) {
      assert d.dead - {Slot(d.items, value)} == e.dead;
    }
    if Unspent(d, value) == Some(e) {
      assert e.dead + {Slot(d.items, value)} == d.dead;
    }
  }

  /** Truncating is the inverse of adding a list: it succeeds exactly where adding the last values leads here. */
  lemma TruncatedIff(d: Dump, count: nat, e: Dump)
    requires d.WellFormed() && count <= |d.items|
    ensures Truncated(d, count) == Some(e)
            <==> e.WellFormed() && AddedAll(e, d.items[|d.items| - count..]) == Some(d)
  {
    hide Dump.WellFormed, AddedAll, Truncated;
    if Truncated(d, count) == Some(e) {
      CutIsAdded(d, count, e);
    }
    if e.WellFormed() && AddedAll(e, d.items[|d.items| - count..]) == Some(d) {
      AddedIsCut(d, count, e);
    }
  }

  lemma CutIsAdded(d: Dump, count: nat, e: Dump)
    requires d.WellFormed() && count <= |d.items| && Truncated(d, count) == Some(e)
    ensures e.WellFormed() && AddedAll(e, d.items[|d.items| - count..]) == Some(d)
  {
    hide Dump.WellFormed, AddedAll, NoRepeats;
    var n := |d.items| - count;
    CutRepeatsNothing(d, n);
    CutIsWellFormed(d, n, e);
    AddedAllIs(e, d.items[n..]);
    assert e.items + d.items[n..] == d.items;
  }

  lemma CutRepeatsNothing(d: Dump, n: nat)
    requires d.WellFormed() && n <= |d.items|
    ensures NoRepeats(d.items[n..]) && forall v <- d.items[n..] :: v !in d.items[..n]
  {
    forall j | n <= j < |d.items| ensures d.items[j] !in d.items[..n] {
    }
  }

  lemma CutIsWellFormed(d: Dump, n: nat, e: Dump)
    requires d.WellFormed() && n <= |d.items| && e == d.(items := d.items[..n]) && forall p <- d.dead :: p < n
    ensures e.WellFormed()
  {
    forall i, j | 0 <= i < j < n ensures e.items[i] != e.items[j] {
      assert d.items[i] != d.items[j];
    }
  }

  lemma AddedIsCut(d: Dump, count: nat, e: Dump)
    requires d.WellFormed() && e.WellFormed() && count <= |d.items|
    requires AddedAll(e, d.items[|d.items| - count..]) == Some(d)
    ensures Truncated(d, count) == Some(e)
  {
    AddedAllIs(e, d.items[|d.items| - count..]);
    assert d.items[..|d.items| - count] == e.items;
  }
}
