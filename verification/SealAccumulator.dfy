/**
 The append-and-tombstone set of chain/seal.py: an ordered list of values, an index into it, the
 set of spent slots, the seal tree's leaves and the witness tree over the same leaves.
 */
module SealAccumulator {
  import opened Basics
  import opened Digests
  import opened WitnessProof
  import opened WitnessTree

  const TOMBSTONE := "fin6:spent"

  /** `_seal_hash`, injective on its text. */
  datatype Seal = SealHash(text: string)

  function DomainLeaf(name: string): Seal {
    SealHash("__root__:" + name)
  }

  function LeafOf(name: string, value: string): Seal {
    SealHash(name + ":" + value)
  }

  function Buried(value: string): string {
    TOMBSTONE + ":" + value
  }

  /** The whole logical state: the ordered values, and which slots are spent. */
  datatype Dump = Dump(items: seq<string>, dead: set<nat>) {
    ghost predicate WellFormed() {
      && (forall i, j :: 0 <= i < j < |items| ==> items[i] != items[j])
      && (forall p <- dead :: p < |items|)
    }

    predicate Live(value: string) {
      exists i: nat :: i < |items| && items[i] == value && i !in dead
    }

    /** What the slot's leaf says in both trees. */
    function SlotLeaf(name: string, i: nat): Seal
      requires i < |items|
    {
      LeafOf(name, if i in dead then Buried(items[i]) else items[i])
    }

    /** The leaves of both trees: the domain leaf, then one per slot. */
    function Leaves(name: string): (r: seq<Seal>)
      ensures |r| == |items| + 1 && r[0] == DomainLeaf(name)
      ensures forall i | 0 <= i < |items| :: r[i + 1] == SlotLeaf(name, i)
    {
      seq(|items| + 1, n requires 0 <= n < |items| + 1 => if n == 0 then DomainLeaf(name) else SlotLeaf(name, n - 1))
    }

    /** The leaf map the witness tree commits to. */
    function Witnessed(name: string): map<nat, Seal> {
      Positioned(0, Leaves(name))
    }
  }

  // ---- the operations on the logical state ----

  function Added(d: Dump, value: string): Option<Dump> {
    if value in d.items then None else Some(d.(items := d.items + [value]))
  }

  /** The first slot holding `value`. */
  function Slot(items: seq<string>, value: string): (r: nat)
    requires value in items
    ensures r < |items| && items[r] == value
    ensures forall j | 0 <= j < r :: items[j] != value
  {
    if items[0] == value then 0 else Slot(items[1..], value) + 1
  }

  function Spent(d: Dump, value: string): Option<Dump> {
    if value !in d.items || Slot(d.items, value) in d.dead then None
    else Some(d.(dead := d.dead + {Slot(d.items, value)}))
  }

  function Unspent(d: Dump, value: string): Option<Dump> {
    if value !in d.items || Slot(d.items, value) !in d.dead then None
    else Some(d.(dead := d.dead - {Slot(d.items, value)}))
  }

  function Truncated(d: Dump, count: int): Option<Dump> {
    if !(0 <= count <= |d.items|) || exists p <- d.dead :: |d.items| - count <= p then None
    else Some(d.(items := d.items[..|d.items| - count]))
  }

  lemma {:induction false} PositionedAt<V>(start: nat, values: seq<V>)
    ensures forall p: nat :: p in Positioned(start, values) <==> start <= p < start + |values|
    ensures forall p: nat | start <= p < start + |values| :: Positioned(start, values)[p] == values[p - start]
  {
    if values != [] {
      PositionedAt(start, values[..|values| - 1]);
    }
  }

  lemma SlotIsUnique(d: Dump, i: nat)
    requires d.WellFormed() && i < |d.items|
    ensures Slot(d.items, d.items[i]) == i
  {
    var r := Slot(d.items, d.items[i]);
    assert !(r < i) && !(i < r);
  }

  /** Changing the standing of one slot rewrites one leaf of both trees. */
  lemma SlotRewritten(name: string, before: Dump, after: Dump, pos: nat)
    requires before.items == after.items && pos < |before.items|
    requires forall i: nat | i != pos :: i in before.dead <==> i in after.dead
    ensures after.Leaves(name) == before.Leaves(name)[pos + 1 := after.SlotLeaf(name, pos)]
    ensures after.Witnessed(name) == before.Witnessed(name)[pos + 1 := after.SlotLeaf(name, pos)]
  {
    forall i | 0 <= i < |before.items| && i != pos ensures before.SlotLeaf(name, i) == after.SlotLeaf(name, i) {
    }
    assert after.Leaves(name) == before.Leaves(name)[pos + 1 := after.SlotLeaf(name, pos)];
    PositionedAt(0, before.Leaves(name));
    PositionedAt(0, after.Leaves(name));
  }

  /** Appending a slot appends one leaf to both trees. */
  lemma SlotAppended(name: string, before: Dump, value: string)
    requires before.WellFormed()
    ensures var after := before.(items := before.items + [value]);
            && after.Leaves(name) == before.Leaves(name) + [LeafOf(name, value)]
            && after.Witnessed(name) == before.Witnessed(name)[|before.items| + 1 := LeafOf(name, value)]
  {
    var after := before.(items := before.items + [value]);
    forall i | 0 <= i < |before.items| ensures before.SlotLeaf(name, i) == after.SlotLeaf(name, i) {
    }
    assert after.Leaves(name) == before.Leaves(name) + [LeafOf(name, value)];
    PositionedAt(0, before.Leaves(name));
    PositionedAt(0, after.Leaves(name));
  }

  function Deindexed(index: map<string, nat>, items: seq<string>, low: nat, high: nat): map<string, nat>
    requires low <= high <= |items|
  {
    index - set i | low <= i < high :: items[i]
  }

  /** Deleting the entries of the cut slots leaves the index of the kept ones. */
  lemma CutIndex(items: seq<string>, index: map<string, nat>, cut: nat, after: map<string, nat>)
    requires cut <= |items| && Dump(items, {}).WellFormed()
    requires (forall v :: v in index <==> v in items) && forall i | 0 <= i < |items| :: index[items[i]] == i
    requires after == Deindexed(index, items, cut, |items|)
    ensures forall v :: v in after <==> v in items[..cut]
    ensures forall i | 0 <= i < cut :: after[items[i]] == i
  {
    forall v ensures v in after <==> v in items[..cut] {
      if v in items {
        var i := index[v];
        assert items[i] == v by {
          var j :| 0 <= j < |items| && items[j] == v;
        }
        if i < cut {
          assert items[..cut][i] == v;
        }
      }
    }
  }

  datatype Outcome =
    | Done
    | AlreadyPresent
    | NotPresent
    | AlreadySpent
    | NotSpent
    | BadCount
    | SpentSlot(slot: nat)
    | OutOfRange
    | Duplicate

  class SealAccumulator {
    const name: string
    const height: nat
    var items: seq<string>
    var index: map<string, nat>
    var dead: set<nat>
    var tree: seq<Seal>
    var witnessTree: WitnessTree<Seal>

    ghost function State(): Dump
      reads this
    {
      Dump(items, dead)
    }

    /** The index inverts the list, and the slots it names exist. */
    ghost predicate Indexed()
      reads this
    {
      && State().WellFormed()
      && (forall v :: v in index <==> v in items)
      && (forall i | 0 <= i < |items| :: items[i] in index && index[items[i]] == i)
    }

    ghost predicate Valid()
      reads this, witnessTree
    {
      && Indexed()
      && tree == State().Leaves(name)
      && witnessTree.Valid() && witnessTree.Packed() && witnessTree.height == height
      && witnessTree.leaves == State().Witnessed(name)
      && witnessTree.size == |items| + 1
    }

    constructor (name: string, height: nat)
      ensures Valid() && fresh(witnessTree) && State() == Dump([], {})
      ensures this.name == name && this.height == height
    {
      this.name := name;
      this.height := height;
      items, index, dead, tree := [], map[], {}, [DomainLeaf(name)];
      witnessTree := new WitnessTree(height);
      new;
      var ok := witnessTree.Append(DomainLeaf(name));
      PositionedAt(0, State().Leaves(name));
      assert tree == State().Leaves(name);
      assert witnessTree.leaves == State().Witnessed(name);
    }

    /** Append a new value. A full witness tree refuses only after the list, the index and the seal
        tree have moved. */
    method Add(value: string) returns (r: Outcome)
      requires Valid()
      modifies this, witnessTree
      ensures witnessTree == old(witnessTree)
      ensures r.Done? || r.AlreadyPresent? || r.OutOfRange?
      ensures r.Done? <==> Added(old(State()), value).Some? && |old(items)| + 1 < Pow2(height)
      ensures r.Done? ==> Valid() && State() == Added(old(State()), value).value
      ensures r.AlreadyPresent? <==> Added(old(State()), value).None?
      ensures r.AlreadyPresent? ==> Valid() && State() == old(State())
      ensures r.OutOfRange? ==> State() == Added(old(State()), value).value && !Valid()
    {
      hide Dump.Witnessed, Sub, Pow2, DomainLeaf, WitnessTree.Valid, Dump.SlotLeaf, Positioned, Dump.Leaves, Default;
      hide Canonical, LeafOf;
      if value in index {
        return AlreadyPresent;
      }
      var pos := |items|;
      ghost var before := State();
      items := items + [value];
      index := index[value := pos];
      var leaf := LeafOf(name, value);
      tree := tree + [leaf];
      SlotAppended(name, before, value);
      var ok := witnessTree.Set(pos + 1, leaf);
      if !ok {
        return OutOfRange;
      }
      return Done;
    }

    /** Tombstone a live value in place. */
    method Spend(value: string) returns (r: Outcome)
      requires Valid()
      modifies this, witnessTree
      ensures Valid() && witnessTree == old(witnessTree)
      ensures r.Done? <==> Spent(old(State()), value).Some?
      ensures State() == if r.Done? then Spent(old(State()), value).value else old(State())
      ensures r.NotPresent? <==> value !in items
      ensures r.Done? || r.NotPresent? || r.AlreadySpent?
    {
      hide Dump.Leaves, Slot, Buried, DomainLeaf, Positioned, Dump.Witnessed, WitnessTree.Valid, LeafOf, Sub, Pow2;
      if value !in index {
        return NotPresent;
      }
      var pos := index[value];
      ghost var before := State();
      SlotIsUnique(before, pos);
      if pos in dead {
        return AlreadySpent;
      }
      dead := dead + {pos};
      var tomb := LeafOf(name, Buried(value));
      SlotRewritten(name, before, State(), pos);
      tree := tree[pos + 1 := tomb];
      var ok := witnessTree.Set(pos + 1, tomb);
      return Done;
    }

    /** Put a spent slot back. */
    method Unspend(value: string) returns (r: Outcome)
      requires Valid()
      modifies this, witnessTree
      ensures Valid() && witnessTree == old(witnessTree)
      ensures r.Done? <==> Unspent(old(State()), value).Some?
      ensures State() == if r.Done? then Unspent(old(State()), value).value else old(State())
      ensures r.NotPresent? <==> value !in items
      ensures r.Done? || r.NotPresent? || r.NotSpent?
    {
      hide Default, Slot, Dump.Witnessed, Dump.Leaves, Positioned, Sub, WitnessTree.Valid;
      if value !in index {
        return NotPresent;
      }
      var pos := index[value];
      ghost var before := State();
      SlotIsUnique(before, pos);
      if pos !in dead {
        return NotSpent;
      }
      dead := dead - {pos};
      var live := LeafOf(name, value);
      SlotRewritten(name, before, State(), pos);
      tree := tree[pos + 1 := live];
      var ok := witnessTree.Set(pos + 1, live);
      return Done;
    }

    /** Build both trees afresh from the list. On a valid accumulator it changes nothing: the trees
        kept in place are, node for node, the ones a batch build makes. */
    method Rebuild()
      requires Indexed() && |items| + 1 <= Pow2(height)
      modifies this`tree, this`witnessTree
      ensures Valid() && fresh(witnessTree)
      ensures old(Valid()) ==>
                tree == old(tree) && witnessTree.nodes == old(witnessTree.nodes)
                && witnessTree.size == old(witnessTree.size)
    {
      hide Positioned, Canonical, Default, Pow2, Buried, DomainLeaf, Sub;
      ghost var d := State();
      var leaves := [DomainLeaf(name)];
      for i := 0 to |items|
        invariant leaves == d.Leaves(name)[..i + 1]
      {
        leaves := leaves + [LeafOf(name, if i in dead then Buried(items[i]) else items[i])];
      }
      tree := leaves;
      witnessTree := new WitnessTree(height);
      var ok := witnessTree.Extend(leaves);
      PositionedAt(0, leaves);
      assert leaves == d.Leaves(name);
      assert map[] + Positioned(0, leaves) == Positioned(0, leaves);
      if old(Valid()) {
        CanonicalIsUnique(witnessTree.nodes, old(witnessTree.nodes), witnessTree.leaves, height);
      }
    }

    /** Delete the index entries from slot `cut` on, stopping at the first spent slot. */
    method DropIndexFrom(cut: nat) returns (spent: Option<nat>)
      requires cut <= |items|
      modifies this`index
      ensures spent.None? ==>
                (forall p <- dead :: p < cut || |items| <= p) && index == Deindexed(old(index), items, cut, |items|)
      ensures spent.Some? ==> spent.value in dead && cut <= spent.value < |items|
      ensures spent.Some? ==>
                (forall p <- dead :: p < cut || spent.value <= p)
                && index == Deindexed(old(index), items, cut, spent.value)
    {
      for pos := cut to |items|
        invariant forall p <- dead :: p < cut || pos <= p
        invariant index == Deindexed(old(index), items, cut, pos)
      {
        if pos in dead {
          return Some(pos);
        }
        index := index - {items[pos]};
      }
      return None;
    }

    /** An entry of the list missing from the index is what an interrupted truncation leaves. */
    lemma NotIndexed(slot: nat)
      requires slot < |items| && items[slot] !in index
      ensures !Valid()
    {
    }

    lemma IndexedAfterCut(was: map<string, nat>, items0: seq<string>, cut: nat)
      requires cut <= |items0| && items == items0[..cut] && Dump(items0, {}).WellFormed()
      requires (forall v :: v in was <==> v in items0) && forall i | 0 <= i < |items0| :: was[items0[i]] == i
      requires index == Deindexed(was, items0, cut, |items0|)
      requires forall p <- dead :: p < cut
      ensures Indexed()
    {
      CutIndex(items0, was, cut, index);
      forall i | 0 <= i < |items| ensures items[i] in index && index[items[i]] == i {
        assert items[i] in items;
        assert items[i] == items0[i];
      }
      forall i, j | 0 <= i < j < |items| ensures items[i] != items[j] {
        assert items[i] == items0[i] && items[j] == items0[j];
      }
    }

    /** The part of a truncation after the count is accepted. */
    method CutAt(cut: nat) returns (spent: Option<nat>)
      requires Valid() && cut <= |items|
      modifies this
      ensures spent.None? ==> Valid() && fresh(witnessTree) && State() == Dump(old(items)[..cut], old(dead))
      ensures spent.None? ==> forall p <- dead :: p < cut
      ensures spent.Some? ==> State() == old(State()) && tree == old(tree) && witnessTree == old(witnessTree)
      ensures spent.Some? ==> spent.value in dead && cut <= spent.value < |items|
      ensures spent.Some? ==>
                (forall p <- dead :: p < cut || spent.value <= p)
                && index == Deindexed(old(index), items, cut, spent.value)
    {
      spent := DropIndexFrom(cut);
      if spent.None? {
        items := items[..cut];
        IndexedAfterCut(old(index), old(items), cut);
        Rebuild();
      }
    }

    /** Drop the last `count` values. A refusal for a spent slot comes after the index entries of the
        slots before it are gone, so it leaves a valid set only when that slot is the first cut. */
    method Truncate(count: int) returns (r: Outcome)
      requires Valid()
      modifies this
      ensures witnessTree == old(witnessTree) || fresh(witnessTree)
      ensures r.Done? || r.BadCount? || r.SpentSlot?
      ensures r.Done? <==> Truncated(old(State()), count).Some?
      ensures r.Done? ==> Valid() && State() == Truncated(old(State()), count).value
      ensures r.BadCount? ==> !(0 <= count <= |items|) && unchanged(this) && Valid()
      ensures r.SpentSlot? ==> State() == old(State()) && tree == old(tree) && witnessTree == old(witnessTree)
      ensures r.SpentSlot? ==> r.slot in dead && 0 <= |items| - count <= r.slot < |items|
      ensures r.SpentSlot? ==>
                (forall p <- dead :: p < |items| - count || r.slot <= p)
                && index == Deindexed(old(index), items, |items| - count, r.slot)
      ensures r.SpentSlot? ==> (Valid() <==> r.slot == |items| - count)
    {
      hide WitnessTree.Valid, WitnessTree.Packed, Dump.Witnessed, Dump.Leaves, Canonical, Pow2, Positioned;
      hide Dump.SlotLeaf, DomainLeaf, Sub, Default;
      if !(0 <= count <= |items|) {
        return BadCount;
      }
      if count == 0 {
        assert items[..|items|] == items;
        return Done;
      }
      var cut := |items| - count;
      var spent := CutAt(cut);
      if spent.None? {
        return Done;
      }
      if spent.value > cut {
        NotIndexed(cut);
      } else {
        assert index == old(index);
      }
      return SpentSlot(spent.value);
    }

    predicate Contains(value: string)
      requires Valid()
      reads this, witnessTree
      ensures Contains(value) <==> State().Live(value)
    {
      value in index && index[value] !in dead
    }

    predicate EverContained(value: string)
      requires Valid()
      reads this, witnessTree
      ensures EverContained(value) <==> value in items
    {
      value in index
    }

    /** A proof that `value` is live here, or None when it is not. */
    method WitnessPath(value: string) returns (r: Option<Proof<Seal>>)
      requires Valid()
      ensures r.Some? <==> State().Live(value)
      ensures r.Some? ==> Accepts(LeafOf(name, value), r.value, Root(State().Witnessed(name), height))
    {
      hide Dump.WellFormed, Accepts, Climb, Pow2, Positioned, Buried, Canonical, Expand, Sub, Join;
      if !Contains(value) {
        return None;
      }
      var pos := index[value];
      PositionedAt(0, State().Leaves(name));
      var p := witnessTree.Path(pos + 1);
      return Some(p);
    }
  }

  ghost predicate Distinct(values: seq<string>) {
    forall i, j :: 0 <= i < j < |values| ==> values[i] != values[j]
  }

  lemma DistinctGrows(values: seq<string>, i: nat)
    requires i < |values|
    ensures Distinct(values[..i + 1]) <==> Distinct(values[..i]) && values[i] !in values[..i]
  {
    var a, b := values[..i + 1], values[..i];
    assert a == b + [values[i]];
    if values[i] in b {
      var j :| 0 <= j < i && b[j] == values[i];
      assert a[j] == a[i];
    }
  }

  /** The index built from the first `i` values, later entries overwriting earlier ones. */
  ghost predicate IndexesPrefix(index: map<string, nat>, values: seq<string>, i: nat)
    requires i <= |values|
  {
    && (forall v :: v in index <==> v in values[..i])
    && (forall v <- index :: index[v] < i && values[index[v]] == v)
    && |index| <= i
    && (|index| == i <==> Distinct(values[..i]))
  }

  lemma NothingIndexed(values: seq<string>)
    ensures IndexesPrefix(map[], values, 0)
  {
  }

  lemma IndexGrows(index: map<string, nat>, values: seq<string>, i: nat)
    requires i < |values| && IndexesPrefix(index, values, i)
    ensures IndexesPrefix(index[values[i] := i], values, i + 1)
  {
    var after := index[values[i] := i];
    DistinctGrows(values, i);
    assert values[..i + 1] == values[..i] + [values[i]];
    assert after.Keys == index.Keys + {values[i]};
    assert |after.Keys| == |index.Keys| + if values[i] in index then 0 else 1;
  }

  /** The index a dump implies, and whether it has as many entries as the list. */
  method IndexOf(values: seq<string>) returns (index: map<string, nat>, distinct: bool)
    ensures forall v :: v in index <==> v in values
    ensures distinct <==> Distinct(values)
    ensures distinct ==> forall i | 0 <= i < |values| :: index[values[i]] == i
  {
    hide Distinct, IndexesPrefix;
    index := map[];
    NothingIndexed(values);
    for i := 0 to |values|
      invariant IndexesPrefix(index, values, i)
    {
      IndexGrows(index, values, i);
      index := index[values[i] := i];
    }
    IndexDone(index, values);
    distinct := |index| == |values|;
  }

  /** With as many entries as values the index is their inverse. */
  lemma IndexDone(index: map<string, nat>, values: seq<string>)
    requires IndexesPrefix(index, values, |values|)
    ensures (forall v :: v in index <==> v in values) && (|index| == |values| <==> Distinct(values))
    ensures Distinct(values) ==> forall i | 0 <= i < |values| :: index[values[i]] == i
  {
    assert values[..|values|] == values;
    if Distinct(values) {
      forall i | 0 <= i < |values| ensures index[values[i]] == i {
        assert values[i] in values && values[index[values[i]]] == values[i];
      }
    }
  }

  /** Rebuild from a dump in one pass. */
  method Load(name: string, height: nat, values: seq<string>, dead: set<nat>) returns (r: Outcome, acc: SealAccumulator)
    ensures fresh(acc) && fresh(acc.witnessTree)
    ensures r.Done? <==> Dump(values, dead).WellFormed() && |values| + 1 <= Pow2(height)
    ensures r.Done? ==> acc.Valid() && acc.State() == Dump(values, dead) && acc.name == name && acc.height == height
  {
    acc := new SealAccumulator(name, height);
    acc.items := values;
    var index, distinct := IndexOf(values);
    acc.index := index;
    if !distinct {
      return Duplicate, acc;
    }
    acc.dead := dead;
    if exists p <- dead :: !(0 <= p < |values|) {
      return OutOfRange, acc;
    }
    if |values| + 1 > Pow2(height) {
      return OutOfRange, acc;
    }
    acc.Rebuild();
    return Done, acc;
  }

  /** `clone`: a copy that shares nothing, loaded from the dump. */
  method Clone(of: SealAccumulator) returns (acc: SealAccumulator)
    requires of.Valid()
    ensures fresh(acc) && fresh(acc.witnessTree)
    ensures acc.Valid() && acc.State() == of.State() && acc.name == of.name && acc.height == of.height
  {
    var r;
    r, acc := Load(of.name, of.height, of.items, of.dead);
  }
}
