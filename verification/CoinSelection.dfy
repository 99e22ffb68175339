/**
 Which notes pay an amount (wallet/store.py, `Wallet.select`): notes of one partition, and as few as any choice of one
 partition's notes could do with.
 */
module CoinSelection {
  import opened Basics
  import S = Seats
  import D = Distances

  const MAX_INPUTS := 16

  /** A note the wallet holds, and the partition it can be spent in. */
  datatype Held = Held(key: nat, value: nat, partition: nat)

  datatype Selection = Selection(chosen: seq<Held>, total: nat, partition: nat)
  datatype Shortfall = BalanceTooLow | NoSingleGrid

  ghost function SumOf(s: set<Held>): nat {
    if s == {} then 0
    else
      var h :| h in s;
      h.value + SumOf(s - {h})
  }

  lemma {:induction false} SumWithout(s: set<Held>, x: Held)
    requires x in s
    ensures SumOf(s) == x.value + SumOf(s - {x})
    decreases |s|
  {
    var h :| h in s && SumOf(s) == h.value + SumOf(s - {h});
    if h != x {
      SumWithout(s - {h}, x);
      SumWithout(s - {x}, h);
      assert s - {h} - {x} == s - {x} - {h};
    }
  }

  function Total(order: seq<Held>): nat {
    if order == [] then 0 else Total(order[..|order| - 1]) + order[|order| - 1].value
  }

  lemma {:induction false} TotalIsSum(order: seq<Held>)
    requires S.Distinct(order)
    ensures SumOf(S.SetOf(order)) == Total(order) && |S.SetOf(order)| == |order|
  {
    if order == [] {
      assert S.SetOf(order) == {};
    } else {
      var front, last := order[..|order| - 1], order[|order| - 1];
      assert order == front + [last];
      TotalIsSum(front);
      assert S.SetOf(order) == S.SetOf(front) + {last};
      SumWithout(S.SetOf(order), last);
      assert S.SetOf(order) - {last} == S.SetOf(front);
    }
  }

  ghost predicate LargestFirst(order: seq<Held>) {
    S.Distinct(order) && forall i, j :: 0 <= i < j < |order| ==> order[i].value >= order[j].value
  }

  lemma TotalNext(order: seq<Held>, k: nat)
    requires k < |order|
    ensures Total(order[..k + 1]) == Total(order[..k]) + order[k].value
  {
    assert order[..k + 1][..k] == order[..k];
  }

  lemma Split(order: seq<Held>, some: set<Held>)
    requires order != [] && LargestFirst(order) && some <= S.SetOf(order)
    ensures LargestFirst(order[..|order| - 1]) && some - {order[|order| - 1]} <= S.SetOf(order[..|order| - 1])
    ensures forall k | 0 <= k < |order| :: order[k].value >= order[|order| - 1].value
    ensures forall k | 0 <= k < |order| :: order[..|order| - 1][..k] == order[..k]
  {
  }

  /** No k notes are worth more than the first k. */
  lemma {:induction false} PrefixIsRichest(order: seq<Held>, some: set<Held>)
    requires LargestFirst(order) && some <= S.SetOf(order)
    ensures |some| <= |order| && SumOf(some) <= Total(order[..|some|])
  {
    hide LargestFirst, Total, SumOf;
    if order == [] {
      NothingSums();
      assert some == {};
    } else {
      var last := order[|order| - 1];
      var rest := some - {last};
      Split(order, some);
      PrefixIsRichest(order[..|order| - 1], rest);
      if last in some {
        SumWithout(some, last);
        TotalNext(order, |rest|);
      } else {
        assert rest == some;
      }
    }
  }

  lemma NothingSums()
    ensures SumOf({}) == 0 && Total([]) == 0
  {
  }

  lemma {:induction false} TotalGrows(order: seq<Held>, i: nat, j: nat)
    requires i <= j <= |order|
    ensures Total(order[..i]) <= Total(order[..j])
  {
    if i < j {
      TotalGrows(order, i, j - 1);
      assert order[..j][..j - 1] == order[..j - 1];
    }
  }

  /** How many notes the largest-first loop takes. */
  ghost predicate StopsAt(order: seq<Held>, amount: int, k: nat) {
    && k <= |order| && (forall j | 0 <= j < k :: Total(order[..j]) < amount)
    && (k == |order| || Total(order[..k]) >= amount)
  }

  /** Largest first is optimal: where the loop covers the amount nothing smaller does, and where it does not nothing
      does. */
  lemma GreedyIsOptimal(order: seq<Held>, amount: int, k: nat, some: set<Held>)
    requires LargestFirst(order) && StopsAt(order, amount, k) && some <= S.SetOf(order) && SumOf(some) >= amount
    ensures Total(order[..k]) >= amount && k <= |some|
  {
    PrefixIsRichest(order, some);
    if k == |order| {
      TotalGrows(order, |some|, k);
    }
  }

  method Largest(some: set<Held>) returns (first: Held)
    requires some != {}
    ensures first in some && forall h <- some :: h.value <= first.value
  {
    var rest := some;
    first :| first in some;
    while rest != {}
      invariant first in some && rest <= some
      invariant forall h :: h in some && h !in rest ==> h.value <= first.value
      decreases rest
    {
      var h :| h in rest;
      first := if h.value > first.value then h else first;
      rest := rest - {h};
    }
  }

  /** `sorted(pool, key=value, reverse=True)`. */
  method SortByValue(pool: set<Held>) returns (order: seq<Held>)
    ensures LargestFirst(order) && S.SetOf(order) == pool
  {
    var left := pool;
    order := [];
    while left != {}
      invariant left <= pool && LargestFirst(order)
      invariant forall h :: h in order <==> h in pool && h !in left
      invariant forall a, b {:trigger a in order, b in left} :: a in order && b in left ==> a.value >= b.value
      decreases left
    {
      var first := Largest(left);
      assert forall i | 0 <= i < |order| :: order[i] in order;
      order := order + [first];
      left := left - {first};
    }
  }

  ghost function Pool(unspent: set<Held>, part: nat): set<Held> {
    set h | h in unspent && h.partition == part
  }

  /** Some notes of one partition the wallet holds notes in, enough and few enough. */
  ghost predicate Pays(unspent: set<Held>, amount: int, part: nat, some: set<Held>) {
    && (exists h :: h in unspent && h.partition == part) && some <= Pool(unspent, part) && SumOf(some) >= amount
  }

  /** The loop over one partition. */
  method Greedy(unspent: set<Held>, amount: int, part: nat) returns (chosen: seq<Held>, total: nat)
    ensures S.Distinct(chosen) && S.SetOf(chosen) <= Pool(unspent, part)
            && total == Total(chosen) == SumOf(S.SetOf(chosen))
    ensures forall some {:trigger Pays(unspent, amount, part, some)} :: Pays(unspent, amount, part, some) ==>
            total >= amount && |chosen| <= |some|
  {
    var order := SortByValue(set h | h in unspent && h.partition == part);
    var k := 0;
    total := 0;
    while k < |order| && total < amount
      invariant k <= |order| && total == Total(order[..k]) && forall j | 0 <= j < k :: Total(order[..j]) < amount
    {
      assert order[..k + 1][..k] == order[..k];
      total := total + order[k].value;
      k := k + 1;
    }
    chosen := order[..k];
    TotalIsSum(chosen);
    forall some | Pays(unspent, amount, part, some) ensures total >= amount && |chosen| <= |some| {
      GreedyIsOptimal(order, amount, k, some);
    }
  }

  ghost predicate IsSelection(unspent: set<Held>, amount: int, r: Selection) {
    && S.Distinct(r.chosen) && Pays(unspent, amount, r.partition, S.SetOf(r.chosen))
    && r.total == SumOf(S.SetOf(r.chosen)) && |r.chosen| <= MAX_INPUTS
  }

  /** What the wallet picks: notes of one partition that cover the amount, no more of them than any one partition's
      notes could do it with. It gives up exactly when no partition has at most MAX_INPUTS notes that cover it. */
  method Select(unspent: set<Held>, amount: int) returns (r: Result<Selection, Shortfall>)
    ensures r.Ok? ==> IsSelection(unspent, amount, r.value)
    ensures r.Ok? ==> forall part, some {:trigger Pays(unspent, amount, part, some)} ::
            Pays(unspent, amount, part, some) ==> |r.value.chosen| <= |some|
    ensures r.Err? <==> forall part, some {:trigger Pays(unspent, amount, part, some)} ::
            Pays(unspent, amount, part, some) ==> |some| > MAX_INPUTS
    ensures r.Err? ==> (r.error == BalanceTooLow <==> SumOf(unspent) < amount)
  {
    hide SumOf, Total;
    var best: Option<Selection> := None;
    var parts := S.Sorted(set h | h in unspent :: h.partition);
    ghost var done: set<nat> := {};
    for i := 0 to |parts|
      invariant done == S.SetOf(parts[..i])
      invariant best.Some? ==> IsSelection(unspent, amount, best.value)
      invariant forall part, some {:trigger Pays(unspent, amount, part, some)} ::
                part in done
                && Pays(unspent, amount, part, some) ==>
                  if best.Some? then |best.value.chosen| <= |some| else |some| > MAX_INPUTS
    {
      var part := parts[i];
      assert parts[..i + 1] == parts[..i] + [part] && part in S.SetOf(parts);
      var chosen, total := Greedy(unspent, amount, part);
      done := done + {part};
      if total < amount || |chosen| > MAX_INPUTS {
        continue;
      }
      assert Pays(unspent, amount, part, S.SetOf(chosen));
      if best.None? || |chosen| < |best.value.chosen| || (|chosen| == |best.value.chosen| && total < best.value.total) {
        best := Some(Selection(chosen, total, part));
      }
    }
    assert parts[..|parts|] == parts;
    forall part, some | Pays(unspent, amount, part, some) ensures part in done {
      var h :| h in unspent && h.partition == part;
      assert part in S.SetOf(parts);
    }
    if best.Some? {
      SizeOf(best.value.chosen);
      return Ok(best.value);
    }
    var order := SortByValue(unspent);
    TotalIsSum(order);
    var balance := Balance(order);
    return Err(if balance < amount then BalanceTooLow else NoSingleGrid);
  }

  lemma SizeOf(chosen: seq<Held>)
    requires S.Distinct(chosen)
    ensures |S.SetOf(chosen)| == |chosen|
  {
    TotalIsSum(chosen);
  }

  method Balance(order: seq<Held>) returns (total: nat)
    ensures total == Total(order)
  {
    total := 0;
    for i := 0 to |order|
      invariant total == Total(order[..i])
    {
      assert order[..i + 1][..i] == order[..i];
      total := total + order[i].value;
    }
    assert order[..|order|] == order;
  }
}
