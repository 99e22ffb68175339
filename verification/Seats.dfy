/**
 The canonical seat order and the bitmap over it (chain/seats.py).

 A node id stands for its rank in the string order, so that sorting ids is sorting naturals.
 */
module Seats {
  import opened Basics

  type NodeId = nat

  datatype SeatError = NotASeat | NotHex | WrongLength | PastLastSeat | AnotherOrder

  /** The text of a bitmap: hex for some bytes, or text that is not hex. */
  datatype HexText = Hex(bytes: seq<bv8>) | Garbled

  ghost predicate StrictlySorted(s: seq<NodeId>) {
    forall i, j :: 0 <= i < j < |s| ==> s[i] < s[j]
  }

  ghost predicate Distinct<T(!new)>(s: seq<T>) {
    forall i, j :: 0 <= i < j < |s| ==> s[i] != s[j]
  }

  function SetOf<T>(s: seq<T>): set<T> {
    set x | x in s
  }

  /** `list.remove(x)`. */
  function Removed<A(==)>(list: seq<A>, x: A): seq<A> {
    if list == [] then [] else if list[0] == x then list[1..] else [list[0]] + Removed(list[1..], x)
  }

  /** `sorted(set(members))`: the least member first. */
  method CanonicalOrder(members: seq<NodeId>) returns (order: seq<NodeId>)
    ensures StrictlySorted(order) && SetOf(order) == SetOf(members)
  {
    order := Sorted(SetOf(members));
  }

  method Sorted(members: set<NodeId>) returns (order: seq<NodeId>)
    ensures StrictlySorted(order) && SetOf(order) == members
  {
    var left := members;
    order := [];
    assert SetOf<NodeId>([]) + left == members;
    while left != {}
      invariant StrictlySorted(order)
      invariant SetOf(order) + left == members
      invariant forall x, y :: x in order && y in left ==> x < y
      decreases left
    {
      ghost var before := order;
      var least := Least(left);
      order := order + [least];
      left := left - {least};
      assert forall x :: x in order <==> x in before || x == least;
      assert forall i | 0 <= i < |before| :: before[i] in before;
    }
  }

  method Least(s: set<NodeId>) returns (least: NodeId)
    requires s != {}
    ensures least in s && forall x <- s :: least <= x
  {
    var rest := s;
    least :| least in s;
    while rest != {}
      invariant least in s && rest <= s
      invariant forall x :: x in s && x !in rest ==> least <= x
      decreases rest
    {
      var x :| x in rest;
      least := if x < least then x else least;
      rest := rest - {x};
    }
  }

  lemma {:induction false} DistinctSize(a: seq<NodeId>)
    requires Distinct(a)
    ensures |SetOf(a)| == |a|
  {
    if a != [] {
      var front, last := a[..|a| - 1], a[|a| - 1];
      assert a == front + [last];
      DistinctSize(front);
      assert SetOf(a) == SetOf(front) + {last};
    }
  }

  /** The order is a function of the set: two sorted lists of one set are the same list. */
  lemma {:induction false} SortedListIsUnique(a: seq<NodeId>, b: seq<NodeId>)
    requires StrictlySorted(a) && StrictlySorted(b) && SetOf(a) == SetOf(b)
    ensures a == b
  {
    if a != [] {
      assert a[|a| - 1] in SetOf(a);
    }
    if b != [] {
      assert b[|b| - 1] in SetOf(b);
    }
    if a != [] && b != [] {
      var x, y := a[|a| - 1], b[|b| - 1];
      assert x in SetOf(b) && y in SetOf(a);
      assert x == y;
      var a', b' := a[..|a| - 1], b[..|b| - 1];
      assert a == a' + [x] && b == b' + [x];
      assert x !in a' && x !in b';
      assert SetOf(a') == SetOf(a) - {x} && SetOf(b') == SetOf(b) - {x};
      SortedListIsUnique(a', b');
    }
  }

  // ---- the bitmap ----

  /** `1 << k` within a byte. */
  function Mask(k: nat): bv8 {
    if k == 0 then 0x01 else if k == 1 then 0x02 else if k == 2 then 0x04 else if k == 3 then 0x08
    else if k == 4 then 0x10 else if k == 5 then 0x20 else if k == 6 then 0x40 else 0x80
  }

  /** `byte >> k & 1`. */
  predicate ByteBit(byte: bv8, k: nat) {
    byte & Mask(k) != 0
  }

  /** Seat i is bit i % 8 of byte i / 8. */
  predicate BitAt(raw: seq<bv8>, i: nat)
    requires i / 8 < |raw|
  {
    ByteBit(raw[i / 8], i % 8)
  }

  /** `raw` is the bitmap of the seats in `names`: the right length, and no bit past the last seat. */
  ghost predicate Encodes(raw: seq<bv8>, names: set<NodeId>, order: seq<NodeId>) {
    && |raw| == (|order| + 7) / 8
    && forall i: nat | i < 8 * |raw| :: BitAt(raw, i) <==> i < |order| && order[i] in names
  }

  lemma ByteFromBits(a: bv8, b: bv8)
    requires forall k: nat | k < 8 :: ByteBit(a, k) <==> ByteBit(b, k)
    ensures a == b
  {
    assert ByteBit(a, 0) <==> ByteBit(b, 0);
    assert ByteBit(a, 1) <==> ByteBit(b, 1);
    assert ByteBit(a, 2) <==> ByteBit(b, 2);
    assert ByteBit(a, 3) <==> ByteBit(b, 3);
    assert ByteBit(a, 4) <==> ByteBit(b, 4);
    assert ByteBit(a, 5) <==> ByteBit(b, 5);
    assert ByteBit(a, 6) <==> ByteBit(b, 6);
    assert ByteBit(a, 7) <==> ByteBit(b, 7);
  }

  lemma SetOneBit(byte: bv8, k: nat, j: nat)
    requires k < 8 && j < 8
    ensures ByteBit(byte | Mask(k), j) <==> j == k || ByteBit(byte, j)
  {
  }

  /** A set of seats has one bitmap. */
  lemma BitmapIsUnique(a: seq<bv8>, b: seq<bv8>, names: set<NodeId>, order: seq<NodeId>)
    requires Encodes(a, names, order) && Encodes(b, names, order)
    ensures a == b
  {
    forall n | 0 <= n < |a| ensures a[n] == b[n] {
      forall k: nat | k < 8 ensures ByteBit(a[n], k) <==> ByteBit(b[n], k) {
        assert (8 * n + k) / 8 == n && (8 * n + k) % 8 == k;
        assert BitAt(a, 8 * n + k) <==> BitAt(b, 8 * n + k);
      }
      ByteFromBits(a[n], b[n]);
    }
  }

  /** `{nid: i for i, nid in enumerate(order)}`. */
  method Positions(order: seq<NodeId>) returns (index: map<NodeId, nat>)
    ensures forall n :: n in index <==> n in order
    ensures forall n <- index :: index[n] < |order| && order[index[n]] == n
  {
    index := map[];
    for i := 0 to |order|
      invariant forall n :: n in index <==> n in order[..i]
      invariant forall n <- index :: index[n] < i && order[index[n]] == n
    {
      index := index[order[i] := i];
    }
    assert order[..|order|] == order;
  }

  lemma BlankEncodesNobody(raw: seq<bv8>, order: seq<NodeId>)
    requires |raw| == (|order| + 7) / 8 && forall n | 0 <= n < |raw| :: raw[n] == 0
    ensures Encodes(raw, SetOf([]), order)
  {
  }

  /** The bitmap of `signers` over `order`, every signer a seat in it. */
  method ToBits(signers: seq<NodeId>, order: seq<NodeId>) returns (r: Result<HexText, SeatError>)
    requires Distinct(order)
    ensures r.Ok? <==> forall s <- signers :: s in order
    ensures r.Ok? ==> r.value.Hex? && Encodes(r.value.bytes, SetOf(signers), order) == true
    ensures r.Err? ==> r.error == NotASeat
  {
    hide Encodes, Distinct;
    var index := Positions(order);
    var raw := new bv8[(|order| + 7) / 8](_ => 0);
    BlankEncodesNobody(raw[..], order);
    ghost var named: set<NodeId> := {};
    assert SetOf<NodeId>([]) == {};
    for n := 0 to |signers|
      invariant Encodes(raw[..], named, order) == true
      invariant named == SetOf(signers[..n]) && named <= SetOf(order)
    {
      if signers[n] !in index {
        assert signers[n] in signers && signers[n] !in order;
        return Err(NotASeat);
      }
      SetSeat(raw, named, order, index[signers[n]]);
      assert signers[..n + 1] == signers[..n] + [signers[n]];
      named := named + {signers[n]};
    }
    assert signers[..|signers|] == signers;
    assert forall s <- signers :: s in SetOf(signers);
    return Ok(Hex(raw[..]));
  }

  /** `raw[i // 8] |= 1 << (i % 8)`. */
  method SetSeat(raw: array<bv8>, ghost named: set<NodeId>, order: seq<NodeId>, i: nat)
    requires Distinct(order) && i < |order| && Encodes(raw[..], named, order) == true
    modifies raw
    ensures Encodes(raw[..], named + {order[i]}, order) == true
  {
    ghost var before := raw[..];
    raw[i / 8] := raw[i / 8] | Mask(i % 8);
    assert raw[..] == before[i / 8 := before[i / 8] | Mask(i % 8)];
    BitAdded(before, named, order, i, raw[..]);
  }

  lemma BitUpdated(before: seq<bv8>, i: nat, j: nat)
    requires i < 8 * |before| && j < 8 * |before|
    ensures BitAt(before[i / 8 := before[i / 8] | Mask(i % 8)], j) <==> j == i || BitAt(before, j)
  {
    if j / 8 == i / 8 {
      SetOneBit(before[i / 8], i % 8, j % 8);
      assert j == 8 * (j / 8) + j % 8 && i == 8 * (i / 8) + i % 8;
    }
  }

  lemma BitAdded(before: seq<bv8>, names: set<NodeId>, order: seq<NodeId>, i: nat, after: seq<bv8>)
    requires Distinct(order) && i < |order| && Encodes(before, names, order) == true
    requires after == before[i / 8 := before[i / 8] | Mask(i % 8)]
    ensures Encodes(after, names + {order[i]}, order)
  {
    forall j: nat | j < 8 * |after| ensures BitAt(after, j) <==> j < |order| && order[j] in names + {order[i]} {
      BitUpdated(before, i, j);
    }
  }

  /** The seats of the first `n` places of `order` that `names` picks, in the order's own order. */
  ghost function Picked(order: seq<NodeId>, names: set<NodeId>, n: nat): seq<NodeId>
    requires n <= |order|
  {
    if n == 0 then [] else Picked(order, names, n - 1) + if order[n - 1] in names then [order[n - 1]] else []
  }

  /** What a bitmap picks are the seats of the order it names, and no more. */
  lemma {:induction false} PickedIs(order: seq<NodeId>, names: set<NodeId>, n: nat)
    requires n <= |order|
    ensures forall s :: s in Picked(order, names, n) <==> s in names && s in order[..n]
  {
    if n > 0 {
      PickedIs(order, names, n - 1);
      assert order[..n] == order[..n - 1] + [order[n - 1]];
    }
  }

  lemma PickedEncodes(raw: seq<bv8>, names: set<NodeId>, order: seq<NodeId>)
    requires Encodes(raw, names, order)
    ensures Encodes(raw, SetOf(Picked(order, names, |order|)), order)
    ensures SetOf(Picked(order, names, |order|)) <= SetOf(order)
  {
    hide BitAt, Picked;
    PickedIs(order, names, |order|);
    assert order[..|order|] == order;
  }

  lemma EncodesAt(raw: seq<bv8>, names: set<NodeId>, order: seq<NodeId>, i: nat)
    requires Encodes(raw, names, order) && i < |order|
    ensures i < 8 * |raw| && (BitAt(raw, i) <==> order[i] in names)
  {
  }

  lemma EncodesWidth(raw: seq<bv8>, names: set<NodeId>, order: seq<NodeId>)
    requires Encodes(raw, names, order)
    ensures |raw| == (|order| + 7) / 8
  {
  }

  /** A bit past the last seat makes a bitmap nobody's. */
  lemma SpareBitIsWrong(raw: seq<bv8>, order: seq<NodeId>)
    requires |raw| == (|order| + 7) / 8
    requires var spare := |raw| * 8 - |order|; 0 < spare < 8 && raw != [] && raw[|raw| - 1] >> (8 - spare) as bv4 != 0
    ensures forall names: set<NodeId> :: !Encodes(raw, names, order)
  {
    hide ByteBit, Mask;
    var spare := |raw| * 8 - |order|;
    SpareBitsSet(raw[|raw| - 1], spare);
    var k: nat :| 8 - spare <= k < 8 && ByteBit(raw[|raw| - 1], k);
    assert BitAt(raw, 8 * (|raw| - 1) + k);
  }

  /** Without one it is the bitmap of the seats whose bits are set. */
  lemma NamedBy(raw: seq<bv8>, order: seq<NodeId>) returns (names: set<NodeId>)
    requires Distinct(order) && |raw| == (|order| + 7) / 8
    requires var spare := |raw| * 8 - |order|; spare != 0 && raw != [] ==> raw[|raw| - 1] >> (8 - spare) as bv4 == 0
    ensures Encodes(raw, names, order)
  {
    hide ByteBit, Mask;
    var spare := |raw| * 8 - |order|;
    names := set i | 0 <= i < |order| && BitAt(raw, i) :: order[i];
    forall i: nat | i < 8 * |raw| ensures BitAt(raw, i) <==> i < |order| && order[i] in names {
      if i >= |order| {
        assert i / 8 == |raw| - 1;
        SpareBitsClear(raw[|raw| - 1], spare, i % 8);
      }
    }
  }

  /** The seats a bitmap names; refuses one of the wrong length or with a bit past the last seat. */
  method FromBits(bits: HexText, order: seq<NodeId>) returns (r: Result<seq<NodeId>, SeatError>)
    requires Distinct(order)
    ensures r.Ok? <==> bits.Hex? && exists names: set<NodeId> :: Encodes(bits.bytes, names, order)
    ensures r.Ok? ==> forall names: set<NodeId> :: Encodes(bits.bytes, names, order) ==>
            r.value == Picked(order, names, |order|)
  {
    hide ByteBit, Mask, BitAt, Encodes;
    var width := (|order| + 7) / 8;
    if bits.Garbled? {
      return Err(NotHex);
    }
    var raw := bits.bytes;
    if |raw| != width {
      forall names: set<NodeId> ensures !Encodes(raw, names, order) {
        if Encodes(raw, names, order) {
          EncodesWidth(raw, names, order);
        }
      }
      return Err(WrongLength);
    }
    var spare := width * 8 - |order|;
    if spare != 0 && raw[|raw| - 1] >> (8 - spare) as bv4 != 0 {
      SpareBitIsWrong(raw, order);
      return Err(PastLastSeat);
    }
    ghost var names := NamedBy(raw, order);
    var out: seq<NodeId> := [];
    for i := 0 to |order|
      invariant forall names: set<NodeId> :: Encodes(raw, names, order) ==> out == Picked(order, names, i)
    {
      forall names: set<NodeId> | Encodes(raw, names, order) ensures BitAt(raw, i) <==> order[i] in names {
        EncodesAt(raw, names, order, i);
      }
      if BitAt(raw, i) {
        out := out + [order[i]];
      }
    }
    return Ok(out);
  }

  lemma SpareBitsSet(byte: bv8, spare: nat)
    requires 0 < spare < 8 && byte >> (8 - spare) as bv4 != 0
    ensures exists k: nat :: 8 - spare <= k < 8 && ByteBit(byte, k)
  {
    assert ByteBit(byte, 7)
        || (spare >= 2 && ByteBit(byte, 6)) || (spare >= 3 && ByteBit(byte, 5)) || (spare >= 4 && ByteBit(byte, 4))
        || (spare >= 5 && ByteBit(byte, 3)) || (spare >= 6 && ByteBit(byte, 2)) || (spare >= 7 && ByteBit(byte, 1));
  }

  lemma SpareBitsClear(byte: bv8, spare: nat, k: nat)
    requires 0 < spare < 8 && byte >> (8 - spare) as bv4 == 0 && 8 - spare <= k < 8
    ensures !ByteBit(byte, k)
  {
  }

  lemma {:induction false} PickedIsSorted(order: seq<NodeId>, names: set<NodeId>, n: nat)
    requires StrictlySorted(order) && n <= |order|
    ensures var p := Picked(order, names, n);
            StrictlySorted(p) && SetOf(p) == SetOf(order[..n]) * names
  {
    if n > 0 {
      PickedIsSorted(order, names, n - 1);
      var p := Picked(order, names, n - 1);
      assert order[..n] == order[..n - 1] + [order[n - 1]];
      assert SetOf(order[..n]) == SetOf(order[..n - 1]) + {order[n - 1]};
      forall i | 0 <= i < |p| ensures p[i] < order[n - 1] {
        assert p[i] in SetOf(p);
      }
      assert SetOf(p + [order[n - 1]]) == SetOf(p) + {order[n - 1]};
      assert (SetOf(order[..n - 1]) + {order[n - 1]}) * names == SetOf(order[..n - 1]) * names + {order[n - 1]} * names;
    }
  }

  /** Reading back the bitmap of sorted signers gives the signers. */
  lemma BitsRoundTrip(signers: seq<NodeId>, order: seq<NodeId>)
    requires StrictlySorted(order) && StrictlySorted(signers) && forall s <- signers :: s in order
    ensures Picked(order, SetOf(signers), |order|) == signers
  {
    PickedIsSorted(order, SetOf(signers), |order|);
    assert order[..|order|] == order;
    assert SetOf(order) * SetOf(signers) == SetOf(signers);
    SortedListIsUnique(Picked(order, SetOf(signers), |order|), signers);
  }

  /** Writing out the seats a well-formed bitmap names gives the bitmap back. */
  lemma NamesRoundTrip(raw: seq<bv8>, names: set<NodeId>, order: seq<NodeId>, again: seq<bv8>)
    requires StrictlySorted(order) && Encodes(raw, names, order)
    requires Encodes(again, SetOf(Picked(order, names, |order|)), order)
    ensures again == raw
  {
    PickedIsSorted(order, names, |order|);
    assert order[..|order|] == order;
    forall i: nat | i < 8 * |raw| ensures BitAt(again, i) <==> i < |order| && order[i] in names {
      if i < |order| {
        assert order[i] in SetOf(order);
      }
    }
    BitmapIsUnique(raw, again, names, order);
  }
}
