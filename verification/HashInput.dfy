/**
 What the hash functions are fed (chain/crypto.py, `_encode`, `_len_prefixed`, `h_bytes`): the bytes determine the tag
 and every part, nested lists included.

 A text stands for its UTF-8 bytes; a tuple is a list.
 */
module HashInput {
  import opened Basics

  type Byte = b: nat | b < 256

  datatype Part = Bytes(bytes: seq<Byte>) | Bool(on: bool) | Int(value: int) | Text(utf8: seq<Byte>)
    | List(parts: seq<Part>) | Nothing

  const FOUR_BYTES := 0x1_0000_0000

  // ---- numbers ----

  /** `str(n)`. */
  function Digits(n: nat): (r: seq<Byte>)
    ensures r != [] && r[0] != 45
  {
    if n < 10 then [48 + n] else Digits(n / 10) + [48 + n % 10]
  }

  function Decimal(i: int): seq<Byte> {
    if i < 0 then [45] + Digits(-i) else Digits(i)
  }

  function ReadDigits(b: seq<Byte>): int {
    if b == [] then 0 else 10 * ReadDigits(b[..|b| - 1]) + b[|b| - 1] - 48
  }

  function ReadDecimal(b: seq<Byte>): int {
    if b != [] && b[0] == 45 then -ReadDigits(b[1..]) else ReadDigits(b)
  }

  lemma {:induction false} DigitsRead(n: nat)
    ensures ReadDigits(Digits(n)) == n
  {
    if n < 10 {
      assert [48 + n][..0] == [];
    } else {
      DigitsRead(n / 10);
      assert Digits(n)[..|Digits(n)| - 1] == Digits(n / 10);
    }
  }

  lemma DecimalRead(i: int)
    ensures ReadDecimal(Decimal(i)) == i
  {
    if i < 0 {
      DigitsRead(-i);
      assert Decimal(i)[1..] == Digits(-i);
    } else {
      DigitsRead(i);
    }
  }

  /** `n.to_bytes(4, "big")`. */
  function Size(n: nat): (r: seq<Byte>)
    requires n < FOUR_BYTES
    ensures |r| == 4
  {
    [n / 256 / 256 / 256, n / 256 / 256 % 256, n / 256 % 256, n % 256]
  }

  function ReadSize(b: seq<Byte>): (n: nat)
    requires |b| >= 4
  {
    (b[0] as int) * 0x100_0000 + (b[1] as int) * 0x1_0000 + (b[2] as int) * 256 + b[3]
  }

  lemma SizeRead(n: nat, rest: seq<Byte>)
    requires n < FOUR_BYTES
    ensures ReadSize(Size(n) + rest) == n
  {
    var b := Size(n) + rest;
    var high := n / 256 / 256;
    assert (b[0] as int) * 256 + b[1] == high;
    assert high * 256 + b[2] == n / 256;
  }

  // ---- encoding ----

  /** The bytes with their length in front; None where the source raises. */
  function LenPrefixed(b: seq<Byte>): Option<seq<Byte>> {
    if |b| < FOUR_BYTES then Some(Size(|b|) + b) else None
  }

  function Encode(p: Part): Option<seq<Byte>>
    decreases p
  {
    match p
    case Bytes(b) => Some([98] + b)
    case Bool(on) => Some([111, if on then 49 else 48])
    case Int(i) => Some([105] + Decimal(i))
    case Text(b) => Some([115] + b)
    case Nothing => Some([110])
    case List(ps) =>
      var inner := EncodeAll(ps, p);
      if inner.None? then None else Some([108] + inner.value)
  }

  /** The parts one after the other, each with its length in front. */
  function EncodeAll(ps: seq<Part>, ghost whole: Part): Option<seq<Byte>>
    requires forall i | 0 <= i < |ps| :: ps[i] < whole
    decreases whole, |ps|
  {
    if ps == [] then Some([])
    else
      var e, rest := Encode(ps[0]), EncodeAll(ps[1..], whole);
      if e.None? || rest.None? || LenPrefixed(e.value).None? then None
         else Some(LenPrefixed(e.value).value + rest.value)
  }

  const DOMAIN: seq<Byte> := [102, 105, 110, 54, 45, 99, 104, 97, 105, 110, 45, 118, 49, 58]

  /** What `h_bytes` feeds the hash: the domain and the tag, then the parts. */
  function Fed(tag: seq<Byte>, parts: seq<Part>): Option<seq<Byte>> {
    var head, body := LenPrefixed(DOMAIN + tag), EncodeAll(parts, List(parts));
    if head.None? || body.None? then None else Some(head.value + body.value)
  }

  // ---- decoding ----

  /** The first length-prefixed chunk, and what follows it. */
  function TakeChunk(b: seq<Byte>): Option<(seq<Byte>, seq<Byte>)> {
    if |b| < 4 || |b| < 4 + ReadSize(b) then None else Some((b[4..4 + ReadSize(b)], b[4 + ReadSize(b)..]))
  }

  lemma ChunkTaken(b: seq<Byte>, rest: seq<Byte>)
    requires |b| < FOUR_BYTES
    ensures TakeChunk(LenPrefixed(b).value + rest) == Some((b, rest))
  {
    SizeRead(|b|, b + rest);
    assert Size(|b|) + b + rest == Size(|b|) + (b + rest);
  }

  function Decode(b: seq<Byte>): Option<Part>
    decreases |b|, 0
  {
    if b == [] then None
    else if b[0] == 98 then Some(Bytes(b[1..]))
    else if b[0] == 111 && |b| == 2 then Some(Bool(b[1] == 49))
    else if b[0] == 105 then Some(Int(ReadDecimal(b[1..])))
    else if b[0] == 115 then Some(Text(b[1..]))
    else if b[0] == 110 then Some(Nothing)
    else if b[0] == 108 then
      var ps := DecodeAll(b[1..]);
      if ps.None? then None else Some(List(ps.value))
    else None
  }

  function DecodeAll(b: seq<Byte>): Option<seq<Part>>
    decreases |b|, 1
  {
    if b == [] then Some([])
    else
      var chunk := TakeChunk(b);
      if chunk.None? then None
      else
        var p, rest := Decode(chunk.value.0), DecodeAll(chunk.value.1);
        if p.None? || rest.None? then None else Some([p.value] + rest.value)
  }

  function Read(b: seq<Byte>): Option<(seq<Byte>, seq<Part>)> {
    var head := TakeChunk(b);
    if head.None? || |head.value.0| < |DOMAIN| then None
    else
      var parts := DecodeAll(head.value.1);
      if parts.None? then None else Some((head.value.0[|DOMAIN|..], parts.value))
  }

  lemma {:induction false} DecodeUndoes(p: Part)
    requires Encode(p).Some?
    ensures Decode(Encode(p).value) == Some(p)
    decreases p
  {
    match p
    case List(ps) =>
      DecodeAllUndoes(ps, p);
      var inner := EncodeAll(ps, p).value;
      assert ([108] + inner)[1..] == inner;
    case Int(i) =>
      DecimalRead(i);
      assert ([105] + Decimal(i))[1..] == Decimal(i);
    case Bytes(b) => assert ([98] + b)[1..] == b;
    case Text(b) => assert ([115] + b)[1..] == b;
    case Bool(_) =>
    case Nothing =>
  }

  lemma {:induction false} DecodeAllUndoes(ps: seq<Part>, whole: Part)
    requires (forall i | 0 <= i < |ps| :: ps[i] < whole) && EncodeAll(ps, whole).Some?
    ensures DecodeAll(EncodeAll(ps, whole).value) == Some(ps)
    decreases whole, |ps|
  {
    if ps != [] {
      var e, rest := Encode(ps[0]).value, EncodeAll(ps[1..], whole).value;
      DecodeUndoes(ps[0]);
      DecodeAllUndoes(ps[1..], whole);
      ChunkTaken(e, rest);
      assert [ps[0]] + ps[1..] == ps;
    }
  }

  /** Reading undoes feeding. */
  lemma ReadUndoesFed(tag: seq<Byte>, parts: seq<Part>)
    requires Fed(tag, parts).Some?
    ensures Read(Fed(tag, parts).value) == Some((tag, parts))
  {
    DecodeAllUndoes(parts, List(parts));
    ChunkTaken(DOMAIN + tag, EncodeAll(parts, List(parts)).value);
    assert (DOMAIN + tag)[|DOMAIN|..] == tag;
  }

  /** So two calls that feed the hash the same bytes had the same tag and the same parts, all the way down. */
  lemma HashInputsAreUnambiguous(tag: seq<Byte>, parts: seq<Part>, tag': seq<Byte>, parts': seq<Part>)
    requires Fed(tag, parts).Some? && Fed(tag, parts) == Fed(tag', parts')
    ensures tag == tag' && parts == parts'
  {
    ReadUndoesFed(tag, parts);
    ReadUndoesFed(tag', parts');
  }
}
