/**
 The one-time signature of a turn (chain/hardening/wots.py).

 The tagged SHA-256 inputs become constructors, so two 32-byte strings are equal exactly when they were
 hashed from the same parts; `Other` stands for every string that is none of them. A signature is its
 67 parts, which is what a string of 67 * 32 bytes is cut into.
 */
module Wots {
  import opened Basics

  const N := 32
  const WINTERNITZ := 16
  const LEN_1 := 64
  const LEN_2 := 3
  const LEN := 67

  type Byte = b: int | 0 <= b < 256

  datatype Value =
    | Secret(master: nat, index: nat, chain: nat)
    | PubSeed(master: nat, eraId: int)
    | Link(pubSeed: Value, index: nat, chain: nat, step: nat, inner: Value)
    | PublicKey(pubSeed: Value, index: nat, ends: seq<Value>)
    | Retired(eraId: int, index: nat)
    | Other(text: nat)

  // ---- digits ----

  function Nibble(message: seq<Byte>, k: nat): nat
    requires k < 2 * |message|
  {
    if k % 2 == 0 then message[k / 2] / 16 else message[k / 2] % 16
  }

  /** The sum the checksum digits are cut from, over the first `k` digits. */
  function Checksum(message: seq<Byte>, k: nat): (r: nat)
    requires k <= 2 * |message|
    ensures r <= 15 * k
  {
    if k == 0 then 0 else Checksum(message, k - 1) + (15 - Nibble(message, k - 1))
  }

  /** Digit i of a message: its nibbles, then two zeros and the checksum divided by 256. */
  function Digit(message: seq<Byte>, i: nat): (d: nat)
    requires |message| == N && i < LEN
    ensures d < WINTERNITZ
  {
    if i < LEN_1 then Nibble(message, i)
    else if i < LEN - 1 then 0
    else Checksum(message, LEN_1) / 256
  }

  /** `_digits`: only a 32-byte message has digits. The checksum is shifted left by four bits, written as
      three bytes, and its first three nibbles taken. */
  method Digits(message: seq<Byte>) returns (r: Option<seq<nat>>)
    ensures r.None? <==> |message| != N
    ensures r.Some? ==> |r.value| == LEN && forall i | 0 <= i < LEN :: r.value[i] == Digit(message, i)
  {
    if |message| != N {
      return None;
    }
    var out: seq<nat> := [];
    for n := 0 to N
      invariant |out| == 2 * n && forall i | 0 <= i < 2 * n :: out[i] == Nibble(message, i)
    {
      out := out + [message[n] / 16] + [message[n] % 16];
    }
    var checksum := 0;
    for i := 0 to LEN_1
      invariant checksum == Checksum(message, i)
    {
      checksum := checksum + (WINTERNITZ - 1 - out[i]);
    }
    checksum := checksum * 16;
    var bytes: seq<Byte> := [checksum / 65536, checksum / 256 % 256, checksum % 256];
    var digits: seq<nat> := [];
    for n := 0 to 3
      invariant |digits| == 2 * n && forall i | 0 <= i < 2 * n :: digits[i] == Nibble(bytes, i)
    {
      digits := digits + [bytes[n] / 16] + [bytes[n] % 16];
    }
    return Some(out + digits[..LEN_2]);
  }

  // ---- chains ----

  /** Chain number `chain` of turn `index`, walked `steps` links on from position `start`. */
  function Chain(x: Value, start: nat, steps: nat, pubSeed: Value, index: nat, chain: nat): Value {
    if steps == 0 then x
       else Link(pubSeed, index, chain, start + steps - 1, Chain(x, start, steps - 1, pubSeed, index, chain))
  }

  method WalkChain(x: Value, start: nat, steps: nat, pubSeed: Value, index: nat, chain: nat) returns (y: Value)
    ensures y == Chain(x, start, steps, pubSeed, index, chain)
  {
    y := x;
    for i := start to start + steps
      invariant y == Chain(x, start, i - start, pubSeed, index, chain)
    {
      y := Link(pubSeed, index, chain, i, y);
    }
  }

  lemma {:induction false} ChainsCompose(x: Value, start: nat, a: nat, b: nat, pubSeed: Value, index: nat, chain: nat)
    ensures Chain(Chain(x, start, a, pubSeed, index, chain), start + a, b, pubSeed, index, chain)
            == Chain(x, start, a + b, pubSeed, index, chain)
  {
    if b > 0 {
      ChainsCompose(x, start, a, b - 1, pubSeed, index, chain);
    }
  }

  lemma {:induction false} ChainIsInjective(x: Value, y: Value, start: nat, steps: nat, pubSeed: Value, index: nat,
                                            chain: nat)
    requires Chain(x, start, steps, pubSeed, index, chain) == Chain(y, start, steps, pubSeed, index, chain)
    ensures x == y
  {
    if steps > 0 {
      ChainIsInjective(x, y, start, steps - 1, pubSeed, index, chain);
    }
  }

  // ---- keys and signatures ----

  function End(master: nat, pubSeed: Value, index: nat, i: nat): Value {
    Chain(Secret(master, index, i), 0, WINTERNITZ - 1, pubSeed, index, i)
  }

  function KeyOf(master: nat, pubSeed: Value, index: nat): Value {
    PublicKey(pubSeed, index, seq(LEN, i requires 0 <= i < LEN => End(master, pubSeed, index, i)))
  }

  function Part(master: nat, pubSeed: Value, index: nat, message: seq<Byte>, i: nat): Value
    requires |message| == N && i < LEN
  {
    Chain(Secret(master, index, i), 0, Digit(message, i), pubSeed, index, i)
  }

  function SignatureOf(master: nat, pubSeed: Value, index: nat, message: seq<Byte>): (s: seq<Value>)
    requires |message| == N
    ensures |s| == LEN
  {
    seq(LEN, i requires 0 <= i < LEN => Part(master, pubSeed, index, message, i))
  }

  method Sign(master: nat, pubSeed: Value, index: nat, message: seq<Byte>) returns (r: Option<seq<Value>>)
    ensures r == if |message| == N then Some(SignatureOf(master, pubSeed, index, message)) else None
  {
    var digits := Digits(message);
    if digits.None? {
      return None;
    }
    var parts: seq<Value> := [];
    for i := 0 to LEN
      invariant |parts| == i && forall j | 0 <= j < i :: parts[j] == Part(master, pubSeed, index, message, j)
    {
      var part := WalkChain(Secret(master, index, i), 0, digits.value[i], pubSeed, index, i);
      parts := parts + [part];
    }
    assert parts == SignatureOf(master, pubSeed, index, message);
    return Some(parts);
  }

  /** The key a signature claims to be under; None for a signature or message of the wrong length. */
  function Recovered(signature: seq<Value>, pubSeed: Value, index: nat, message: seq<Byte>): Option<Value> {
    if |signature| != LEN || |message| != N then None
    else
      Some(PublicKey(pubSeed, index, seq(LEN, i requires 0 <= i < LEN =>
        Chain(signature[i], Digit(message, i), WINTERNITZ - 1 - Digit(message, i), pubSeed, index, i))))
  }

  method PublicKeyFromSignature(signature: seq<Value>, pubSeed: Value, index: nat, message: seq<Byte>)
    returns (r: Option<Value>)
    ensures r == Recovered(signature, pubSeed, index, message)
  {
    if |signature| != LEN {
      return None;
    }
    var digits := Digits(message);
    if digits.None? {
      return None;
    }
    var ends: seq<Value> := [];
    for i := 0 to LEN
      invariant |ends| == i
      invariant forall j | 0 <= j < i ::
                  ends[j] == Chain(signature[j], Digit(message, j), WINTERNITZ - 1 - Digit(message, j), pubSeed,
                                   index, j)
    {
      var d := digits.value[i];
      var end := WalkChain(signature[i], d, WINTERNITZ - 1 - d, pubSeed, index, i);
      ends := ends + [end];
    }
    assert ends == Recovered(signature, pubSeed, index, message).value.ends;
    return Some(PublicKey(pubSeed, index, ends));
  }

  lemma PartReachesEnd(master: nat, pubSeed: Value, index: nat, message: seq<Byte>, i: nat, part: Value)
    requires |message| == N && i < LEN
    ensures Chain(part, Digit(message, i), WINTERNITZ - 1 - Digit(message, i), pubSeed, index, i) ==
            End(master, pubSeed, index, i)
            <==> part == Part(master, pubSeed, index, message, i)
  {
    var d, mine := Digit(message, i), Part(master, pubSeed, index, message, i);
    ChainsCompose(Secret(master, index, i), 0, d, WINTERNITZ - 1 - d, pubSeed, index, i);
    if Chain(part, d, WINTERNITZ - 1 - d, pubSeed, index, i) == End(master, pubSeed, index, i) {
      ChainIsInjective(part, mine, d, WINTERNITZ - 1 - d, pubSeed, index, i);
    }
  }

  /** The signature a turn makes, and no other, recovers that turn's public key. */
  lemma RecoveryIff(master: nat, pubSeed: Value, index: nat, message: seq<Byte>, signature: seq<Value>)
    requires |message| == N
    ensures Recovered(signature, pubSeed, index, message) == Some(KeyOf(master, pubSeed, index))
            <==> signature == SignatureOf(master, pubSeed, index, message)
  {
    if |signature| == LEN {
      var ends := Recovered(signature, pubSeed, index, message).value.ends;
      var own := KeyOf(master, pubSeed, index).ends;
      forall i | 0 <= i < LEN
        ensures ends[i] == own[i] <==> signature[i] == SignatureOf(master, pubSeed, index, message)[i]
      {
        PartReachesEnd(master, pubSeed, index, message, i, signature[i]);
      }
      if ends == own {
        assert forall i | 0 <= i < LEN :: ends[i] == own[i];
        assert signature == SignatureOf(master, pubSeed, index, message);
      }
      if signature == SignatureOf(master, pubSeed, index, message) {
        assert ends == own;
      }
    }
  }
}
