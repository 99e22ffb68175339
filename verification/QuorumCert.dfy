/**
 Quorum certificates in their two encodings (chain/block.py).

 Signatures are ideal: `Sig(key, statement)` is the one string that verifies under `key` for
 `statement`; every other string is `Junk`. Roots and seat digests are injective.
 */
module QuorumCert {
  import opened Basics
  import opened Seats

  type Key = nat

  /** What an attestation and a certificate sign; it does not name the signer. */
  datatype Statement = Statement(chainId: string, height: int, blockHash: Hash, epoch: int, gridSeed: string)

  datatype Signature = Sig(key: Key, statement: Statement) | Junk(text: string)

  datatype Attestation = Attestation(nodeId: NodeId, publicKey: Key, statement: Statement, signature: Signature) {
    predicate Verifies() {
      signature == Sig(publicKey, statement)
    }
  }

  datatype SeatsDigest = NoDigest | DigestOf(gridId: string, order: seq<NodeId>)
  datatype CertRoot = RootOf(scheme: string, pairs: seq<(NodeId, Signature)>)

  const ED25519 := "ed25519"

  /** `zip`, which stops at the shorter list. */
  function Zip(signers: seq<NodeId>, signatures: seq<Signature>): seq<(NodeId, Signature)> {
    var n := if |signers| < |signatures| then |signers| else |signatures|;
    seq(n, i requires 0 <= i < n => (signers[i], signatures[i]))
  }

  datatype Cert = Cert(
    statement: Statement,
    signers: seq<NodeId>, signatures: seq<Signature>,
    shadowSigners: seq<NodeId>, shadowSignatures: seq<Signature>,
    root: CertRoot, scheme: string,
    seatsDigest: SeatsDigest, signerBits: HexText, shadowBits: HexText)
  {
    predicate Compact() {
      seatsDigest.DigestOf?
    }
  }

  const NoBits := Hex([])

  // ---- building ----

  function Nodes(atts: seq<Attestation>): seq<NodeId> {
    seq(|atts|, i requires 0 <= i < |atts| => atts[i].nodeId)
  }

  function Signatures(atts: seq<Attestation>): seq<Signature> {
    seq(|atts|, i requires 0 <= i < |atts| => atts[i].signature)
  }

  /** `sorted(attestations, key=node_id)` over a dict keyed by node id. */
  method SortedByNode(atts: map<NodeId, Attestation>) returns (sorted: seq<Attestation>)
    requires forall n <- atts :: atts[n].nodeId == n
    ensures StrictlySorted(Nodes(sorted)) && SetOf(Nodes(sorted)) == atts.Keys
    ensures forall i | 0 <= i < |sorted| :: sorted[i].nodeId in atts && sorted[i] == atts[sorted[i].nodeId]
  {
    sorted := [];
    var left := atts.Keys;
    assert SetOf(Nodes([])) == {};
    while left != {}
      invariant left <= atts.Keys
      invariant StrictlySorted(Nodes(sorted)) && SetOf(Nodes(sorted)) == atts.Keys - left
      invariant forall x, y :: x in Nodes(sorted) && y in left ==> x < y
      invariant forall i | 0 <= i < |sorted| :: sorted[i].nodeId in atts && sorted[i] == atts[sorted[i].nodeId]
      decreases left
    {
      var least := Least(left);
      NodesGrow(sorted, atts[least]);
      sorted := sorted + [atts[least]];
      left := left - {least};
    }
  }

  lemma NodesGrow(atts: seq<Attestation>, next: Attestation)
    requires StrictlySorted(Nodes(atts)) && forall x <- Nodes(atts) :: x < next.nodeId
    ensures Nodes(atts + [next]) == Nodes(atts) + [next.nodeId]
    ensures StrictlySorted(Nodes(atts + [next])) && SetOf(Nodes(atts + [next])) == SetOf(Nodes(atts)) + {next.nodeId}
  {
    assert Nodes(atts + [next]) == Nodes(atts) + [next.nodeId];
    forall i | 0 <= i < |atts| ensures Nodes(atts)[i] < next.nodeId {
      assert Nodes(atts)[i] in Nodes(atts);
    }
  }

  /** What building from two attestation dicts produces: sorted, aligned, and a shadow dropped when its
      seat already counts. */
  ghost predicate BuiltFrom(c: Cert, statement: Statement, atts: map<NodeId, Attestation>,
                            shadow: map<NodeId, Attestation>) {
    && c.statement == statement && c.scheme == ED25519 && !c.Compact()
    && StrictlySorted(c.signers) && SetOf(c.signers) == atts.Keys && |c.signatures| == |c.signers|
    && (forall i | 0 <= i < |c.signers| :: c.signers[i] in atts && c.signatures[i] == atts[c.signers[i]].signature)
    && StrictlySorted(c.shadowSigners) && SetOf(c.shadowSigners) == shadow.Keys - atts.Keys
    && |c.shadowSignatures| == |c.shadowSigners|
    && (forall i | 0 <= i < |c.shadowSigners| ::
        c.shadowSigners[i] in shadow && c.shadowSignatures[i] == shadow[c.shadowSigners[i]].signature)
    && c.root == RootOf(ED25519, Zip(c.signers, c.signatures))
  }

  lemma ListedKeys(c: seq<NodeId>, keys: set<NodeId>)
    requires SetOf(c) == keys
    ensures forall i | 0 <= i < |c| :: c[i] in keys
  {
    forall i | 0 <= i < |c| ensures c[i] in keys {
      assert c[i] in SetOf(c);
    }
  }

  method Build(statement: Statement, atts: map<NodeId, Attestation>, shadow: map<NodeId, Attestation>) returns (c: Cert)
    requires forall n <- atts :: atts[n].nodeId == n
    requires forall n <- shadow :: shadow[n].nodeId == n
    ensures BuiltFrom(c, statement, atts, shadow)
  {
    var a := SortedByNode(atts);
    var s := SortedByNode(shadow - atts.Keys);
    c := Cert(statement, Nodes(a), Signatures(a), Nodes(s), Signatures(s),
              RootOf(ED25519, Zip(Nodes(a), Signatures(a))), ED25519, NoDigest, NoBits, NoBits);
    ListedKeys(c.signers, atts.Keys);
    ListedKeys(c.shadowSigners, shadow.Keys - atts.Keys);
  }

  // ---- the two encodings ----

  method CompactForm(c: Cert, gridId: string, order: seq<NodeId>) returns (r: Result<Cert, SeatError>)
    requires Distinct(order)
    ensures c.Compact() ==> r == Ok(c)
    ensures !c.Compact() ==> (r.Ok? <==> forall s :: s in c.signers || s in c.shadowSigners ==> s in order)
    ensures !c.Compact() && r.Ok? ==> IsCompactOf(r.value, c, gridId, order)
  {
    if c.Compact() {
      return Ok(c);
    }
    var bits := ToBits(c.signers, order);
    if bits.Err? {
      return Err(bits.error);
    }
    var shadowBits := ToBits(c.shadowSigners, order);
    if shadowBits.Err? {
      return Err(shadowBits.error);
    }
    return Ok(c.(signers := [], shadowSigners := [], seatsDigest := DigestOf(gridId, order),
                 signerBits := bits.value, shadowBits := shadowBits.value));
  }

  /** `d` is `c` with its seats as bitmaps over `order`; everything else, the root included, is `c`'s. */
  ghost predicate IsCompactOf(d: Cert, c: Cert, gridId: string, order: seq<NodeId>) {
    && d.signerBits.Hex? && Encodes(d.signerBits.bytes, SetOf(c.signers), order)
    && d.shadowBits.Hex? && Encodes(d.shadowBits.bytes, SetOf(c.shadowSigners), order)
    && d == c.(signers := [], shadowSigners := [], seatsDigest := DigestOf(gridId, order),
               signerBits := d.signerBits, shadowBits := d.shadowBits)
  }

  method ExpandedForm(c: Cert, gridId: string, order: seq<NodeId>) returns (r: Result<Cert, SeatError>)
    requires Distinct(order)
    ensures !c.Compact() ==> r == Ok(c)
    ensures c.Compact() && c.seatsDigest != DigestOf(gridId, order) ==> r == Err(AnotherOrder)
    ensures c.Compact() && r.Ok? ==> c.seatsDigest == DigestOf(gridId, order)
    ensures c.Compact() && r.Ok? ==>
              && r.value.statement == c.statement && r.value.signatures == c.signatures
              && c.signerBits.Hex? && Encodes(c.signerBits.bytes, SetOf(r.value.signers), order)
              && SetOf(r.value.signers) <= SetOf(order)
    ensures forall e: Cert :: !e.Compact() && IsCompactOf(c, e, gridId, order) ==>
              r == Ok(e.(signers := Picked(order, SetOf(e.signers), |order|),
                         shadowSigners := Picked(order, SetOf(e.shadowSigners), |order|),
                         seatsDigest := NoDigest, signerBits := NoBits, shadowBits := NoBits))
  {
    if !c.Compact() {
      return Ok(c);
    }
    if DigestOf(gridId, order) != c.seatsDigest {
      return Err(AnotherOrder);
    }
    var signers := FromBits(c.signerBits, order);
    if signers.Err? {
      return Err(signers.error);
    }
    var shadow := FromBits(c.shadowBits, order);
    if shadow.Err? {
      return Err(shadow.error);
    }
    ghost var names: set<NodeId> :| Encodes(c.signerBits.bytes, names, order);
    PickedEncodes(c.signerBits.bytes, names, order);
    return Ok(c.(seatsDigest := NoDigest, signerBits := NoBits, shadowBits := NoBits,
                 signers := signers.value, shadowSigners := shadow.value));
  }

  /** A certificate as `build` leaves it: sorted seats, no bitmap. */
  ghost predicate Plain(c: Cert) {
    && c.seatsDigest == NoDigest && c.signerBits == NoBits && c.shadowBits == NoBits
    && StrictlySorted(c.signers) && StrictlySorted(c.shadowSigners)
  }

  /** `d` is the bitmap form of the plain certificate `c`, over a canonical order that seats everyone. */
  ghost predicate Compacts(d: Cert, c: Cert, gridId: string, order: seq<NodeId>) {
    && Plain(c) && StrictlySorted(order)
    && (forall s :: s in c.signers || s in c.shadowSigners ==> s in order)
    && IsCompactOf(d, c, gridId, order)
  }

  /** Compacting then expanding a certificate with sorted distinct seats is the identity. */
  method CompactThenExpand(c: Cert, gridId: string, order: seq<NodeId>) returns (r: Result<Cert, SeatError>)
    requires Plain(c) && StrictlySorted(order)
    ensures r.Ok? <==> forall s :: s in c.signers || s in c.shadowSigners ==> s in order
    ensures r.Ok? ==> r.value == c
  {
    r := CompactForm(c, gridId, order);
    if r.Ok? {
      BitsRoundTrip(c.signers, order);
      BitsRoundTrip(c.shadowSigners, order);
      r := ExpandedForm(r.value, gridId, order);
    }
  }

  // ---- verifying ----

  /** Every listed seat is in the roster and its signature is that roster key's, on this statement. */
  ghost predicate AllSigned(signers: seq<NodeId>, signatures: seq<Signature>, roster: map<NodeId, Key>,
                            statement: Statement) {
    && |signers| == |signatures|
    && forall i | 0 <= i < |signers| :: signers[i] in roster && signatures[i] == Sig(roster[signers[i]], statement)
  }

  /** What a certificate that names its seats has to satisfy. */
  ghost predicate Valid(c: Cert, quorum: int, roster: map<NodeId, Key>) {
    && AllSigned(c.signers, c.signatures, roster, c.statement)
    && AllSigned(c.shadowSigners, c.shadowSignatures, roster, c.statement)
    && Distinct(c.signers + c.shadowSigners)
    && |c.signers| >= quorum
    && c.root == RootOf(c.scheme, Zip(c.signers, c.signatures))
  }

  /** The seats a certificate counts: those it lists, or those its bitmap names in the order it was made against.
      Shadows are never among them. */
  ghost predicate Names(c: Cert, seats: Option<seq<NodeId>>, who: set<NodeId>) {
    if c.Compact() then
      seats.Some? && c.signerBits.Hex? && Encodes(c.signerBits.bytes, who, seats.value) && who <= SetOf(seats.value)
    else who == SetOf(c.signers)
  }

  /** At least `quorum` seats of the roster, `who`, each signed just what the certificate states, under its own key. */
  ghost predicate Vouched(c: Cert, who: set<NodeId>, quorum: int, roster: map<NodeId, Key>) {
    |who| >= quorum && who <= roster.Keys && forall n <- who :: Sig(roster[n], c.statement) in c.signatures
  }

  lemma ValidIsVouched(c: Cert, quorum: int, roster: map<NodeId, Key>)
    requires Valid(c, quorum, roster)
    ensures Vouched(c, SetOf(c.signers), quorum, roster) && SetOf(c.signers) !! SetOf(c.shadowSigners)
  {
    PrefixDistinct(c.signers, c.shadowSigners);
    DistinctSize(c.signers);
    forall n <- SetOf(c.signers) ensures n in roster && Sig(roster[n], c.statement) in c.signatures {
      var i :| 0 <= i < |c.signers| && c.signers[i] == n;
      assert c.signatures[i] == Sig(roster[n], c.statement);
    }
    forall n <- SetOf(c.signers) ensures n !in c.shadowSigners {
      var i :| 0 <= i < |c.signers| && c.signers[i] == n;
      forall j | 0 <= j < |c.shadowSigners| ensures c.shadowSigners[j] != n {
        var all := c.signers + c.shadowSigners;
        assert all[i] == n && all[|c.signers| + j] == c.shadowSigners[j];
      }
    }
  }

  /** One signature loop: `seen` collects the seats, and a repeat, a stranger or a bad signature fails. */
  method CheckSignatures(signers: seq<NodeId>, signatures: seq<Signature>, before: seq<NodeId>,
                         roster: map<NodeId, Key>, statement: Statement)
    returns (ok: bool, seen: set<NodeId>)
    requires |signers| == |signatures| && Distinct(before)
    ensures ok <==> AllSigned(signers, signatures, roster, statement) && Distinct(before + signers)
    ensures ok ==> seen == SetOf(before + signers)
  {
    seen := SetOf(before);
    assert before + signers[..0] == before;
    for i := 0 to |signers|
      invariant Distinct(before + signers[..i]) && seen == SetOf(before + signers[..i])
      invariant AllSigned(signers[..i], signatures[..i], roster, statement)
    {
      if signers[i] !in roster {
        return false, seen;
      }
      if signers[i] in seen {
        var j: nat :| j < |before| + i && (before + signers)[j] == signers[i]
          && (before + signers[..i])[j] == signers[i];
        assert (before + signers)[|before| + i] == signers[i];
        return false, seen;
      }
      if signatures[i] != Sig(roster[signers[i]], statement) {
        return false, seen;
      }
      assert before + signers[..i + 1] == before + signers[..i] + [signers[i]];
      assert forall j | 0 <= j < |before| + i :: (before + signers[..i])[j] in seen;
      seen := seen + {signers[i]};
      assert forall x :: x in before + signers[..i + 1] <==> x in before + signers[..i] || x == signers[i];
    }
    assert signers[..|signers|] == signers && signatures[..|signers|] == signatures;
    return true, seen;
  }

  method VerifyPlain(c: Cert, quorum: int, roster: map<NodeId, Key>) returns (ok: bool)
    ensures ok <==> Valid(c, quorum, roster)
  {
    if |c.signers| != |c.signatures| || |c.shadowSigners| != |c.shadowSignatures| {
      return false;
    }
    var good, seen := CheckSignatures(c.signers, c.signatures, [], roster, c.statement);
    assert [] + c.signers == c.signers;
    if !good {
      if Valid(c, quorum, roster) {
        PrefixDistinct(c.signers, c.shadowSigners);
      }
      return false;
    }
    DistinctSize(c.signers);
    if |seen| < quorum {
      return false;
    }
    var goodShadow, _ := CheckSignatures(c.shadowSigners, c.shadowSignatures, c.signers, roster, c.statement);
    if !goodShadow {
      return false;
    }
    return RootOf(c.scheme, Zip(c.signers, c.signatures)) == c.root;
  }

  lemma PrefixDistinct(a: seq<NodeId>, b: seq<NodeId>)
    requires Distinct(a + b)
    ensures Distinct(a)
  {
    forall i, j | 0 <= i < j < |a| ensures a[i] != a[j] {
      assert (a + b)[i] != (a + b)[j];
    }
  }

  /** `verify`: against the roster, and against the seat order when the certificate is a bitmap or the
      caller supplies one. */
  method Verify(c: Cert, quorum: int, blockHash: Option<Hash>, roster: Option<map<NodeId, Key>>,
                seats: Option<seq<NodeId>>, gridId: string) returns (ok: bool)
    requires seats.Some? ==> Distinct(seats.value)
    ensures !c.Compact() ==> (ok <==>
              && (blockHash.Some? ==> blockHash.value == c.statement.blockHash)
              && roster.Some? && c.scheme == ED25519
              && (seats.Some? ==> forall s <- c.signers :: s in seats.value)
              && Valid(c, quorum, roster.value))
    ensures c.Compact() && ok ==> seats.Some? && c.seatsDigest == DigestOf(gridId, seats.value)
    ensures ok ==> c.scheme == ED25519 && (blockHash.Some? ==> blockHash.value == c.statement.blockHash)
    ensures ok ==> roster.Some? && exists who :: Names(c, seats, who) && Vouched(c, who, quorum, roster.value)
    ensures seats.Some? ==> forall e: Cert | Compacts(c, e, gridId, seats.value) ::
              (ok <==> && (blockHash.Some? ==> blockHash.value == c.statement.blockHash)
                       && roster.Some? && c.scheme == ED25519 && Valid(e, quorum, roster.value))
  {
    if blockHash.Some? && blockHash.value != c.statement.blockHash {
      return false;
    }
    if roster.None? {
      return false;
    }
    if c.scheme != ED25519 {
      return false;
    }
    var plain := c;
    if c.Compact() {
      if seats.None? {
        return false;
      }
      var expanded := ExpandedForm(c, gridId, seats.value);
      forall e: Cert | Compacts(c, e, gridId, seats.value)
        ensures expanded == Ok(e)
      {
        BitsRoundTrip(e.signers, seats.value);
        BitsRoundTrip(e.shadowSigners, seats.value);
      }
      if expanded.Err? {
        return false;
      }
      plain := expanded.value;
    } else if seats.Some? {
      if exists s <- c.signers :: s !in seats.value {
        return false;
      }
    }
    ok := VerifyPlain(plain, quorum, roster.value);
    if ok {
      ValidIsVouched(plain, quorum, roster.value);
      assert Names(c, seats, SetOf(plain.signers)) && Vouched(c, SetOf(plain.signers), quorum, roster.value);
    }
  }

  /** Both encodings of one certificate get the same verdict, whatever the quorum and the roster. */
  method SameVerdict(c: Cert, quorum: int, blockHash: Option<Hash>, roster: map<NodeId, Key>, order: seq<NodeId>,
                     gridId: string)
    returns (compacted: Result<Cert, SeatError>, plainOk: bool, compactOk: bool)
    requires Plain(c) && StrictlySorted(order)
    ensures compacted.Ok? <==> forall s :: s in c.signers || s in c.shadowSigners ==> s in order
    ensures compacted.Ok? ==> (plainOk <==> compactOk) && (plainOk ==> Valid(c, quorum, roster))
    ensures compacted.Ok? ==> compacted.value.root == c.root
  {
    plainOk := Verify(c, quorum, blockHash, Some(roster), Some(order), gridId);
    compacted := CompactForm(c, gridId, order);
    compactOk := false;
    if compacted.Ok? {
      compactOk := Verify(compacted.value, quorum, blockHash, Some(roster), Some(order), gridId);
      assert Compacts(compacted.value, c, gridId, order);
    }
  }
}
