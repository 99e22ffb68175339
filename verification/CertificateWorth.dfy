/**
 What a quorum certificate is worth (chain/block.py, `QuorumCert.verify`): two of them share an honest seat, and so one
 height has one certified block, exactly when twice the quorum exceeds the roster and its faulty seats together.
 */
module CertificateWorth {
  import opened Basics
  import opened Seats
  import opened QuorumCert
  import opened CeremonyAgreement
  import opened ViewChangeRuns

  /** What `verify` accepts, in whichever form, vouched for by the seats it counts. */
  ghost predicate Certified(c: Cert, quorum: int, roster: map<NodeId, Key>) {
    exists seats, who :: Names(c, seats, who) && Vouched(c, who, quorum, roster)
  }

  /** Two certificates under one roster share a signer that is not faulty, when quorums overlap in more than the faulty.
      */
  lemma CertificatesMeet(c: Cert, d: Cert, a: set<NodeId>, b: set<NodeId>, quorum: int, roster: map<NodeId, Key>,
                         faulty: set<NodeId>) returns (n: NodeId)
    requires Vouched(c, a, quorum, roster) && Vouched(d, b, quorum, roster)
    requires 2 * quorum > |roster.Keys| + |faulty * roster.Keys|
    ensures n in a && n in b && n in roster && n !in faulty
    ensures Sig(roster[n], c.statement) in c.signatures && Sig(roster[n], d.statement) in d.signatures
  {
    if a * b <= faulty * roster.Keys {
      QuorumsMeet(a, b, roster.Keys, faulty * roster.Keys);
      assert false;
    }
    n :| n in a * b && n !in faulty * roster.Keys;
  }

  /** For one height of one chain. */
  predicate Rivals(s: Statement, t: Statement) {
    s.chainId == t.chainId && s.height == t.height
  }

  /** No key of an honest seat signs two blocks of one height of a chain. */
  ghost predicate OneBlockAKey(signed: set<Signature>, roster: map<NodeId, Key>, faulty: set<NodeId>) {
    forall n, s, t {:trigger Sig(roster[n], s), Sig(roster[n], t)} ::
      n in roster && n !in faulty && Sig(roster[n], s) in signed && Sig(roster[n], t) in signed ==>
        Rivals(s, t) ==> s.blockHash == t.blockHash
  }

  /** Every signature the certificate carries was made. */
  predicate Exists(c: Cert, signed: set<Signature>) {
    forall g <- c.signatures :: g in signed
  }

  /** Whatever the honest seats signed, one block each, and the faulty ones, no height has two certified blocks. */
  ghost predicate OneBlockCertified(quorum: int, roster: map<NodeId, Key>, faulty: set<NodeId>) {
    forall signed, c, d {:trigger Exists(c, signed), Exists(d, signed)} ::
      OneBlockAKey(signed, roster, faulty) && Exists(c, signed) && Exists(d, signed)
      && Certified(c, quorum, roster) && Certified(d, quorum, roster) && Rivals(c.statement, d.statement) ==>
        c.statement.blockHash == d.statement.blockHash
  }

  lemma OverlapIsEnough(quorum: int, roster: map<NodeId, Key>, faulty: set<NodeId>)
    requires 2 * quorum > |roster.Keys| + |faulty * roster.Keys|
    ensures OneBlockCertified(quorum, roster, faulty)
  {
    hide Names, Vouched;
    forall signed, c, d {:trigger Exists(c, signed), Exists(d, signed)} |
      OneBlockAKey(signed, roster, faulty) && Exists(c, signed) && Exists(d, signed)
      && Certified(c, quorum, roster) && Certified(d, quorum, roster) && Rivals(c.statement, d.statement)
      ensures c.statement.blockHash == d.statement.blockHash
    {
      var x, a :| Names(c, x, a) && Vouched(c, a, quorum, roster);
      var y, b :| Names(d, y, b) && Vouched(d, b, quorum, roster);
      var n := CertificatesMeet(c, d, a, b, quorum, roster, faulty);
    }
  }

  /** Seats that do not count signed the same statement under their own keys, and are none of those that do. */
  lemma ShadowsSignedToo(c: Cert, quorum: int, roster: map<NodeId, Key>, n: NodeId)
    requires Valid(c, quorum, roster) && n in c.shadowSigners
    ensures n in roster && n !in c.signers && Sig(roster[n], c.statement) in c.shadowSignatures
  {
    ValidIsVouched(c, quorum, roster);
    var j :| 0 <= j < |c.shadowSigners| && c.shadowSigners[j] == n;
    assert c.shadowSignatures[j] == Sig(roster[n], c.statement);
    assert n in SetOf(c.shadowSigners);
  }

  /** The root of a verified certificate commits its counting seats and their signatures: one root, one list. */
  lemma RootPinsTheSigners(c: Cert, d: Cert, quorum: int, roster: map<NodeId, Key>)
    requires Valid(c, quorum, roster) && Valid(d, quorum, roster) && c.root == d.root
    ensures c.signers == d.signers && c.signatures == d.signatures && c.scheme == d.scheme
  {
    var x, y := Zip(c.signers, c.signatures), Zip(d.signers, d.signatures);
    assert x == y && |x| == |c.signers| && |y| == |d.signers|;
    forall i | 0 <= i < |x| ensures c.signers[i] == d.signers[i] && c.signatures[i] == d.signatures[i] {
      assert x[i] == y[i];
    }
  }

  // ---- and nothing less will do ----

  function On(blockHash: Hash): Statement {
    Statement("", 0, blockHash, 0, "")
  }

  /** Everyone in `who` signs block `h`. */
  function Signing(roster: map<NodeId, Key>, who: set<NodeId>, h: Hash): (r: set<Signature>)
    requires who <= roster.Keys
  {
    set n | n in who :: Sig(roster[n], On(h))
  }

  /** A plain certificate on `h` by exactly `who`. */
  function CertBy(roster: map<NodeId, Key>, who: seq<NodeId>, h: Hash): Cert
    requires SetOf(who) <= roster.Keys
  {
    var sigs := seq(|who|, i requires 0 <= i < |who| => assert who[i] in SetOf(who); Sig(roster[who[i]], On(h)));
    Cert(On(h), who, sigs, [], [], RootOf(ED25519, Zip(who, sigs)), ED25519, NoDigest, NoBits, NoBits)
  }

  lemma {:induction false} Listed(all: set<NodeId>) returns (list: seq<NodeId>)
    ensures Distinct(list) && SetOf(list) == all && |list| == |all|
  {
    if all == {} {
      list := [];
      assert SetOf(list) == {};
    } else {
      var n :| n in all;
      var rest := Listed(all - {n});
      list := rest + [n];
      assert forall x :: x in list <==> x in SetOf(rest) || x == n;
      assert forall i | 0 <= i < |rest| :: rest[i] in SetOf(rest);
    }
  }

  lemma CertByIsValid(roster: map<NodeId, Key>, who: seq<NodeId>, h: Hash, quorum: int)
    requires SetOf(who) <= roster.Keys && Distinct(who) && |who| >= quorum
    ensures Valid(CertBy(roster, who, h), quorum, roster)
    ensures Exists(CertBy(roster, who, h), Signing(roster, SetOf(who), h))
  {
    var c := CertBy(roster, who, h);
    assert c.signers + c.shadowSigners == who;
    forall i | 0 <= i < |who| ensures who[i] in roster && c.signatures[i] in Signing(roster, SetOf(who), h) {
      assert who[i] in SetOf(who);
    }
  }

  /** Two sets of at least `quorum` seats that meet in faulty seats only. */
  lemma QuorumsApart(all: set<NodeId>, faulty: set<NodeId>, quorum: int) returns (a: set<NodeId>, b: set<NodeId>)
    requires faulty <= all && 2 * quorum <= |all| + |faulty|
    ensures a <= all && b <= all && |a| >= quorum && |b| >= quorum && a * b <= faulty
  {
    if quorum <= |faulty| {
      return faulty, faulty;
    }
    var honest := all - faulty;
    assert all == honest + faulty;
    var one := SubsetOfSize(honest, quorum - |faulty|);
    assert |honest - one| == |honest| - |one|;
    var other := SubsetOfSize(honest - one, quorum - |faulty|);
    assert one !! other && |faulty + one| == |faulty| + |one| && |faulty + other| == |faulty| + |other|;
    return faulty + one, faulty + other;
  }

  lemma ApartKeepsDiscipline(roster: map<NodeId, Key>, faulty: set<NodeId>, a: set<NodeId>, b: set<NodeId>)
    requires a <= roster.Keys && b <= roster.Keys && a * b <= faulty
    requires forall m, n :: m in roster && n in roster && roster[m] == roster[n] ==> m == n
    ensures OneBlockAKey(Signing(roster, a, 0) + Signing(roster, b, 1), roster, faulty)
  {
    var signed := Signing(roster, a, 0) + Signing(roster, b, 1);
    forall n, s {:trigger Sig(roster[n], s)} | n in roster && n !in faulty && Sig(roster[n], s) in signed
      ensures s.blockHash == if n in a then 0 else 1 {
      if Sig(roster[n], s) in Signing(roster, a, 0) {
        var m :| m in a && Sig(roster[m], On(0)) == Sig(roster[n], s);
        assert m == n;
      } else {
        var m :| m in b && Sig(roster[m], On(1)) == Sig(roster[n], s);
        assert m == n;
      }
    }
  }

  /** Otherwise two certificates on two blocks of one height verify, although every honest seat signed one. */
  lemma TwoCertificates(quorum: int, roster: map<NodeId, Key>, faulty: set<NodeId>)
    returns (signed: set<Signature>, c: Cert, d: Cert)
    requires forall m, n :: m in roster && n in roster && roster[m] == roster[n] ==> m == n
    requires 2 * quorum <= |roster.Keys| + |faulty * roster.Keys|
    ensures OneBlockAKey(signed, roster, faulty) && Exists(c, signed) && Exists(d, signed)
    ensures Valid(c, quorum, roster) && Valid(d, quorum, roster) && c.scheme == d.scheme == ED25519
    ensures !c.Compact() && !d.Compact() && Rivals(c.statement, d.statement)
    ensures c.statement.blockHash != d.statement.blockHash
  {
    hide OneBlockAKey, Valid, Zip;
    var a, b := QuorumsApart(roster.Keys, faulty * roster.Keys, quorum);
    ApartKeepsDiscipline(roster, faulty, a, b);
    signed := Signing(roster, a, 0) + Signing(roster, b, 1);
    var x := Listed(a);
    var y := Listed(b);
    CertByIsValid(roster, x, 0, quorum);
    CertByIsValid(roster, y, 1, quorum);
    c, d := CertBy(roster, x, 0), CertBy(roster, y, 1);
  }

  /** One block a height is certified, whatever anyone signs, exactly when twice the quorum exceeds the roster and its
      faulty seats together. */
  lemma OneBlockCertifiedIff(quorum: int, roster: map<NodeId, Key>, faulty: set<NodeId>)
    requires forall m, n :: m in roster && n in roster && roster[m] == roster[n] ==> m == n
    ensures OneBlockCertified(quorum, roster, faulty) <==> 2 * quorum > |roster.Keys| + |faulty * roster.Keys|
  {
    if 2 * quorum > |roster.Keys| + |faulty * roster.Keys| {
      OverlapIsEnough(quorum, roster, faulty);
    } else {
      var signed, c, d := TwoCertificates(quorum, roster, faulty);
      ValidIsVouched(c, quorum, roster);
      ValidIsVouched(d, quorum, roster);
      assert Names(c, None, SetOf(c.signers)) && Names(d, None, SetOf(d.signers));
      assert Certified(c, quorum, roster) && Certified(d, quorum, roster);
      assert Exists(c, signed) && Exists(d, signed);
    }
  }
}
