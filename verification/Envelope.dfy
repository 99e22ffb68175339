/**
 What a seat holds and exchanges during a ceremony (chain/ceremony.py, `Envelope`).
 */
module Envelope {
  import opened Basics
  import opened Seats
  import opened QuorumCert

  datatype SignedProposal = SignedProposal(
    blockHash: Hash, height: int, epoch: int, gridSeed: string, leaderId: NodeId, chainId: string,
    publicKey: Key, signatureOk: bool)

  datatype FaultKind = Equivocation | InvalidBlock | LazyAttestation(wellFormed: bool)

  datatype FaultKey = FaultKey(reporter: NodeId, kind: FaultKind, height: int, epoch: int, detail: string,
                               evidence: seq<Hash>)

  datatype FaultReport = FaultReport(
    reporter: NodeId, publicKey: Key, kind: FaultKind, height: int, epoch: int, detail: string,
    evidence: seq<SignedProposal>, signatureOk: bool)
  {
    function Id(): FaultKey {
      FaultKey(reporter, kind, height, epoch, detail,
               seq(|evidence|, i requires 0 <= i < |evidence| => evidence[i].blockHash))
    }

    /** Two validly signed proposals of one leader, one height, one epoch, two hashes. */
    predicate Substantiated() {
      && kind.Equivocation? && |evidence| == 2
      && var a, b := evidence[0], evidence[1];
         && a.signatureOk && b.signatureOk && a.leaderId == b.leaderId && a.publicKey == b.publicKey
         && a.height == b.height == height && a.epoch == b.epoch == epoch && a.blockHash != b.blockHash
    }

    predicate Verifies() {
      && signatureOk
      && match kind
         case Equivocation => Substantiated()
         case InvalidBlock => true
         case LazyAttestation(wellFormed) => wellFormed
    }
  }

  /** What an envelope is opened for: one leader, height and epoch, the roster's keys, and the seats
      whose attestations count. */
  datatype Context = Context(
    height: int, epoch: int, gridSeed: string, leaderId: NodeId, chainId: string,
    validators: map<NodeId, Key>, counting: set<NodeId>)
  {
    predicate HasKey(n: NodeId, key: Key) {
      n in validators && validators[n] == key
    }

    predicate AdmitsProposal(sp: SignedProposal) {
      && sp.height == height && sp.epoch == epoch && sp.gridSeed == gridSeed && sp.leaderId == leaderId
      && sp.chainId == chainId
      && HasKey(sp.leaderId, sp.publicKey) && sp.signatureOk
    }

    predicate AdmitsAttestation(att: Attestation) {
      && att.statement.height == height && att.statement.epoch == epoch && att.statement.gridSeed == gridSeed
      && att.statement.chainId == chainId
      && HasKey(att.nodeId, att.publicKey) && att.Verifies()
    }

    predicate AdmitsFault(fr: FaultReport) {
      fr.height == height && fr.epoch == epoch && HasKey(fr.reporter, fr.publicKey) && fr.Verifies()
    }

    function StatementOn(blockHash: Hash): Statement {
      Statement(chainId, height, blockHash, epoch, gridSeed)
    }

    /** What an honest seat signs. */
    function AttestationOf(n: NodeId, blockHash: Hash): Attestation
      requires n in validators
    {
      var st := StatementOn(blockHash);
      Attestation(n, validators[n], st, Sig(validators[n], st))
    }
  }

  function Hashes(proposals: set<SignedProposal>): set<Hash> {
    set sp | sp in proposals :: sp.blockHash
  }

  function Voters(atts: set<Attestation>): set<NodeId> {
    set a | a in atts :: a.nodeId
  }

  function FaultKeys(faults: set<FaultReport>): set<FaultKey> {
    set f | f in faults :: f.Id()
  }

  /** The contents of an envelope: the values of its four dicts. */
  datatype View = View(
    proposals: set<SignedProposal>, attestations: set<Attestation>, shadow: set<Attestation>, faults: set<FaultReport>)
  {
    /** One entry per key, and shadows are the seats that do not count. */
    ghost predicate Filed(counting: set<NodeId>) {
      && (forall p, q :: p in proposals && q in proposals && p.blockHash == q.blockHash ==> p == q)
      && (forall a, b :: a in attestations && b in attestations && a.nodeId == b.nodeId ==> a == b)
      && (forall a, b :: a in shadow && b in shadow && a.nodeId == b.nodeId ==> a == b)
      && (forall f, g :: f in faults && g in faults && f.Id() == g.Id() ==> f == g)
      && Voters(attestations) <= counting && Voters(shadow) !! counting
    }

    /** The counting seats whose attestation here names this block. */
    function For(blockHash: Hash): set<NodeId> {
      set a | a in attestations && a.statement.blockHash == blockHash :: a.nodeId
    }

    predicate EquivocationShown() {
      exists f <- faults :: f.Substantiated()
    }
  }

  const Nothing := View({}, {}, {}, {})

  function WithProposal(c: Context, v: View, sp: SignedProposal): View {
    if sp.blockHash in Hashes(v.proposals) || !c.AdmitsProposal(sp) then v
    else v.(proposals := v.proposals + {sp})
  }

  function WithAttestation(c: Context, v: View, att: Attestation): View {
    if !c.AdmitsAttestation(att) then v
    else if att.nodeId in c.counting then
      if att.nodeId in Voters(v.attestations) then v else v.(attestations := v.attestations + {att})
    else
      if att.nodeId in Voters(v.shadow) then v else v.(shadow := v.shadow + {att})
  }

  function WithFault(c: Context, v: View, fr: FaultReport): View {
    if fr.Id() in FaultKeys(v.faults) || !c.AdmitsFault(fr) then v
    else v.(faults := v.faults + {fr})
  }

  /** The union of two envelopes, checked entry by entry; on a shared key the receiver's stays. */
  function Absorbed(c: Context, v: View, other: View): View {
    View(v.proposals + NewProposals(c, v.proposals, other.proposals),
         v.attestations + NewAttestations(c, v.attestations, other.attestations),
         v.shadow + NewAttestations(c, v.shadow, other.shadow),
         v.faults + NewFaults(c, v.faults, other.faults))
  }

  function NewProposals(c: Context, mine: set<SignedProposal>, theirs: set<SignedProposal>): set<SignedProposal> {
    set sp | sp in theirs && sp.blockHash !in Hashes(mine) && c.AdmitsProposal(sp)
  }

  function NewAttestations(c: Context, mine: set<Attestation>, theirs: set<Attestation>): set<Attestation> {
    set a | a in theirs && a.nodeId !in Voters(mine) && c.AdmitsAttestation(a)
  }

  function NewFaults(c: Context, mine: set<FaultReport>, theirs: set<FaultReport>): set<FaultReport> {
    set f | f in theirs && f.Id() !in FaultKeys(mine) && c.AdmitsFault(f)
  }

  class Envelope {
    const ctx: Context
    var proposals: map<Hash, SignedProposal>
    var attestations: map<NodeId, Attestation>
    var shadow: map<NodeId, Attestation>
    var faults: map<FaultKey, FaultReport>

    /** Everything is filed under its own key, and in the dict its seat's standing says. */
    ghost predicate Valid()
      reads this
    {
      && (forall h <- proposals :: proposals[h].blockHash == h)
      && (forall n <- attestations :: attestations[n].nodeId == n && n in ctx.counting)
      && (forall n <- shadow :: shadow[n].nodeId == n && n !in ctx.counting)
      && (forall f <- faults :: faults[f].Id() == f)
    }

    function Contents(): View
      reads this
    {
      View(proposals.Values, attestations.Values, shadow.Values, faults.Values)
    }

    constructor (ctx: Context)
      ensures Valid() && this.ctx == ctx && Contents() == Nothing
    {
      this.ctx := ctx;
      proposals, attestations, shadow, faults := map[], map[], map[], map[];
    }

    method AddProposal(sp: SignedProposal) returns (added: bool)
      requires Valid()
      modifies this
      ensures Valid() && Contents() == WithProposal(ctx, old(Contents()), sp)
      ensures added <==> Contents() != old(Contents())
    {
      KeysAreHashes();
      if sp.blockHash in proposals {
        return false;
      }
      if !ctx.AdmitsProposal(sp) {
        return false;
      }
      InsertNew(proposals, sp.blockHash, sp);
      proposals := proposals[sp.blockHash := sp];
      return true;
    }

    method AddAttestation(att: Attestation) returns (added: bool)
      requires Valid()
      modifies this
      ensures Valid() && Contents() == WithAttestation(ctx, old(Contents()), att)
      ensures added <==> Contents() != old(Contents())
    {
      KeysAreVoters();
      if att.nodeId in ctx.counting {
        if att.nodeId in attestations || !ctx.AdmitsAttestation(att) {
          return false;
        }
        InsertNew(attestations, att.nodeId, att);
        attestations := attestations[att.nodeId := att];
      } else {
        if att.nodeId in shadow || !ctx.AdmitsAttestation(att) {
          return false;
        }
        InsertNew(shadow, att.nodeId, att);
        shadow := shadow[att.nodeId := att];
      }
      return true;
    }

    method AddFault(fr: FaultReport) returns (added: bool)
      requires Valid()
      modifies this
      ensures Valid() && Contents() == WithFault(ctx, old(Contents()), fr)
      ensures added <==> Contents() != old(Contents())
    {
      KeysAreFaults();
      if fr.Id() in faults {
        return false;
      }
      if !ctx.AdmitsFault(fr) {
        return false;
      }
      InsertNew(faults, fr.Id(), fr);
      faults := faults[fr.Id() := fr];
      return true;
    }

    /** `attestations.pop(nid, None)`. */
    method DropAttestation(n: NodeId)
      requires Valid()
      modifies this`attestations
      ensures Valid() && Contents() == old(Contents()).(attestations := Without(old(Contents()).attestations, n))
    {
      ghost var was := attestations;
      attestations := attestations - {n};
      forall a ensures a in attestations.Values <==> a in was.Values && a.nodeId != n {
        if a in was.Values && a.nodeId != n {
          assert a.nodeId in attestations && attestations[a.nodeId] == a;
        }
      }
    }

    lemma KeysAreHashes()
      requires Valid()
      ensures Hashes(proposals.Values) == proposals.Keys
    {
      forall h <- proposals ensures h in Hashes(proposals.Values) {
        assert proposals[h] in proposals.Values;
      }
    }

    lemma KeysAreVoters()
      requires Valid()
      ensures Voters(attestations.Values) == attestations.Keys && Voters(shadow.Values) == shadow.Keys
    {
      forall n <- attestations ensures n in Voters(attestations.Values) {
        assert attestations[n] in attestations.Values;
      }
      forall n <- shadow ensures n in Voters(shadow.Values) {
        assert shadow[n] in shadow.Values;
      }
    }

    lemma KeysAreFaults()
      requires Valid()
      ensures FaultKeys(faults.Values) == faults.Keys
    {
      forall f <- faults ensures f in FaultKeys(faults.Values) {
        assert faults[f] in faults.Values;
      }
    }

    method AbsorbProposals(theirs: set<SignedProposal>)
      requires Valid() && forall p, q :: p in theirs && q in theirs && p.blockHash == q.blockHash ==> p == q
      modifies this
      ensures Valid() && var was := old(Contents());
              Contents() == was.(proposals := was.proposals + NewProposals(ctx, was.proposals, theirs))
    {
      ghost var was := Contents();
      var left, done := theirs, {};
      while left != {}
        invariant Valid() && left !! done && left + done == theirs
        invariant Contents() == was.(proposals := was.proposals + NewProposals(ctx, was.proposals, done))
        decreases left
      {
        var sp :| sp in left;
        var _ := AddProposal(sp);
        left, done := left - {sp}, done + {sp};
      }
      assert done == theirs;
    }

    method AbsorbAttestations(theirs: set<Attestation>)
      requires Valid() && Voters(theirs) <= ctx.counting
      requires forall a, b :: a in theirs && b in theirs && a.nodeId == b.nodeId ==> a == b
      modifies this
      ensures Valid() && var was := old(Contents());
              Contents() == was.(attestations := was.attestations + NewAttestations(ctx, was.attestations, theirs))
    {
      hide Envelope.Contents, Envelope.Valid;
      ghost var was := Contents();
      var left, done := theirs, {};
      while left != {}
        invariant Valid() && left !! done && left + done == theirs
        invariant Contents() == was.(attestations := was.attestations + NewAttestations(ctx, was.attestations, done))
        decreases left
      {
        var att :| att in left;
        assert att.nodeId in Voters(theirs);
        var _ := AddAttestation(att);
        left, done := left - {att}, done + {att};
      }
      assert done == theirs;
    }

    method AbsorbShadow(theirs: set<Attestation>)
      requires Valid() && Voters(theirs) !! ctx.counting
      requires forall a, b :: a in theirs && b in theirs && a.nodeId == b.nodeId ==> a == b
      modifies this
      ensures Valid() && var was := old(Contents());
              Contents() == was.(shadow := was.shadow + NewAttestations(ctx, was.shadow, theirs))
    {
      hide Envelope.Contents, Envelope.Valid;
      ghost var was := Contents();
      var left, done := theirs, {};
      while left != {}
        invariant Valid() && left !! done && left + done == theirs
        invariant Contents() == was.(shadow := was.shadow + NewAttestations(ctx, was.shadow, done))
        decreases left
      {
        var att :| att in left;
        assert att.nodeId in Voters(theirs);
        var _ := AddAttestation(att);
        left, done := left - {att}, done + {att};
      }
      assert done == theirs;
    }

    method AbsorbFaults(theirs: set<FaultReport>)
      requires Valid() && forall f, g :: f in theirs && g in theirs && f.Id() == g.Id() ==> f == g
      modifies this
      ensures Valid() && var was := old(Contents());
              Contents() == was.(faults := was.faults + NewFaults(ctx, was.faults, theirs))
    {
      hide Envelope.Contents, Envelope.Valid;
      ghost var was := Contents();
      var left, done := theirs, {};
      while left != {}
        invariant Valid() && left !! done && left + done == theirs
        invariant Contents() == was.(faults := was.faults + NewFaults(ctx, was.faults, done))
        decreases left
      {
        var fr :| fr in left;
        var _ := AddFault(fr);
        left, done := left - {fr}, done + {fr};
      }
      assert done == theirs;
    }

    /** Merging is a checked union, whatever order the other envelope's dicts are walked in. */
    method Absorb(other: View)
      requires Valid() && other.Filed(ctx.counting)
      modifies this
      ensures Valid() && Contents() == Absorbed(ctx, old(Contents()), other)
    {
      AbsorbProposals(other.proposals);
      AbsorbAttestations(other.attestations);
      AbsorbShadow(other.shadow);
      AbsorbFaults(other.faults);
    }
  }

  function Without(atts: set<Attestation>, n: NodeId): set<Attestation> {
    set a | a in atts && a.nodeId != n
  }

  lemma InsertNew<K, V>(m: map<K, V>, k: K, v: V)
    requires k !in m
    ensures m[k := v].Values == m.Values + {v}
  {
    forall x <- m.Values ensures x in m[k := v].Values {
      var j :| j in m && m[j] == x;
      assert m[k := v][j] == x;
    }
    assert m[k := v][k] == v;
  }
}
