/**
 Whole ceremonies: what every run's outcome is worth, and what an honest one comes to.
 */
module CeremonyTheorems {
  import opened Basics
  import opened Seats
  import opened QuorumCert
  import opened Distances
  import opened CeremonyGrid
  import opened Envelope
  import opened Ceremony
  import opened CeremonyAgreement
  import opened CeremonyCompletion
  import opened CeremonyRun
  import opened CeremonyDecision

  /** The outcome of a whole run under a schedule. */
  ghost predicate EndsIn(c: Config, x: Schedule, rounds: nat, quorum: int, o: Outcome) {
    c.Ready() && exists verdicts ::
      VerdictsOf(c, x, rounds, quorum, verdicts) && IsOutcome(c, x, rounds, quorum, verdicts, o)
  }

  /** `Ceremony.run`: any proposals, any corrupt seats, any number of rounds. */
  method RunCeremony(c: Config, seeds: seq<(NodeId, SignedProposal)>, adv: Adversary, rounds: nat, quorum: int)
    returns (o: Outcome, x: Schedule)
    requires c.Ready()
    ensures Fits(c, x) && x.seeds == seeds && x.adv == adv
    ensures EndsIn(c, x, rounds, quorum, o)
  {
    var env, own, reacted;
    ghost var repr;
    x, env, own, reacted, repr := Rounds(c, seeds, adv, rounds);
    var verdicts;
    o, verdicts := Decide(c, x, rounds, quorum, env, own, reacted, repr);
  }

  lemma SameHash(c: Config, x: Schedule, rounds: nat, quorum: int, verdicts: map<NodeId, Verdict>, g: Hash, h: Hash)
    requires Fits(c, x) == true && DistinctKeys(c) == true && 2 * quorum > |c.ctx.counting| + |Traitors(c, x.adv)|
    requires c.Ready() && VerdictsOf(c, x, rounds, quorum, verdicts)
    requires g in AcceptedHashes(verdicts) && h in AcceptedHashes(verdicts)
    ensures g == h
  {
    var a :| a in verdicts && verdicts[a] == Accept(g);
    var b :| b in verdicts && verdicts[b] == Accept(h);
    Agreement(c, x, rounds, quorum, a, b, g, h);
  }

  /** The branch "seats accepted different blocks" is dead while traitors stay below the overlap of two
      quorums. */
  lemma NeverDifferentBlocks(c: Config, x: Schedule, rounds: nat, quorum: int, o: Outcome)
    requires Fits(c, x) == true && DistinctKeys(c) == true && 2 * quorum > |c.ctx.counting| + |Traitors(c, x.adv)|
    requires EndsIn(c, x, rounds, quorum, o)
    ensures !o.DifferentBlocks?
  {
    hide Grid.WellSeated, VerdictsOf;
    var verdicts: map<NodeId, Verdict> :| VerdictsOf(c, x, rounds, quorum, verdicts)
      && IsOutcome(c, x, rounds, quorum, verdicts, o);
    forall g, h | g in AcceptedHashes(verdicts) && h in AcceptedHashes(verdicts) ensures g == h {
      SameHash(c, x, rounds, quorum, verdicts, g, h);
    }
    AllAlike(AcceptedHashes(verdicts));
  }

  lemma AllAlike(s: set<Hash>)
    requires forall g, h :: g in s && h in s ==> g == h
    ensures |s| <= 1
  {
    if s != {} {
      var g :| g in s;
      assert s == {g};
    }
  }

  /** Whatever happened in a run, a certificate it finalises with verifies, on the block it names. */
  lemma CertificateVerifies(c: Config, x: Schedule, rounds: nat, quorum: int, o: Outcome)
    requires EndsIn(c, x, rounds, quorum, o) && o.Finalised?
    ensures o.cert.statement == c.ctx.StatementOn(o.blockHash) && !o.cert.Compact() && o.cert.scheme == ED25519
    ensures Valid(o.cert, quorum, c.ctx.validators)
  {
    var verdicts: map<NodeId, Verdict> :| VerdictsOf(c, x, rounds, quorum, verdicts)
      && IsOutcome(c, x, rounds, quorum, verdicts, o);
    CertificateOf(c, x, rounds, quorum, verdicts, o);
  }

  lemma CertificateOf(c: Config, x: Schedule, rounds: nat, quorum: int, verdicts: map<NodeId, Verdict>, o: Outcome)
    requires c.Ready() && VerdictsOf(c, x, rounds, quorum, verdicts) == true
             && IsOutcome(c, x, rounds, quorum, verdicts, o)
    requires o.Finalised?
    ensures o.cert.statement == c.ctx.StatementOn(o.blockHash) && !o.cert.Compact() && o.cert.scheme == ED25519
    ensures Valid(o.cert, quorum, c.ctx.validators) == true
  {
    var atts: map<NodeId, Attestation>, shadow: map<NodeId, Attestation> :|
      Gathered(c, x, rounds, o.blockHash, Accepting(verdicts), atts, shadow)
      && BuiltFrom(o.cert, c.ctx.StatementOn(o.blockHash), atts, shadow);
    assert Accepting(verdicts) != {};
    assert o.blockHash in AcceptedHashes(verdicts);
    var n :| n in verdicts && verdicts[n] == Accept(o.blockHash);
    QuorumGathered(c, x, rounds, quorum, o.blockHash, verdicts, n);
    BuiltIsValid(c, o.blockHash, o.cert, atts, shadow, quorum);
  }

  lemma QuorumGathered(c: Config, x: Schedule, rounds: nat, quorum: int, h: Hash, verdicts: map<NodeId, Verdict>,
                       n: NodeId)
    requires c.Ready() && VerdictsOf(c, x, rounds, quorum, verdicts) && n in verdicts && verdicts[n] == Accept(h)
    ensures |EveryoneFor(c, x, rounds, h, Accepting(verdicts))| >= quorum
  {
    hide AfterReaction, Grid.WellSeated, View.EquivocationShown;
    var voters := SeatAfter(c, x, rounds, n).view.For(h);
    assert IsVerdict(SeatAfter(c, x, rounds, n), quorum, Accept(h));
    assert n in Accepting(verdicts);
    SmallerSet(voters, EveryoneFor(c, x, rounds, h, Accepting(verdicts)));
  }

  /** Attestations to h that the roster admits make a certificate the roster accepts. */
  lemma BuiltIsValid(c: Config, h: Hash, cert: Cert, atts: map<NodeId, Attestation>, shadow: map<NodeId, Attestation>,
                     quorum: int)
    requires forall n <- atts :: atts[n].nodeId == n && Endorses(c, h, atts[n])
    requires forall n <- shadow :: shadow[n].nodeId == n && Endorses(c, h, shadow[n])
    requires BuiltFrom(cert, c.ctx.StatementOn(h), atts, shadow) == true && |atts.Keys| >= quorum
    ensures Valid(cert, quorum, c.ctx.validators) == true
  {
    forall n <- atts ensures n in c.ctx.validators && atts[n].signature == Sig(c.ctx.validators[n], cert.statement) {
      EndorsementIsSignature(c, h, atts[n]);
    }
    forall n <- shadow
      ensures n in c.ctx.validators && shadow[n].signature == Sig(c.ctx.validators[n], cert.statement) {
      EndorsementIsSignature(c, h, shadow[n]);
    }
    assert Distinct(cert.signers + cert.shadowSigners) by {
      DistinctUnion(cert.signers, cert.shadowSigners, atts.Keys);
    }
    DistinctSize(cert.signers);
  }

  lemma EndorsementIsSignature(c: Config, h: Hash, a: Attestation)
    requires Endorses(c, h, a)
    ensures a.nodeId in c.ctx.validators && a.signature == Sig(c.ctx.validators[a.nodeId], c.ctx.StatementOn(h))
  {
    assert a.statement == c.ctx.StatementOn(h);
  }

  lemma DistinctUnion(a: seq<NodeId>, b: seq<NodeId>, keys: set<NodeId>)
    requires StrictlySorted(a) && StrictlySorted(b) && SetOf(a) == keys && SetOf(b) !! keys
    ensures Distinct(a) && Distinct(a + b)
  {
    forall i, j | 0 <= i < j < |a + b| ensures (a + b)[i] != (a + b)[j] {
      if i < |a| <= j {
        assert a[i] in SetOf(a) && b[j - |a|] in SetOf(b);
      }
    }
  }

  lemma HonestVerdicts(c: Config, x: Schedule, sp: SignedProposal, d: nat, rounds: nat, quorum: int,
                       verdicts: map<NodeId, Verdict>, n: NodeId)
    requires HonestRun(c, x, sp) == true && Covers(c.grid.Graph(), c.grid.seats.Keys, d) && rounds >= 2 * d
    requires quorum <= |c.ctx.counting|
    requires VerdictsOf(c, x, rounds, quorum, verdicts) && n in verdicts
    ensures verdicts[n] == Accept(sp.blockHash)
  {
    EveryoneHasEverything(c, x, sp, d, rounds, n);
    EveryoneAccepts(c, x, sp, d, rounds, quorum, n);
    VerdictIsUnique(SeatAfter(c, x, rounds, n), quorum, verdicts[n], Accept(sp.blockHash));
  }

  lemma VerdictIsUnique(s: SeatState, quorum: int, v: Verdict, w: Verdict)
    requires IsVerdict(s, quorum, v) && IsVerdict(s, quorum, w)
    ensures v == w
  {
    var ps := s.view.proposals;
    if !s.view.EquivocationShown() && |ps| == 1 && s.own.Some? && s.own.value.ok {
      var p :| p in ps && v == if |s.view.For(p.blockHash)| < quorum then NoQuorum else Accept(p.blockHash);
      var q :| q in ps && w == if |s.view.For(q.blockHash)| < quorum then NoQuorum else Accept(q.blockHash);
      Singleton(ps, p, q);
    }
  }

  /** An honest ceremony finalises the leader's block, with every counting seat in its certificate and every other seat
      in its shadow list. */
  lemma HonestRunFinalises(c: Config, x: Schedule, sp: SignedProposal, d: nat, rounds: nat, quorum: int, o: Outcome)
    requires HonestRun(c, x, sp) == true && Covers(c.grid.Graph(), c.grid.seats.Keys, d) && rounds >= 2 * d
    requires quorum <= |c.ctx.counting| && c.ctx.counting <= c.grid.seats.Keys
    requires EndsIn(c, x, rounds, quorum, o)
    ensures o.Finalised? && o.blockHash == sp.blockHash && SetOf(o.cert.signers) == c.ctx.counting
    ensures SetOf(o.cert.shadowSigners) == c.grid.seats.Keys - c.ctx.counting
  {
    hide SeatAfter, IsVerdict, IsOutcome, EveryoneFor, EveryShadowFor, Covers;
    var verdicts: map<NodeId, Verdict> :| VerdictsOf(c, x, rounds, quorum, verdicts)
      && IsOutcome(c, x, rounds, quorum, verdicts, o);
    forall n <- verdicts ensures verdicts[n] == Accept(sp.blockHash) {
      HonestVerdicts(c, x, sp, d, rounds, quorum, verdicts, n);
    }
    AllCountingGathered(c, x, sp, d, rounds, c.grid.seats.Keys);
    AllShadowsGathered(c, x, sp, d, rounds, c.grid.seats.Keys);
    assert c.grid.leader in c.grid.seats;
    UnanimousOutcome(c, x, sp.blockHash, rounds, quorum, verdicts, o);
  }

  lemma UnanimousOutcome(c: Config, x: Schedule, h: Hash, rounds: nat, quorum: int, verdicts: map<NodeId, Verdict>,
                         o: Outcome)
    requires c.Ready() && VerdictsOf(c, x, rounds, quorum, verdicts) == true
             && IsOutcome(c, x, rounds, quorum, verdicts, o)
    requires quorum <= |c.ctx.counting| && c.ctx.counting <= c.grid.seats.Keys && c.grid.leader in verdicts
    requires forall n <- verdicts :: verdicts[n] == Accept(h)
    ensures o.Finalised? && o.blockHash == h
    ensures SetOf(o.cert.signers) == EveryoneFor(c, x, rounds, h, c.grid.seats.Keys)
    ensures SetOf(o.cert.shadowSigners) ==
            EveryShadowFor(c, x, rounds, h, c.grid.seats.Keys) - EveryoneFor(c, x, rounds, h, c.grid.seats.Keys)
  {
    hide SeatAfter, IsVerdict;
    assert Accepting(verdicts) == c.grid.seats.Keys;
    assert verdicts[c.grid.leader].blockHash in AcceptedHashes(verdicts);
    assert AcceptedHashes(verdicts) == {h};
    SmallerSet(c.ctx.counting, c.grid.seats.Keys);
  }

  lemma AllCountingGathered(c: Config, x: Schedule, sp: SignedProposal, d: nat, rounds: nat, from: set<NodeId>)
    requires HonestRun(c, x, sp) == true && Covers(c.grid.Graph(), c.grid.seats.Keys, d) && rounds >= 2 * d
    requires from == c.grid.seats.Keys
    ensures EveryoneFor(c, x, rounds, sp.blockHash, from) == c.ctx.counting
  {
    forall n <- from ensures SeatAfter(c, x, rounds, n).view.For(sp.blockHash) == c.ctx.counting {
      EveryoneHasEverything(c, x, sp, d, rounds, n);
    }
    assert c.grid.leader in from;
  }

  lemma AllShadowsGathered(c: Config, x: Schedule, sp: SignedProposal, d: nat, rounds: nat, from: set<NodeId>)
    requires HonestRun(c, x, sp) == true && Covers(c.grid.Graph(), c.grid.seats.Keys, d) && rounds >= 2 * d
    requires from == c.grid.seats.Keys
    ensures EveryShadowFor(c, x, rounds, sp.blockHash, from) == from - c.ctx.counting
  {
    hide SeatAfter, ShadowFor;
    forall n <- from ensures ShadowFor(SeatAfter(c, x, rounds, n).view, sp.blockHash) == from - c.ctx.counting {
      EveryShadowIsHeld(c, x, sp, d, rounds, n);
    }
    assert c.grid.leader in from;
  }

  lemma EveryShadowIsHeld(c: Config, x: Schedule, sp: SignedProposal, d: nat, t: nat, n: NodeId)
    requires HonestRun(c, x, sp) == true && Covers(c.grid.Graph(), c.grid.seats.Keys, d) && t >= 2 * d
             && n in c.grid.seats
    ensures ShadowFor(SeatAfter(c, x, t, n).view, sp.blockHash) == c.grid.seats.Keys - c.ctx.counting
  {
    var v := SeatAfter(c, x, t, n).view;
    SeatOnTrack(c, x, sp, t, n);
    SeatIsFiled(c, x, t, n);
    ShadowsAre(c.ctx, sp, v);
    forall m <- c.grid.seats.Keys - c.ctx.counting ensures m in ShadowFor(v, sp.blockHash) {
      assert m in Ball(c.grid.Graph(), c.grid.leader, d) && n in Ball(c.grid.Graph(), m, d);
      AttestationReaches(c, x, sp, t, m, d, n, d);
    }
  }

  lemma ShadowsAre(c: Context, sp: SignedProposal, v: View)
    requires Clean(c, sp, v) && v.Filed(c.counting)
    ensures ShadowFor(v, sp.blockHash) <= c.validators.Keys - c.counting
    ensures forall m | m in c.validators && m !in c.counting
            && Has(c, sp.blockHash, v, m) :: m in ShadowFor(v, sp.blockHash)
  {
    forall m <- ShadowFor(v, sp.blockHash) ensures m in c.validators && m !in c.counting {
      assert m in Voters(v.shadow);
    }
  }

  /** The default schedule with an honest leader: max(2, 2 * diameter) rounds and any quorum the counting
      seats can reach. */
  method RunHonest(c: Config, sp: SignedProposal, quorum: int) returns (o: Outcome, verified: bool)
    requires c.Ready() && c.ctx.counting <= c.grid.seats.Keys && quorum <= |c.ctx.counting|
    requires c.ctx.AdmitsProposal(sp) && forall n <- c.grid.seats :: c.accepts(n, sp.blockHash)
    ensures o.Finalised? && o.blockHash == sp.blockHash && SetOf(o.cert.signers) == c.ctx.counting
    ensures SetOf(o.cert.shadowSigners) == c.grid.seats.Keys - c.ctx.counting
    ensures verified
  {
    var d := c.grid.DiameterOf();
    var rounds := if 2 * d > 2 then 2 * d else 2;
    var x;
    o, x := RunCeremony(c, HonestSeeds(c.grid, sp), Adversary({}, (t, s, r) => Nothing), rounds, quorum);
    HonestSeedsAreOne(c.grid, sp);
    HonestRunFinalises(c, x, sp, d, rounds, quorum, o);
    CertificateVerifies(c, x, rounds, quorum, o);
    verified := Verify(o.cert, quorum, Some(sp.blockHash), Some(c.ctx.validators), None, "");
  }
}
