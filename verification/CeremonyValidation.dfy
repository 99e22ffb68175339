/**
 What a seat's own validation is worth (chain/ceremony.py, `_react`, `_decide`): in every run an accepted block is one
 the accepting seats validated, so nothing is finalised that nobody checked, and an equivocating leader finalises
 nothing.
 */
module CeremonyValidation {
  import opened Basics
  import opened Seats
  import opened QuorumCert
  import opened Distances
  import opened CeremonyGrid
  import opened Envelope
  import opened Ceremony
  import opened CeremonyAgreement
  import opened CeremonyCompletion
  import opened CeremonyDecision
  import opened CeremonyTheorems

  // ---- what every seat's state says, in every round of every run ----

  /** Signed by the leader of this ceremony, under its roster key, for this height, epoch, grid and chain. */
  predicate FromLeader(c: Context, sp: SignedProposal) {
    && sp.leaderId == c.leaderId && c.leaderId in c.validators && sp.publicKey == c.validators[c.leaderId]
    && sp.signatureOk && sp.height == c.height && sp.epoch == c.epoch && sp.gridSeed == c.gridSeed
    && sp.chainId == c.chainId
  }

  /** A signed report of this height by a roster seat; of a leader's two blocks only with both as evidence. */
  predicate Backed(c: Context, f: FaultReport) {
    && f.reporter in c.validators && f.publicKey == c.validators[f.reporter] && f.signatureOk && f.height == c.height
    && f.epoch == c.epoch
    && (f.kind.Equivocation? ==>
          && |f.evidence| == 2 && f.evidence[0].blockHash != f.evidence[1].blockHash
          && f.evidence[0].leaderId == f.evidence[1].leaderId && f.evidence[0].publicKey == f.evidence[1].publicKey
          && forall sp <- f.evidence :: sp.signatureOk && sp.height == c.height && sp.epoch == c.epoch)
    && (f.kind.LazyAttestation? ==> f.kind.wellFormed)
  }

  /** The seat's report that it found this block invalid is among the faults. */
  ghost predicate Objects(n: NodeId, v: View, h: Hash) {
    exists f <- v.faults :: f.reporter == n && f.kind == InvalidBlock && |f.evidence| == 1
      && f.evidence[0].blockHash == h
  }

  ghost predicate Trusty(c: Config, n: NodeId, s: SeatState) {
    && (forall sp <- s.view.proposals :: FromLeader(c.ctx, sp))
    && (forall f <- s.view.faults :: Backed(c.ctx, f))
    && (s.own.Some? ==> s.own.value.ok == c.accepts(n, s.own.value.blockHash)
                        && s.own.value.blockHash in Hashes(s.view.proposals))
    && (s.own.Some? && !s.own.value.ok ==> s.reacted && Objects(n, s.view, s.own.value.blockHash))
    && (s.reacted ==> s.view.EquivocationShown() || (s.own.Some? && !s.own.value.ok))
  }

  /** Nothing an envelope holds is lost by absorbing another, and what comes in is checked. */
  lemma {:induction false} ReceivedIsTrusty(c: Config, n: NodeId, s: SeatState, inbox: seq<View>)
    requires Trusty(c, n, s)
    ensures Trusty(c, n, s.(view := Received(c.ctx, s.view, inbox)))
    ensures Hashes(s.view.proposals) <= Hashes(Received(c.ctx, s.view, inbox).proposals)
  {
    hide Context.AdmitsAttestation, Context.AdmitsProposal, Context.AdmitsFault;
    if inbox == [] {
      assert s.(view := s.view) == s;
    } else {
      var front := s.(view := Received(c.ctx, s.view, inbox[..|inbox| - 1]));
      ReceivedIsTrusty(c, n, s, inbox[..|inbox| - 1]);
      AbsorbedIsTrusty(c, n, front, inbox[|inbox| - 1]);
    }
  }

  lemma AbsorbedIsTrusty(c: Config, n: NodeId, s: SeatState, other: View)
    requires Trusty(c, n, s)
    ensures Trusty(c, n, s.(view := Absorbed(c.ctx, s.view, other)))
    ensures Hashes(s.view.proposals) <= Hashes(Absorbed(c.ctx, s.view, other).proposals)
  {
    var w := Absorbed(c.ctx, s.view, other);
    assert s.view.proposals <= w.proposals && s.view.faults <= w.faults;
    HashesGrow(s.view.proposals, w.proposals);
  }

  lemma HashesGrow(p: set<SignedProposal>, q: set<SignedProposal>)
    requires p <= q
    ensures Hashes(p) <= Hashes(q)
  {
  }

  lemma {:induction false} SeededIsTrusty(c: Config, seeds: seq<(NodeId, SignedProposal)>, n: NodeId, k: nat)
    requires k <= |seeds|
    ensures Trusty(c, n, SeatState(Seeded(c.ctx, seeds, n, k), None, false))
  {
    if k > 0 {
      SeededIsTrusty(c, seeds, n, k - 1);
    }
  }

  lemma FaultStays(c: Config, n: NodeId, s: SeatState, f: FaultReport)
    requires Trusty(c, n, s) && c.ctx.AdmitsFault(f)
    ensures var w := WithFault(c.ctx, s.view, f);
            && s.view.faults <= w.faults && w.proposals == s.view.proposals
            && (forall g <- w.faults :: Backed(c.ctx, g))
            && exists g <- w.faults :: g.Id() == f.Id()
  {
  }

  lemma RefusalIsTrusty(c: Config, n: NodeId, s: SeatState, sp: SignedProposal)
    requires n in c.ctx.validators && Trusty(c, n, s) && sp in s.view.proposals && !c.accepts(n, sp.blockHash)
    ensures Trusty(c, n, Reacted(c.ctx, n, s, Refuse(sp)))
  {
    var f := InvalidReport(c.ctx, n, sp);
    FaultStays(c, n, s, f);
    var w := WithFault(c.ctx, s.view, f);
    var g :| g in w.faults && g.Id() == f.Id();
    assert |g.evidence| == |f.Id().evidence| == 1 && f.Id().evidence[0] == sp.blockHash;
    assert g.evidence[0].blockHash == g.Id().evidence[0];
    assert Objects(n, w, sp.blockHash);
  }

  lemma DenialIsAdmitted(c: Config, n: NodeId, a: SignedProposal, b: SignedProposal)
    requires n in c.ctx.validators && FromLeader(c.ctx, a) && FromLeader(c.ctx, b) && a.blockHash < b.blockHash
    ensures c.ctx.AdmitsFault(EquivocationReport(c.ctx, n, a, b))
  {
  }

  lemma DenialIsTrusty(c: Config, n: NodeId, s: SeatState, a: SignedProposal, b: SignedProposal)
    requires n in c.ctx.validators && Trusty(c, n, s) && IsEvidence(s.view.proposals, a, b)
    ensures Trusty(c, n, Reacted(c.ctx, n, s, Denounce(a, b)))
  {
    hide Objects;
    var f := EquivocationReport(c.ctx, n, a, b);
    DenialIsAdmitted(c, n, a, b);
    FaultStays(c, n, s, f);
    var w := WithFault(c.ctx, s.view, f);
    var g :| g in w.faults && g.Id() == f.Id();
    var after := Reacted(c.ctx, n, s, Denounce(a, b)).view;
    assert after.faults == w.faults && after.proposals == s.view.proposals;
    DenialShows(c, after, g, f);
    ObjectsStays(n, s.view, after);
  }

  lemma ObjectsStays(n: NodeId, v: View, w: View)
    requires v.faults <= w.faults
    ensures forall h :: Objects(n, v, h) ==> Objects(n, w, h)
  {
  }

  lemma DenialShows(c: Config, w: View, g: FaultReport, f: FaultReport)
    requires g in w.faults && g.Id() == f.Id() && f.kind.Equivocation? && Backed(c.ctx, g)
    ensures w.EquivocationShown()
  {
  }

  lemma ReactionIsTrusty(c: Config, n: NodeId, s: SeatState)
    requires n in c.ctx.validators && Trusty(c, n, s)
    ensures Trusty(c, n, AfterReaction(c, n, s))
    ensures AfterReaction(c, n, s).view.proposals == s.view.proposals
  {
    hide Trusty, IsEvidence;
    if OnePerHash(s.view.proposals) {
      var r := TheReaction(c, n, s);
      match r {
        case Idle =>
        case Attest(h) => AttestIsTrusty(c, n, s, h);
        case Refuse(sp) => RefusalIsTrusty(c, n, s, sp);
        case Denounce(a, b) => DenialIsTrusty(c, n, s, a, b);
      }
    }
  }

  lemma AttestIsTrusty(c: Config, n: NodeId, s: SeatState, h: Hash)
    requires n in c.ctx.validators && Trusty(c, n, s) && IsReaction(c, n, s, Attest(h))
    ensures Trusty(c, n, Reacted(c.ctx, n, s, Attest(h)))
  {
    var sp :| sp in s.view.proposals && Attest(h) == if c.accepts(n, sp.blockHash) then Attest(sp.blockHash)
      else Refuse(sp);
    assert sp.blockHash in Hashes(s.view.proposals);
  }

  /** In every run, for every round and seat: what is held was signed by the leader or by its reporter, and a seat's
      verdict on its one block is its validation's, on a block it holds. */
  lemma {:induction false} SeatIsTrusty(c: Config, x: Schedule, t: nat, n: NodeId)
    requires n in c.ctx.validators
    ensures Trusty(c, n, SeatAfter(c, x, t, n))
  {
    hide Trusty;
    if t == 0 {
      SeededIsTrusty(c, x.seeds, n, |x.seeds|);
      ReactionIsTrusty(c, n, SeatState(Seeded(c.ctx, x.seeds, n, |x.seeds|), None, false));
    } else {
      var s, inbox := SeatAfter(c, x, t - 1, n), Inbox(c, x, t, n, |x.edges|);
      SeatIsTrusty(c, x, t - 1, n);
      ReceivedIsTrusty(c, n, s, inbox);
      ReactionIsTrusty(c, n, s.(view := Received(c.ctx, s.view, inbox)));
    }
  }

  // ---- what an accepted block is worth ----

  /** A seat that accepts holds one proposal, the leader's, and its own validation passed that block. */
  lemma AcceptedIsValidated(c: Config, x: Schedule, t: nat, n: NodeId, quorum: int, h: Hash)
    requires n in c.ctx.validators && IsVerdict(SeatAfter(c, x, t, n), quorum, Accept(h))
    ensures c.accepts(n, h) && Hashes(SeatAfter(c, x, t, n).view.proposals) == {h}
    ensures SeatAfter(c, x, t, n).own == Some(Own(h, true)) && !SeatAfter(c, x, t, n).reacted
  {
    SeatIsTrusty(c, x, t, n);
    var s := SeatAfter(c, x, t, n);
    hide SeatAfter;
    var sp :| sp in s.view.proposals && sp.blockHash == h;
    forall p <- s.view.proposals ensures p == sp {
      Singleton(s.view.proposals, p, sp);
    }
    assert s.view.proposals == {sp};
  }

  /** A seat that refused a block or denounced the leader accepts nothing, and what it refused it reports. */
  lemma ReactedNeverAccepts(c: Config, x: Schedule, t: nat, n: NodeId, quorum: int, v: Verdict)
    requires n in c.ctx.validators && SeatAfter(c, x, t, n).reacted && IsVerdict(SeatAfter(c, x, t, n), quorum, v)
    ensures !v.Accept?
    ensures var s := SeatAfter(c, x, t, n); s.own.Some? && !s.own.value.ok ==>
              Objects(n, s.view, s.own.value.blockHash) && !c.accepts(n, s.own.value.blockHash)
  {
    SeatIsTrusty(c, x, t, n);
  }

  /** The seats whose validation passes the block. */
  ghost function Validators(c: Config, h: Hash): set<NodeId> {
    set n | n in c.grid.seats && c.accepts(n, h)
  }

  /** An attestation in a certificate is a corrupt seat's, or its seat validated the block. */
  lemma SignerValidated(c: Config, x: Schedule, t: nat, n: NodeId, a: Attestation)
    requires c.Ready() && DistinctKeys(c) && n in c.ctx.validators
    requires a in SeatAfter(c, x, t, n).view.attestations && a.nodeId !in x.adv.corrupt
    ensures a.nodeId in c.grid.seats && c.accepts(a.nodeId, a.statement.blockHash)
  {
    hide SeatAfter, Grid.WellSeated;
    HonestAttestsOnce(c, x, t, n, a);
    SeatIsTrusty(c, x, t, a.nodeId);
  }

  lemma CertifiedByValidators(c: Config, x: Schedule, t: nat, h: Hash, from: set<NodeId>)
    requires c.Ready() && DistinctKeys(c) && from <= c.ctx.validators.Keys
    ensures EveryoneFor(c, x, t, h, from) - x.adv.corrupt <= Validators(c, h) * c.ctx.counting
  {
    hide SeatAfter, Grid.WellSeated;
    forall n | n in EveryoneFor(c, x, t, h, from) && n !in x.adv.corrupt
      ensures n in Validators(c, h) * c.ctx.counting {
      var m :| m in from && n in SeatAfter(c, x, t, m).view.For(h);
      var a :| a in SeatAfter(c, x, t, m).view.attestations && a.nodeId == n && a.statement.blockHash == h;
      SignerValidated(c, x, t, m, a);
      SeatIsFiled(c, x, t, m);
      assert n in Voters(SeatAfter(c, x, t, m).view.attestations);
    }
  }

  /** Whatever a run finalises passed the validation of a quorum of seats, and every counting seat in the certificate
      that does not sign arbitrarily passed it: at least quorum minus the traitors of them. */
  lemma FinalisedIsValidated(c: Config, x: Schedule, rounds: nat, quorum: int, o: Outcome)
    requires DistinctKeys(c) && EndsIn(c, x, rounds, quorum, o) && o.Finalised?
    ensures |Validators(c, o.blockHash)| >= quorum && Validators(c, o.blockHash) != {}
    ensures SetOf(o.cert.signers) <= c.ctx.counting
            && SetOf(o.cert.signers) - x.adv.corrupt <= Validators(c, o.blockHash)
    ensures |(Validators(c, o.blockHash) * c.ctx.counting) - x.adv.corrupt| >= quorum - |Traitors(c, x.adv)|
  {
    hide Grid.WellSeated, IsVerdict, SeatAfter;
    var verdicts: map<NodeId, Verdict> :| VerdictsOf(c, x, rounds, quorum, verdicts)
      && IsOutcome(c, x, rounds, quorum, verdicts, o);
    AcceptingValidated(c, x, rounds, quorum, verdicts, o.blockHash);
    SmallerSet(Accepting(verdicts), Validators(c, o.blockHash));
    var signers := SetOf(o.cert.signers);
    SignersAre(c, x, rounds, quorum, verdicts, o);
    CertifiedByValidators(c, x, rounds, o.blockHash, Accepting(verdicts));
    EveryoneCounts(c, x, rounds, o.blockHash, Accepting(verdicts));
    HonestRemain(signers, Validators(c, o.blockHash), c.ctx.counting, x.adv.corrupt);
  }

  lemma AcceptingValidated(c: Config, x: Schedule, rounds: nat, quorum: int, verdicts: map<NodeId, Verdict>, h: Hash)
    requires c.Ready() && VerdictsOf(c, x, rounds, quorum, verdicts) && AcceptedHashes(verdicts) == {h}
    ensures Accepting(verdicts) <= Validators(c, h)
  {
    hide Grid.WellSeated, IsVerdict, SeatAfter;
    forall n <- Accepting(verdicts) ensures n in Validators(c, h) {
      assert verdicts[n].blockHash in AcceptedHashes(verdicts);
      AcceptedIsValidated(c, x, rounds, n, quorum, h);
    }
  }

  lemma SignersAre(c: Config, x: Schedule, rounds: nat, quorum: int, verdicts: map<NodeId, Verdict>, o: Outcome)
    requires c.Ready() && VerdictsOf(c, x, rounds, quorum, verdicts) && IsOutcome(c, x, rounds, quorum, verdicts, o)
    requires o.Finalised?
    ensures SetOf(o.cert.signers) == EveryoneFor(c, x, rounds, o.blockHash, Accepting(verdicts))
    ensures |SetOf(o.cert.signers)| >= quorum
  {
    hide Grid.WellSeated, SeatAfter;
    var n :| n in Accepting(verdicts);
    assert verdicts[n].blockHash in AcceptedHashes(verdicts);
    QuorumGathered(c, x, rounds, quorum, o.blockHash, verdicts, n);
  }

  lemma EveryoneCounts(c: Config, x: Schedule, t: nat, h: Hash, from: set<NodeId>)
    requires from <= c.ctx.validators.Keys
    ensures EveryoneFor(c, x, t, h, from) <= c.ctx.counting
  {
    hide SeatAfter;
    forall n <- EveryoneFor(c, x, t, h, from) ensures n in c.ctx.counting {
      var m :| m in from && n in SeatAfter(c, x, t, m).view.For(h);
      SeatIsFiled(c, x, t, m);
      ForIsCounting(SeatAfter(c, x, t, m).view, c.ctx.counting, h);
    }
  }

  lemma HonestRemain(signers: set<NodeId>, validators: set<NodeId>, counting: set<NodeId>, corrupt: set<NodeId>)
    requires signers <= counting && signers - corrupt <= validators
    ensures |validators * counting - corrupt| >= |signers| - |counting * corrupt|
  {
    SmallerSet(signers - corrupt, validators * counting - corrupt);
    SmallerSet(signers * corrupt, counting * corrupt);
    assert signers == (signers - corrupt) + (signers * corrupt);
    assert |signers| == |signers - corrupt| + |signers * corrupt|;
  }

  /** A block no seat's validation passes is finalised in no run, whoever signs what under whichever keys. */
  lemma NobodyValidatesNobodyFinalises(c: Config, x: Schedule, rounds: nat, quorum: int, o: Outcome, h: Hash)
    requires EndsIn(c, x, rounds, quorum, o) && forall n <- c.grid.seats :: !c.accepts(n, h)
    ensures !(o.Finalised? && o.blockHash == h)
  {
    hide Grid.WellSeated, IsVerdict, SeatAfter;
    if o.Finalised? && o.blockHash == h {
      var verdicts: map<NodeId, Verdict> :| VerdictsOf(c, x, rounds, quorum, verdicts)
        && IsOutcome(c, x, rounds, quorum, verdicts, o);
      assert Validators(c, h) == {};
      AcceptingValidated(c, x, rounds, quorum, verdicts, h);
      assert false;
    }
  }

  // ---- what a report does ----

  /** A seat aborts for equivocation exactly when it holds a report of that kind. */
  lemma ShownIff(c: Config, x: Schedule, t: nat, n: NodeId)
    requires n in c.ctx.validators
    ensures SeatAfter(c, x, t, n).view.EquivocationShown()
            <==> exists f <- SeatAfter(c, x, t, n).view.faults :: f.kind.Equivocation?
  {
    SeatIsTrusty(c, x, t, n);
    var v := SeatAfter(c, x, t, n).view;
    hide SeatAfter;
    if f :| f in v.faults && f.kind.Equivocation? {
      assert Backed(c.ctx, f);
      assert f.evidence[0] in f.evidence && f.evidence[1] in f.evidence;
      assert f.Substantiated();
    }
  }

  /** The report need not be about this ceremony's leader: two signed blocks of anyone for this height do as well, and
      the verdict is the same. */
  lemma AnyonesPairIsShown(c: Context, v: View, reporter: NodeId, a: SignedProposal, b: SignedProposal)
    requires reporter in c.validators && a.signatureOk && b.signatureOk && a.leaderId == b.leaderId
    requires a.publicKey == b.publicKey && a.blockHash != b.blockHash
    requires a.height == b.height == c.height && a.epoch == b.epoch == c.epoch
    ensures var f := EquivocationReport(c, reporter, a, b);
            c.AdmitsFault(f) && (f.Id() !in FaultKeys(v.faults) ==> WithFault(c, v, f).EquivocationShown())
  {
    var f := EquivocationReport(c, reporter, a, b);
    assert f.Substantiated();
    assert f in WithFault(c, v, f).faults || f.Id() in FaultKeys(v.faults);
  }

  /** A seat that meets a second proposal denounces the leader, once, and gives up its own attestation. */
  lemma DenouncingDrops(c: Config, n: NodeId, s: SeatState)
    requires n in c.ctx.validators && Trusty(c, n, s) && s.view.Filed(c.ctx.counting)
    requires |s.view.proposals| >= 2 && !s.reacted
    ensures var after := AfterReaction(c, n, s);
            after.reacted && after.view.EquivocationShown() && n !in Voters(after.view.attestations)
  {
    assert OnePerHash(s.view.proposals);
    var r := TheReaction(c, n, s);
    ReactionIsTrusty(c, n, s);
    assert Trusty(c, n, AfterReaction(c, n, s));
    DenialIsTrusty(c, n, s, r.a, r.b);
    DenialIsFiled(c, n, s, r.a, r.b);
  }

  lemma DenialIsFiled(c: Config, n: NodeId, s: SeatState, a: SignedProposal, b: SignedProposal)
    requires n in c.ctx.validators && Trusty(c, n, s) && IsEvidence(s.view.proposals, a, b)
    ensures var after := Reacted(c.ctx, n, s, Denounce(a, b));
            after.reacted && after.view.EquivocationShown() && n !in Voters(after.view.attestations)
  {
    hide Objects;
    var f := EquivocationReport(c.ctx, n, a, b);
    DenialIsAdmitted(c, n, a, b);
    FaultStays(c, n, s, f);
    var after := Reacted(c.ctx, n, s, Denounce(a, b)).view;
    var g :| g in after.faults && g.Id() == f.Id();
    DenialShows(c, after, g, f);
  }

  lemma {:induction false} ReceivedBringsFaults(c: Context, v: View, inbox: seq<View>, w: View)
    requires w in inbox && forall f <- w.faults :: c.AdmitsFault(f)
    ensures FaultKeys(w.faults) <= FaultKeys(Received(c, v, inbox).faults)
  {
    hide Context.AdmitsAttestation, Context.AdmitsProposal, Context.AdmitsFault, NewAttestations, NewProposals;
    var front, last := inbox[..|inbox| - 1], inbox[|inbox| - 1];
    var before := Received(c, v, front);
    assert inbox == front + [last];
    KeysGrow(before.faults, Received(c, v, inbox).faults);
    if w in front {
      ReceivedBringsFaults(c, v, front, w);
    } else {
      forall f <- w.faults ensures f.Id() in FaultKeys(Received(c, v, inbox).faults) {
        assert f.Id() in FaultKeys(before.faults) || f in NewFaults(c, before.faults, last.faults);
      }
    }
  }

  lemma KeysGrow(f: set<FaultReport>, g: set<FaultReport>)
    requires f <= g
    ensures FaultKeys(f) <= FaultKeys(g)
  {
  }

  /** Nothing takes a report out again. */
  lemma {:induction false} FaultsStay(c: Config, n: NodeId, s: SeatState, inbox: seq<View>)
    requires n in c.ctx.validators
    ensures s.view.faults <= Received(c.ctx, s.view, inbox).faults
    ensures s.view.faults <= AfterReaction(c, n, s).view.faults
  {
    hide Context.AdmitsAttestation, Context.AdmitsProposal, Context.AdmitsFault;
    if inbox != [] {
      FaultsStay(c, n, s, inbox[..|inbox| - 1]);
    }
    if OnePerHash(s.view.proposals) {
      var r := TheReaction(c, n, s);
    }
  }

  lemma FaultsAdmitted(c: Config, x: Schedule, t: nat, n: NodeId)
    requires n in c.ctx.validators
    ensures forall f <- SeatAfter(c, x, t, n).view.faults :: c.ctx.AdmitsFault(f)
  {
    SeatIsTrusty(c, x, t, n);
    forall f <- SeatAfter(c, x, t, n).view.faults ensures c.ctx.AdmitsFault(f) {
      BackedIsAdmitted(c.ctx, f);
    }
  }

  lemma BackedIsAdmitted(c: Context, f: FaultReport)
    requires Backed(c, f)
    ensures c.AdmitsFault(f)
  {
    if f.kind.Equivocation? {
      assert f.evidence[0] in f.evidence && f.evidence[1] in f.evidence;
    }
  }

  /** Where nobody is corrupt a round loses no report a seat holds, and brings it its neighbours'. */
  lemma RoundSpreadsFaults(c: Config, x: Schedule, t: nat, n: NodeId, m: NodeId)
    requires Fits(c, x) && x.adv.corrupt == {} && t > 0 && n in c.grid.seats && m in c.grid.seats
    requires n == m || c.grid.Linked(n, m)
    ensures FaultKeys(SeatAfter(c, x, t - 1, m).view.faults) <= FaultKeys(SeatAfter(c, x, t, n).view.faults)
  {
    hide AfterReaction, Grid.WellSeated, Absorbed, Grid.Linked, Context.AdmitsFault;
    var s, inbox := SeatAfter(c, x, t - 1, n), Inbox(c, x, t, n, |x.edges|);
    var after := s.(view := Received(c.ctx, s.view, inbox));
    FaultsStay(c, n, s, inbox);
    FaultsStay(c, n, after, []);
    KeysGrow(s.view.faults, after.view.faults);
    KeysGrow(after.view.faults, AfterReaction(c, n, after).view.faults);
    if n != m {
      LinkedInbox(c, x, t, n, m);
      FaultsAdmitted(c, x, t - 1, m);
      ReceivedBringsFaults(c.ctx, s.view, inbox, SeatAfter(c, x, t - 1, m).view);
    }
  }

  /** Among honest seats a report filed anywhere is in every envelope within as many steps as rounds. */
  lemma {:induction false} ReportsReach(c: Config, x: Schedule, t: nat, u: nat, src: NodeId, n: NodeId, k: FaultKey)
    requires Fits(c, x) && x.adv.corrupt == {} && src in c.grid.seats && n in Ball(c.grid.Graph(), src, u)
    requires k in FaultKeys(SeatAfter(c, x, t, src).view.faults)
    ensures n in c.grid.seats && k in FaultKeys(SeatAfter(c, x, t + u, n).view.faults)
    decreases u
  {
    hide SeatAfter, Grid.Linked, Grid.WellSeated, Spread;
    if u > 0 {
      var m := BallStep(c.grid, src, u, n);
      ReportsReach(c, x, t, u - 1, src, m, k);
      RoundSpreadsFaults(c, x, t + u, n, m);
    }
  }

  // ---- a leader of two blocks ----

  lemma {:induction false} SeedIsHeld(c: Config, x: Schedule, i: nat, k: nat)
    requires i < k <= |x.seeds| && c.ctx.AdmitsProposal(x.seeds[i].1)
    ensures x.seeds[i].1.blockHash in Hashes(Seeded(c.ctx, x.seeds, x.seeds[i].0, k).proposals)
  {
    if i < k - 1 {
      SeedIsHeld(c, x, i, k - 1);
    }
  }

  lemma SeedIsHeldAtFirst(c: Config, x: Schedule, i: nat)
    requires i < |x.seeds| && c.ctx.AdmitsProposal(x.seeds[i].1) && x.seeds[i].0 in c.ctx.validators
    ensures x.seeds[i].1.blockHash in Hashes(SeatAfter(c, x, 0, x.seeds[i].0).view.proposals)
  {
    hide Trusty, AfterReaction;
    var n := x.seeds[i].0;
    SeedIsHeld(c, x, i, |x.seeds|);
    SeededIsTrusty(c, x.seeds, n, |x.seeds|);
    ReactionIsTrusty(c, n, SeatState(Seeded(c.ctx, x.seeds, n, |x.seeds|), None, false));
  }

  lemma {:induction false} ReceivedBringsHashes(c: Context, v: View, inbox: seq<View>, w: View)
    requires w in inbox && forall sp <- w.proposals :: FromLeader(c, sp)
    ensures Hashes(w.proposals) <= Hashes(Received(c, v, inbox).proposals)
  {
    hide Context.AdmitsAttestation, Context.AdmitsFault, NewAttestations, NewFaults;
    var front, last := inbox[..|inbox| - 1], inbox[|inbox| - 1];
    var before := Received(c, v, front);
    assert inbox == front + [last];
    HashesGrow(before.proposals, Received(c, v, inbox).proposals);
    if w in front {
      ReceivedBringsHashes(c, v, front, w);
    } else {
      forall sp <- w.proposals ensures sp.blockHash in Hashes(Received(c, v, inbox).proposals) {
        assert sp.blockHash in Hashes(before.proposals) || sp in NewProposals(c, before.proposals, last.proposals);
      }
    }
  }

  /** Where nobody is corrupt a round loses no hash a seat holds, and brings it its neighbours'. */
  lemma RoundSpreadsHashes(c: Config, x: Schedule, t: nat, n: NodeId, m: NodeId)
    requires Fits(c, x) && x.adv.corrupt == {} && t > 0 && n in c.grid.seats && m in c.grid.seats
    requires n == m || c.grid.Linked(n, m)
    ensures Hashes(SeatAfter(c, x, t - 1, m).view.proposals) <= Hashes(SeatAfter(c, x, t, n).view.proposals)
  {
    hide AfterReaction, Grid.WellSeated, Trusty, Absorbed, Grid.Linked;
    var s, inbox := SeatAfter(c, x, t - 1, n), Inbox(c, x, t, n, |x.edges|);
    SeatIsTrusty(c, x, t - 1, n);
    ReceivedIsTrusty(c, n, s, inbox);
    ReactionIsTrusty(c, n, s.(view := Received(c.ctx, s.view, inbox)));
    if n != m {
      LinkedInbox(c, x, t, n, m);
      TrustyProposals(c, x, t - 1, m);
      ReceivedBringsHashes(c.ctx, s.view, inbox, SeatAfter(c, x, t - 1, m).view);
    }
  }

  lemma TrustyProposals(c: Config, x: Schedule, t: nat, n: NodeId)
    requires n in c.ctx.validators
    ensures forall sp <- SeatAfter(c, x, t, n).view.proposals :: FromLeader(c.ctx, sp)
  {
    SeatIsTrusty(c, x, t, n);
  }

  lemma {:induction false} HashesReach(c: Config, x: Schedule, t: nat, src: NodeId, n: NodeId, h: Hash)
    requires Fits(c, x) && x.adv.corrupt == {} && src in c.grid.seats && n in Ball(c.grid.Graph(), src, t)
    requires h in Hashes(SeatAfter(c, x, 0, src).view.proposals)
    ensures n in c.grid.seats && h in Hashes(SeatAfter(c, x, t, n).view.proposals)
  {
    hide SeatAfter, Grid.Linked, Grid.WellSeated, Spread;
    if t > 0 {
      var m := BallStep(c.grid, src, t, n);
      HashesReach(c, x, t - 1, src, m, h);
      RoundSpreadsHashes(c, x, t, n, m);
    }
  }

  /** A leader that hands two validly signed blocks to any two seats finalises neither, nor anything else: after
      diameter rounds among honest seats every seat holds both and none accepts. */
  lemma EquivocationStopsTheRun(c: Config, x: Schedule, d: nat, rounds: nat, quorum: int, o: Outcome, i: nat, j: nat)
    requires Fits(c, x) && x.adv.corrupt == {} && Covers(c.grid.Graph(), c.grid.seats.Keys, d) && rounds >= d
    requires i < |x.seeds| && j < |x.seeds| && x.seeds[i].0 in c.grid.seats && x.seeds[j].0 in c.grid.seats
    requires c.ctx.AdmitsProposal(x.seeds[i].1) && c.ctx.AdmitsProposal(x.seeds[j].1)
    requires x.seeds[i].1.blockHash != x.seeds[j].1.blockHash && EndsIn(c, x, rounds, quorum, o)
    ensures o == NobodyAccepted
  {
    hide SeatAfter, Grid.WellSeated, Spread, IsVerdict;
    var verdicts: map<NodeId, Verdict> :| VerdictsOf(c, x, rounds, quorum, verdicts)
      && IsOutcome(c, x, rounds, quorum, verdicts, o);
    forall n <- verdicts ensures !verdicts[n].Accept? {
      HoldsBoth(c, x, d, rounds, i, j, n);
      if verdicts[n].Accept? {
        AcceptedIsValidated(c, x, rounds, n, quorum, verdicts[n].blockHash);
      }
    }
    assert Accepting(verdicts) == {} && AcceptedHashes(verdicts) == {};
  }

  lemma HoldsBoth(c: Config, x: Schedule, d: nat, rounds: nat, i: nat, j: nat, n: NodeId)
    requires Fits(c, x) && x.adv.corrupt == {} && Covers(c.grid.Graph(), c.grid.seats.Keys, d) && rounds >= d
    requires i < |x.seeds| && j < |x.seeds| && x.seeds[i].0 in c.grid.seats && x.seeds[j].0 in c.grid.seats
    requires c.ctx.AdmitsProposal(x.seeds[i].1) && c.ctx.AdmitsProposal(x.seeds[j].1) && n in c.grid.seats
    ensures x.seeds[i].1.blockHash in Hashes(SeatAfter(c, x, rounds, n).view.proposals)
            && x.seeds[j].1.blockHash in Hashes(SeatAfter(c, x, rounds, n).view.proposals)
  {
    hide SeatAfter, Grid.WellSeated, Spread;
    forall k | k == i || k == j
      ensures x.seeds[k].1.blockHash in Hashes(SeatAfter(c, x, rounds, n).view.proposals) {
      SeedIsHeldAtFirst(c, x, k);
      CoversLater(c.grid, x.seeds[k].0, d, rounds, n);
      HashesReach(c, x, rounds, x.seeds[k].0, n, x.seeds[k].1.blockHash);
    }
  }

  lemma CoversLater(grid: Grid, src: NodeId, d: nat, t: nat, n: NodeId)
    requires grid.WellSeated() && Covers(grid.Graph(), grid.seats.Keys, d) && t >= d
    requires src in grid.seats && n in grid.seats
    ensures n in Ball(grid.Graph(), src, t)
  {
    BallGrows(grid.Graph(), src, d, t);
  }
}
