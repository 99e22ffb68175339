/**
 The decision a ceremony ends with (chain/ceremony.py, `_decide`), and what every run's decision is worth.
 */
module CeremonyDecision {
  import opened Basics
  import opened Seats
  import opened QuorumCert
  import opened Distances
  import opened CeremonyGrid
  import opened Envelope
  import opened Ceremony
  import opened CeremonyAgreement
  import opened CeremonyCompletion
  import opened CeremonyRun

  // ---- everything held was checked ----

  ghost predicate Checked(c: Context, v: View) {
    && (forall a <- v.attestations :: c.AdmitsAttestation(a))
    && (forall a <- v.shadow :: c.AdmitsAttestation(a))
  }

  lemma {:induction false} ReceivedIsChecked(c: Context, v: View, inbox: seq<View>)
    requires Checked(c, v)
    ensures Checked(c, Received(c, v, inbox))
  {
    if inbox != [] {
      ReceivedIsChecked(c, v, inbox[..|inbox| - 1]);
    }
  }

  lemma ReactionKeepsChecked(c: Config, n: NodeId, s: SeatState)
    requires n in c.ctx.validators && Checked(c.ctx, s.view)
    ensures Checked(c.ctx, AfterReaction(c, n, s).view)
  {
    if OnePerHash(s.view.proposals) {
      var r := TheReaction(c, n, s);
    }
  }

  lemma {:induction false} SeatIsChecked(c: Config, x: Schedule, t: nat, n: NodeId)
    requires n in c.ctx.validators
    ensures Checked(c.ctx, SeatAfter(c, x, t, n).view) == true
  {
    if t == 0 {
      SeededHoldsNone(c.ctx, x.seeds, n, |x.seeds|);
      ReactionKeepsChecked(c, n, SeatState(Seeded(c.ctx, x.seeds, n, |x.seeds|), None, false));
    } else {
      var s, inbox := SeatAfter(c, x, t - 1, n), Inbox(c, x, t, n, |x.edges|);
      SeatIsChecked(c, x, t - 1, n);
      ReceivedIsChecked(c.ctx, s.view, inbox);
      ReactionKeepsChecked(c, n, s.(view := Received(c.ctx, s.view, inbox)));
    }
  }

  // ---- one seat's verdict ----

  method Judge(e: Envelope, own: Option<Own>, quorum: int, ghost reacted: bool) returns (v: Verdict)
    requires e.Valid()
    ensures IsVerdict(SeatState(e.Contents(), own, reacted), quorum, v)
  {
    ProposalsByHash(e);
    if exists f <- e.faults.Values :: f.Substantiated() {
      return LeaderEquivocated;
    }
    if |e.proposals| != 1 {
      return if e.proposals == map[] then NoProposal else Conflicting;
    }
    var sp := SoleProposal(e);
    assert sp in e.Contents().proposals;
    if own.None? || !own.value.ok {
      return Rejected;
    }
    var voters := VotersFor(e, sp.blockHash);
    return if |voters| < quorum then NoQuorum else Accept(sp.blockHash);
  }

  method VotersFor(e: Envelope, h: Hash) returns (voters: set<NodeId>)
    requires e.Valid()
    ensures voters == e.Contents().For(h)
  {
    voters := set n | n in e.attestations && e.attestations[n].statement.blockHash == h;
    forall n <- voters ensures n in e.Contents().For(h) {
      assert e.attestations[n] in e.attestations.Values;
    }
  }

  // ---- the certificate's contents ----

  function ShadowFor(v: View, h: Hash): set<NodeId> {
    set a | a in v.shadow && a.statement.blockHash == h :: a.nodeId
  }

  /** Attestations to h held by the seats of `from`, one a node. */
  ghost predicate Gathered(c: Config, x: Schedule, t: nat, h: Hash, from: set<NodeId>, atts: map<NodeId, Attestation>,
                           shadow: map<NodeId, Attestation>)
    requires from <= c.ctx.validators.Keys
  {
    && (forall n <- atts :: atts[n].nodeId == n && Endorses(c, h, atts[n]))
    && (forall n <- shadow :: shadow[n].nodeId == n && Endorses(c, h, shadow[n]))
    && atts.Keys == EveryoneFor(c, x, t, h, from) && shadow.Keys == EveryShadowFor(c, x, t, h, from)
  }

  /** The counting seats some seat of `from` holds an attestation to h of. */
  ghost function EveryoneFor(c: Config, x: Schedule, t: nat, h: Hash, from: set<NodeId>): set<NodeId>
    requires from <= c.ctx.validators.Keys
  {
    set m, n | m in from && n in SeatAfter(c, x, t, m).view.For(h) :: n
  }

  ghost function EveryShadowFor(c: Config, x: Schedule, t: nat, h: Hash, from: set<NodeId>): set<NodeId>
    requires from <= c.ctx.validators.Keys
  {
    set m, n | m in from && n in ShadowFor(SeatAfter(c, x, t, m).view, h) :: n
  }

  predicate Endorses(c: Config, h: Hash, a: Attestation) {
    c.ctx.AdmitsAttestation(a) && a.statement.blockHash == h
  }

  method EntriesFor(c: Config, h: Hash, held: map<NodeId, Attestation>) returns (r: map<NodeId, Attestation>)
    requires forall n <- held :: held[n].nodeId == n && c.ctx.AdmitsAttestation(held[n])
    ensures forall n <- r :: r[n].nodeId == n && Endorses(c, h, r[n])
    ensures r.Keys == set a | a in held.Values && a.statement.blockHash == h :: a.nodeId
  {
    r := map n | n in held && held[n].statement.blockHash == h :: held[n];
    forall n <- r.Keys ensures n in set a | a in held.Values && a.statement.blockHash == h :: a.nodeId {
      assert held[n] in held.Values;
    }
  }

  /** What one seat adds to the gathering. */
  ghost predicate EntriesOf(c: Config, x: Schedule, t: nat, h: Hash, m: NodeId, atts: map<NodeId, Attestation>,
                            shadow: map<NodeId, Attestation>)
    requires m in c.ctx.validators
  {
    && (forall n <- atts :: atts[n].nodeId == n && Endorses(c, h, atts[n]))
    && (forall n <- shadow :: shadow[n].nodeId == n && Endorses(c, h, shadow[n]))
    && atts.Keys == SeatAfter(c, x, t, m).view.For(h)
    && shadow.Keys == ShadowFor(SeatAfter(c, x, t, m).view, h)
  }

  lemma GatheringGrows(c: Config, x: Schedule, t: nat, h: Hash, from: set<NodeId>, atts: map<NodeId, Attestation>,
                       shadow: map<NodeId, Attestation>, m: NodeId, moreAtts: map<NodeId, Attestation>,
                       moreShadow: map<NodeId, Attestation>)
    requires from <= c.ctx.validators.Keys && Gathered(c, x, t, h, from, atts, shadow)
    requires m in c.ctx.validators && EntriesOf(c, x, t, h, m, moreAtts, moreShadow)
    ensures Gathered(c, x, t, h, from + {m}, atts + moreAtts, shadow + moreShadow)
  {
    hide SeatAfter, View.For, Received, ShadowFor, AfterReaction, IsReaction, OnePerHash, Absorbed, Inbox;
    hide Context.AdmitsAttestation, Endorses, Sent;
    assert EveryoneFor(c, x, t, h, from + {m}) == EveryoneFor(c, x, t, h, from) + SeatAfter(c, x, t, m).view.For(h);
    assert EveryShadowFor(c, x, t, h, from + {m}) ==
      EveryShadowFor(c, x, t, h, from) + ShadowFor(SeatAfter(c, x, t, m).view, h);
  }

  lemma {:induction false} HeldIsAdmitted(c: Config, x: Schedule, t: nat, n: NodeId, e: Envelope)
    requires n in c.ctx.validators && e.Valid() && e.Contents() == SeatAfter(c, x, t, n).view
    ensures forall a <- e.attestations.Values :: c.ctx.AdmitsAttestation(a)
    ensures forall a <- e.shadow.Values :: c.ctx.AdmitsAttestation(a)
    ensures forall k <- e.attestations :: c.ctx.AdmitsAttestation(e.attestations[k])
    ensures forall k <- e.shadow :: c.ctx.AdmitsAttestation(e.shadow[k])
  {
    SeatIsChecked(c, x, t, n);
    forall k <- e.attestations ensures c.ctx.AdmitsAttestation(e.attestations[k]) {
      assert e.attestations[k] in e.attestations.Values;
    }
    forall k <- e.shadow ensures c.ctx.AdmitsAttestation(e.shadow[k]) {
      assert e.shadow[k] in e.shadow.Values;
    }
  }

  method EntriesAt(c: Config, x: Schedule, t: nat, h: Hash, m: NodeId, e: Envelope)
    returns (atts: map<NodeId, Attestation>, shadow: map<NodeId, Attestation>)
    requires m in c.ctx.validators && e.Valid() && e.Contents() == SeatAfter(c, x, t, m).view
    ensures EntriesOf(c, x, t, h, m, atts, shadow) == true
  {
    HeldIsAdmitted(c, x, t, m, e);
    atts := EntriesFor(c, h, e.attestations);
    shadow := EntriesFor(c, h, e.shadow);
  }

  /** Every accepting seat's attestations and shadows for the block, a later seat's entry replacing an
      earlier one's. */
  method Gather(c: Config, x: Schedule, t: nat, h: Hash, accepting: set<NodeId>, env: map<NodeId, Envelope>,
                ghost own: map<NodeId, Own>, ghost reacted: set<NodeId>, ghost repr: set<Envelope>)
    returns (atts: map<NodeId, Attestation>, shadow: map<NodeId, Attestation>)
    requires c.Ready() == true && accepting <= c.ctx.validators.Keys && accepting <= env.Keys
             && AtRound(c, x, t, env, own, reacted, repr) == true
    ensures Gathered(c, x, t, h, accepting, atts, shadow) == true
  {
    hide AfterReaction, Grid.WellSeated, Endorses, ShadowFor;
    atts, shadow := map[], map[];
    var left := accepting;
    while left != {}
      invariant left <= accepting && Gathered(c, x, t, h, accepting - left, atts, shadow) == true
      decreases left
    {
      var m :| m in left;
      assert Of(m);
      var moreAtts, moreShadow := EntriesAt(c, x, t, h, m, env[m]);
      GatheringGrows(c, x, t, h, accepting - left, atts, shadow, m, moreAtts, moreShadow);
      assert accepting - left + {m} == accepting - (left - {m});
      atts, shadow := atts + moreAtts, shadow + moreShadow;
      left := left - {m};
    }
    assert accepting - {} == accepting;
  }

  // ---- the decision ----

  datatype Outcome =
    | Finalised(blockHash: Hash, cert: Cert)
    | DifferentBlocks
    | NobodyAccepted
    | TooFewAccepted

  function Accepting(verdicts: map<NodeId, Verdict>): set<NodeId> {
    set n | n in verdicts && verdicts[n].Accept?
  }

  function AcceptedHashes(verdicts: map<NodeId, Verdict>): set<Hash> {
    set n | n in verdicts && verdicts[n].Accept? :: verdicts[n].blockHash
  }

  ghost predicate VerdictsOf(c: Config, x: Schedule, t: nat, quorum: int, verdicts: map<NodeId, Verdict>)
    requires c.Ready()
  {
    verdicts.Keys == c.grid.seats.Keys && forall n <- verdicts :: IsVerdict(SeatAfter(c, x, t, n), quorum, verdicts[n])
  }

  /** The rule: one block accepted, by a quorum of seats, carrying the union of what they hold for it. */
  ghost predicate IsOutcome(c: Config, x: Schedule, t: nat, quorum: int, verdicts: map<NodeId, Verdict>, o: Outcome)
    requires c.Ready() && VerdictsOf(c, x, t, quorum, verdicts)
  {
    if |AcceptedHashes(verdicts)| > 1 then o == DifferentBlocks
    else if Accepting(verdicts) == {} then o == NobodyAccepted
    else if |Accepting(verdicts)| < quorum then o == TooFewAccepted
    else o.Finalised? && AcceptedHashes(verdicts) == {o.blockHash}
         && exists atts, shadow ::
              Gathered(c, x, t, o.blockHash, Accepting(verdicts), atts, shadow)
                && BuiltFrom(o.cert, c.ctx.StatementOn(o.blockHash), atts, shadow)
  }

  method JudgeAll(c: Config, x: Schedule, t: nat, quorum: int, env: map<NodeId, Envelope>, own: map<NodeId, Own>,
                  ghost reacted: set<NodeId>, ghost repr: set<Envelope>)
    returns (verdicts: map<NodeId, Verdict>)
    requires c.Ready() == true && AtRound(c, x, t, env, own, reacted, repr) == true
    ensures VerdictsOf(c, x, t, quorum, verdicts) == true
  {
    hide SeatAfter, Envelope.Valid;
    verdicts := map[];
    var left := env.Keys;
    while left != {}
      invariant left <= env.Keys && verdicts.Keys == env.Keys - left
      invariant forall n <- verdicts :: IsVerdict(SeatAfter(c, x, t, n), quorum, verdicts[n]) == true
      decreases left
    {
      var n :| n in left;
      assert Of(n);
      var v := Judge(env[n], if n in own then Some(own[n]) else None, quorum, n in reacted);
      verdicts := verdicts[n := v];
      left := left - {n};
    }
  }

  method Decide(c: Config, x: Schedule, t: nat, quorum: int, env: map<NodeId, Envelope>, own: map<NodeId, Own>,
                ghost reacted: set<NodeId>, ghost repr: set<Envelope>)
    returns (o: Outcome, verdicts: map<NodeId, Verdict>)
    requires c.Ready() == true && AtRound(c, x, t, env, own, reacted, repr) == true
    ensures VerdictsOf(c, x, t, quorum, verdicts) == true
    ensures IsOutcome(c, x, t, quorum, verdicts, o) == true
  {
    hide AfterReaction, Grid.WellSeated, IsVerdict, View.EquivocationShown, SeatAfter, Endorses;
    verdicts := JudgeAll(c, x, t, quorum, env, own, reacted, repr);
    var accepting, hashes := Accepting(verdicts), AcceptedHashes(verdicts);
    if |hashes| > 1 {
      return DifferentBlocks, verdicts;
    }
    if accepting == {} {
      return NobodyAccepted, verdicts;
    }
    if |accepting| < quorum {
      return TooFewAccepted, verdicts;
    }
    ghost var someone :| someone in accepting;
    assert verdicts[someone].blockHash in hashes;
    var h :| h in hashes;
    assert hashes == {h} by {
      forall g <- hashes ensures g == h {
        AtMostOne(hashes, g, h);
      }
    }
    var atts, shadow := Gather(c, x, t, h, accepting, env, own, reacted, repr);
    var cert := Build(c.ctx.StatementOn(h), atts, shadow);
    return Finalised(h, cert), verdicts;
  }

  lemma AtMostOne(s: set<Hash>, a: Hash, b: Hash)
    requires |s| <= 1 && a in s && b in s
    ensures a == b
  {
    assert |s - {a}| == |s| - 1;
  }
}
