/**
 The ceremony as it runs (chain/ceremony.py, `Ceremony.run`, `_react`, `_decide`): one Envelope object a
 seat, changed in place, proved to follow the seat-by-seat description of a run.
 */
module CeremonyRun {
  import opened Basics
  import opened Seats
  import opened QuorumCert
  import opened Distances
  import opened CeremonyGrid
  import opened Envelope
  import opened Ceremony
  import opened CeremonyAgreement
  import opened CeremonyCompletion

  lemma {:induction false} SizeOfValues<K(!new), V(!new)>(m: map<K, V>)
    requires forall j, k :: j in m && k in m && m[j] == m[k] ==> j == k
    ensures |m.Values| == |m|
  {
    if m != map[] {
      var k :| k in m;
      var rest := m - {k};
      assert rest.Keys == m.Keys - {k};
      SizeOfValues(rest);
      assert m[k] !in rest.Values;
      assert m.Values == rest.Values + {m[k]} by {
        forall x <- m.Values ensures x in rest.Values + {m[k]} {
          var j :| j in m && m[j] == x;
          assert j == k || (j in rest && rest[j] == x);
        }
      }
      assert |m.Values| == |rest.Values| + 1;
      assert |m.Keys| == |rest.Keys| + 1;
    }
  }

  lemma ProposalsByHash(e: Envelope)
    requires e.Valid()
    ensures OnePerHash(e.Contents().proposals) && |e.Contents().proposals| == |e.proposals|
  {
    SizeOfValues(e.proposals);
  }

  // ---- one reaction ----

  /** Two hashes, least first: `sorted(self.proposals)[:2]`. */
  method EquivocationEvidence(e: Envelope) returns (a: SignedProposal, b: SignedProposal)
    requires e.Valid() && |e.proposals| >= 2
    ensures IsEvidence(e.Contents().proposals, a, b)
  {
    var least := Least(e.proposals.Keys);
    var rest := e.proposals.Keys - {least};
    assert |rest| == |e.proposals.Keys| - 1;
    var next := Least(rest);
    a, b := e.proposals[least], e.proposals[next];
    forall sp <- e.proposals.Values ensures sp.blockHash == least || next <= sp.blockHash {
      assert sp.blockHash == least || sp.blockHash in rest;
    }
  }

  method React(c: Config, n: NodeId, e: Envelope, own: Option<Own>, hasReacted: bool)
    returns (validated: Option<Own>, reacted: bool)
    requires n in c.ctx.validators && e.Valid() && e.ctx == c.ctx
    modifies e
    ensures e.Valid()
    ensures SeatState(e.Contents(), validated, reacted) ==
            AfterReaction(c, n, SeatState(old(e.Contents()), own, hasReacted))
    ensures own.Some? ==> validated.Some?
    ensures hasReacted ==> reacted
  {
    ghost var s := SeatState(e.Contents(), own, hasReacted);
    ProposalsByHash(e);
    ghost var r := TheReaction(c, n, s);
    if |e.proposals| >= 2 && !hasReacted {
      var a, b := EquivocationEvidence(e);
      ReactionIsUnique(c, n, s, r, Denounce(a, b));
      DenounceLeader(c, n, e, a, b);
      return own, true;
    }
    if hasReacted || |e.proposals| != 1 || own.Some? {
      return own, hasReacted;
    }
    var sp := SoleProposal(e);
    ReactionIsUnique(c, n, s, r, if c.accepts(n, sp.blockHash) then Attest(sp.blockHash) else Refuse(sp));
    if c.accepts(n, sp.blockHash) {
      var _ := e.AddAttestation(c.ctx.AttestationOf(n, sp.blockHash));
      return Some(Own(sp.blockHash, true)), hasReacted;
    }
    var _ := e.AddFault(InvalidReport(c.ctx, n, sp));
    return Some(Own(sp.blockHash, false)), true;
  }

  method DenounceLeader(c: Config, n: NodeId, e: Envelope, a: SignedProposal, b: SignedProposal)
    requires n in c.ctx.validators && e.Valid() && e.ctx == c.ctx
    modifies e
    ensures e.Valid() && e.Contents() == Reacted(c.ctx, n, SeatState(old(e.Contents()), None, false),
                                                 Denounce(a, b)).view
  {
    var _ := e.AddFault(EquivocationReport(c.ctx, n, a, b));
    e.DropAttestation(n);
  }

  method SoleProposal(e: Envelope) returns (sp: SignedProposal)
    requires e.Valid() && |e.proposals| == 1
    ensures e.Contents().proposals == {sp}
  {
    var h :| h in e.proposals;
    sp := e.proposals[h];
    ProposalsByHash(e);
    forall p <- e.proposals.Values ensures p == sp {
      Singleton(e.proposals.Values, p, sp);
    }
  }

  // ---- all the seats ----

  /** Names the seats that a statement about every seat is needed for. */
  predicate Of(n: NodeId) { true }

  /** One envelope a seat, none shared; `repr` holds them. */
  ghost predicate Wired(c: Config, env: map<NodeId, Envelope>, repr: set<Envelope>)
    reads repr
  {
    && env.Keys == c.grid.seats.Keys
    && (forall n {:trigger Of(n)} | Of(n) && n in env :: env[n] in repr && env[n].Valid() && env[n].ctx == c.ctx)
    && (forall m, n {:trigger Of(m), Of(n)} | Of(m) && Of(n) && m in env && n in env && m != n :: env[m] != env[n])
  }

  /** What the run's variables say of one seat. */
  ghost function StateOf(e: Envelope, own: map<NodeId, Own>, reacted: set<NodeId>, n: NodeId): SeatState
    reads e
  {
    SeatState(e.Contents(), if n in own then Some(own[n]) else None, n in reacted)
  }

  method Open(c: Config) returns (env: map<NodeId, Envelope>, ghost repr: set<Envelope>)
    requires c.Ready()
    ensures Wired(c, env, repr) && fresh(repr)
    ensures forall n {:trigger Of(n)} | Of(n) && n in env :: env[n].Contents() == Nothing
  {
    env, repr := map[], {};
    var left := c.grid.seats.Keys;
    while left != {}
      invariant left <= c.grid.seats.Keys && env.Keys == c.grid.seats.Keys - left && fresh(repr)
      invariant forall n {:trigger Of(n)} | Of(n) && n in env ::
                  env[n] in repr && env[n].Valid() && env[n].ctx == c.ctx && env[n].Contents() == Nothing
      invariant forall m, n {:trigger Of(m), Of(n)} | Of(m) && Of(n) && m in env && n in env
                && m != n :: env[m] != env[n]
      decreases left
    {
      var n :| n in left;
      var e := new Envelope(c.ctx);
      env, repr := env[n := e], repr + {e};
      left := left - {n};
    }
  }

  /** The behaviour's proposals; one addressed to nobody seated is dropped. */
  method Seed(c: Config, seeds: seq<(NodeId, SignedProposal)>, env: map<NodeId, Envelope>, ghost repr: set<Envelope>)
    requires Wired(c, env, repr) && forall n {:trigger Of(n)} | Of(n) && n in env :: env[n].Contents() == Nothing
    modifies repr
    ensures Wired(c, env, repr) && forall n {:trigger Of(n)} | Of(n)
            && n in env :: env[n].Contents() == Seeded(c.ctx, seeds, n, |seeds|)
  {
    for i := 0 to |seeds|
      invariant Wired(c, env, repr) && forall n {:trigger Of(n)} | Of(n)
                && n in env :: env[n].Contents() == Seeded(c.ctx, seeds, n, i)
    {
      var (target, sp) := seeds[i];
      if target in env {
        assert Of(target);
        var _ := env[target].AddProposal(sp);
      }
    }
  }

  method ReactAt(c: Config, env: map<NodeId, Envelope>, own: map<NodeId, Own>, reacted: set<NodeId>, n: NodeId,
                 ghost repr: set<Envelope>)
    returns (own': map<NodeId, Own>, reacted': set<NodeId>)
    requires Wired(c, env, repr) && c.Ready() && n in env
    modifies repr
    ensures Wired(c, env, repr)
    ensures StateOf(env[n], own', reacted', n) == AfterReaction(c, n, old(StateOf(env[n], own, reacted, n)))
    ensures forall m {:trigger Of(m)} | Of(m) && m in env && m != n ::
              StateOf(env[m], own', reacted', m) == old(StateOf(env[m], own, reacted, m))
  {
    hide AfterReaction, IsReaction, Reacted, Envelope.Valid;
    assert Of(n);
    var validated, denounced := React(c, n, env[n], if n in own then Some(own[n]) else None, n in reacted);
    own', reacted' := own, reacted;
    if validated.Some? {
      own' := own[n := validated.value];
    }
    if denounced {
      reacted' := reacted + {n};
    }
  }

  method ReactAll(c: Config, env: map<NodeId, Envelope>, own: map<NodeId, Own>, reacted: set<NodeId>,
                  ghost repr: set<Envelope>)
    returns (own': map<NodeId, Own>, reacted': set<NodeId>)
    requires Wired(c, env, repr) == true && c.Ready() == true
    modifies repr
    ensures Wired(c, env, repr)
    ensures forall n {:trigger Of(n)} | Of(n) && n in env ::
              StateOf(env[n], own', reacted', n) == AfterReaction(c, n, old(StateOf(env[n], own, reacted, n)))
  {
    own', reacted' := own, reacted;
    var left := env.Keys;
    while left != {}
      invariant Wired(c, env, repr) && left <= env.Keys
      invariant forall n {:trigger Of(n)} | Of(n)
                && n in left :: StateOf(env[n], own', reacted', n) == old(StateOf(env[n], own, reacted, n))
      invariant forall n {:trigger Of(n)} | Of(n) && n in env && n !in left ::
                  StateOf(env[n], own', reacted', n) == AfterReaction(c, n, old(StateOf(env[n], own, reacted, n)))
      decreases left
    {
      var n :| n in left;
      assert Of(n);
      own', reacted' := ReactAt(c, env, own', reacted', n, repr);
      left := left - {n};
    }
  }

  // ---- one round ----

  /** What seat n holds after the first `k` edges of round t. */
  ghost function MidRound(c: Config, x: Schedule, t: nat, n: NodeId, k: nat): View
    requires t > 0 && n in c.ctx.validators && k <= |x.edges|
  {
    Received(c.ctx, SeatAfter(c, x, t - 1, n).view, Inbox(c, x, t, n, k))
  }

  lemma ReceivedOneMore(c: Context, v: View, inbox: seq<View>, w: View)
    ensures Received(c, v, inbox + [w]) == Absorbed(c, Received(c, v, inbox), w)
  {
    assert (inbox + [w])[..|inbox|] == inbox;
  }

  lemma OneMoreEdge(c: Config, x: Schedule, t: nat, n: NodeId, k: nat)
    requires t > 0 && n in c.ctx.validators && k < |x.edges|
    ensures x.edges[k].a == n ==>
              MidRound(c, x, t, n, k + 1) == Absorbed(c.ctx, MidRound(c, x, t, n, k), Sent(c, x, t, x.edges[k].b, n))
    ensures x.edges[k].a != n && x.edges[k].b == n ==>
              MidRound(c, x, t, n, k + 1) == Absorbed(c.ctx, MidRound(c, x, t, n, k), Sent(c, x, t, x.edges[k].a, n))
    ensures x.edges[k].a != n && x.edges[k].b != n ==> MidRound(c, x, t, n, k + 1) == MidRound(c, x, t, n, k)
  {
    var inbox, v := Inbox(c, x, t, n, k), SeatAfter(c, x, t - 1, n).view;
    ReceivedOneMore(c.ctx, v, inbox, Sent(c, x, t, x.edges[k].b, n));
    ReceivedOneMore(c.ctx, v, inbox, Sent(c, x, t, x.edges[k].a, n));
    assert inbox + [] == inbox;
  }

  lemma OneMoreEdgeForAll(c: Config, x: Schedule, t: nat, k: nat)
    requires t > 0 && k < |x.edges|
    ensures forall n {:trigger Of(n)} | Of(n) && n in c.ctx.validators ::
              MidRound(c, x, t, n, k + 1) ==
                if x.edges[k].a == n then Absorbed(c.ctx, MidRound(c, x, t, n, k), Sent(c, x, t, x.edges[k].b, n))
                else if x.edges[k].b == n then Absorbed(c.ctx, MidRound(c, x, t, n, k), Sent(c, x, t, x.edges[k].a, n))
                else MidRound(c, x, t, n, k)
  {
    forall n | n in c.ctx.validators {
      OneMoreEdge(c, x, t, n, k);
    }
  }

  ghost predicate SnapshotOf(c: Config, x: Schedule, t: nat, snap: map<NodeId, View>, signed: set<Signature>) {
    && snap.Keys == c.grid.seats.Keys && signed == SignedBy(c, x, t)
    && c.ctx.validators.Keys == c.grid.seats.Keys
    && forall n {:trigger Of(n)} | Of(n) && n in snap :: snap[n] == SeatAfter(c, x, t, n).view
  }

  /** A seat sends its snapshot; a corrupt one whatever it can utter. */
  method Send(c: Config, x: Schedule, t: nat, sender: NodeId, receiver: NodeId, snap: map<NodeId, View>,
              signed: set<Signature>)
    returns (v: View)
    requires t > 0 && SnapshotOf(c, x, t - 1, snap, signed) == true && sender in snap
    ensures v == Sent(c, x, t, sender, receiver) && v.Filed(c.ctx.counting) == true
  {
    SentIsFiled(c, x, t, sender, receiver);
    assert Of(sender);
    if sender in x.adv.corrupt {
      return Utterable(c.ctx, x.adv.corrupt, signed, x.adv.forge(t, sender, receiver));
    }
    return snap[sender];
  }

  method AbsorbBoth(c: Config, env: map<NodeId, Envelope>, a: NodeId, b: NodeId, toA: View, toB: View,
                    ghost repr: set<Envelope>)
    requires Wired(c, env, repr) && a in env && b in env && a != b
    requires toA.Filed(c.ctx.counting) == true && toB.Filed(c.ctx.counting) == true
    modifies repr
    ensures Wired(c, env, repr)
    ensures env[a].Contents() == Absorbed(c.ctx, old(env[a].Contents()), toA)
    ensures env[b].Contents() == Absorbed(c.ctx, old(env[b].Contents()), toB)
    ensures forall n {:trigger Of(n)} | Of(n) && n in env && n != a
            && n != b :: env[n].Contents() == old(env[n].Contents())
  {
    hide Envelope.Valid, Absorbed;
    assert Of(a) && Of(b);
    env[a].Absorb(toA);
    env[b].Absorb(toB);
  }

  lemma EdgeJoins(c: Config, x: Schedule, k: nat)
    requires Fits(c, x) && k < |x.edges|
    ensures x.edges[k].a != x.edges[k].b && x.edges[k].a in c.grid.seats && x.edges[k].b in c.grid.seats
  {
    var Edge(a, b) := x.edges[k];
    assert Edge(a, b) in x.edges;
  }

  /** One edge, both directions. */
  method Exchange(c: Config, x: Schedule, t: nat, k: nat, env: map<NodeId, Envelope>, snap: map<NodeId, View>,
                  signed: set<Signature>, ghost repr: set<Envelope>)
    requires Fits(c, x) == true && t > 0 && k < |x.edges| && SnapshotOf(c, x, t - 1, snap, signed) == true
             && Wired(c, env, repr)
    requires forall n {:trigger Of(n)} | Of(n) && n in env :: env[n].Contents() == MidRound(c, x, t, n, k)
    modifies repr
    ensures Wired(c, env, repr)
    ensures forall n {:trigger Of(n)} | Of(n) && n in env :: env[n].Contents() == MidRound(c, x, t, n, k + 1)
  {
    hide Inbox, Config.Ready, Received, Envelope.Contents, Context.AttestationOf, FaultReport.Id, SignedBy;
    var Edge(a, b) := x.edges[k];
    EdgeJoins(c, x, k);
    assert Of(a) && Of(b);
    var toA := Send(c, x, t, b, a, snap, signed);
    var toB := Send(c, x, t, a, b, snap, signed);
    AbsorbBoth(c, env, a, b, toA, toB, repr);
    OneMoreEdgeForAll(c, x, t, k);
  }

  /** The run's variables after round t. */
  ghost predicate AtRound(c: Config, x: Schedule, t: nat, env: map<NodeId, Envelope>, own: map<NodeId, Own>,
                          reacted: set<NodeId>, repr: set<Envelope>)
    requires c.Ready()
    reads repr
  {
    && Wired(c, env, repr)
    && forall n {:trigger Of(n)} | Of(n) && n in env :: StateOf(env[n], own, reacted, n) == SeatAfter(c, x, t, n)
  }

  method Snapshot(c: Config, x: Schedule, t: nat, env: map<NodeId, Envelope>, own: map<NodeId, Own>,
                  reacted: set<NodeId>, ghost repr: set<Envelope>)
    returns (snap: map<NodeId, View>, signed: set<Signature>)
    requires c.Ready() == true && AtRound(c, x, t, env, own, reacted, repr) == true
    ensures SnapshotOf(c, x, t, snap, signed) == true
  {
    snap := map n | n in env :: env[n].Contents();
    signed := set n | n in own && n in c.ctx.validators
      && own[n].ok :: c.ctx.AttestationOf(n, own[n].blockHash).signature;
    forall n | n in c.ctx.validators
      ensures SeatAfter(c, x, t, n).own == if n in own then Some(own[n]) else None
    {
      assert Of(n);
    }
    SignaturesOf(c, x, t, own);
    assert signed == SignaturesIn(c, own);
  }

  function SignaturesIn(c: Config, own: map<NodeId, Own>): set<Signature> {
    set n | n in own && n in c.ctx.validators && own[n].ok :: c.ctx.AttestationOf(n, own[n].blockHash).signature
  }

  lemma SignaturesOf(c: Config, x: Schedule, t: nat, own: map<NodeId, Own>)
    requires forall n <- c.ctx.validators :: SeatAfter(c, x, t, n).own == if n in own then Some(own[n]) else None
    ensures SignaturesIn(c, own) == SignedBy(c, x, t)
  {
    forall s ensures s in SignaturesIn(c, own) <==> s in SignedBy(c, x, t) {
      if s in SignaturesIn(c, own) {
        var n :| n in own && n in c.ctx.validators && own[n].ok
          && c.ctx.AttestationOf(n, own[n].blockHash).signature == s;
        assert SeatAfter(c, x, t, n).own == Some(own[n]);
      }
    }
  }

  method ExchangeAll(c: Config, x: Schedule, t: nat, env: map<NodeId, Envelope>, snap: map<NodeId, View>,
                     signed: set<Signature>, ghost repr: set<Envelope>)
    requires Fits(c, x) == true && t > 0 && SnapshotOf(c, x, t - 1, snap, signed) == true && Wired(c, env, repr) == true
    requires forall n {:trigger Of(n)} | Of(n) && n in env :: env[n].Contents() == SeatAfter(c, x, t - 1, n).view
    modifies repr
    ensures Wired(c, env, repr)
    ensures forall n {:trigger Of(n)} | Of(n) && n in env :: env[n].Contents() == MidRound(c, x, t, n, |x.edges|)
  {
    for k := 0 to |x.edges|
      invariant Wired(c, env, repr)
      invariant forall n {:trigger Of(n)} | Of(n) && n in env :: env[n].Contents() == MidRound(c, x, t, n, k)
    {
      Exchange(c, x, t, k, env, snap, signed, repr);
    }
  }

  lemma RoundIsReaction(c: Config, x: Schedule, t: nat)
    ensures forall n {:trigger Of(n)} | Of(n) && n in c.ctx.validators ::
              SeatAfter(c, x, t + 1, n) == AfterReaction(c, n, Arrived(c, x, t + 1, n))
  {
  }

  method Deliveries(c: Config, x: Schedule, t: nat, env: map<NodeId, Envelope>, own: map<NodeId, Own>,
                    reacted: set<NodeId>, ghost repr: set<Envelope>)
    requires Fits(c, x) == true && AtRound(c, x, t, env, own, reacted, repr) == true
    modifies repr
    ensures Wired(c, env, repr) == true
    ensures forall n {:trigger Of(n)} | Of(n) && n in env :: StateOf(env[n], own, reacted, n) == Arrived(c, x, t + 1, n)
  {
    var snap, signed := Snapshot(c, x, t, env, own, reacted, repr);
    ExchangeAll(c, x, t + 1, env, snap, signed, repr);
  }

  /** From round t to round t + 1. */
  method Round(c: Config, x: Schedule, t: nat, env: map<NodeId, Envelope>, own: map<NodeId, Own>, reacted: set<NodeId>,
               ghost repr: set<Envelope>)
    returns (own': map<NodeId, Own>, reacted': set<NodeId>)
    requires Fits(c, x) == true && AtRound(c, x, t, env, own, reacted, repr) == true
    modifies repr
    ensures AtRound(c, x, t + 1, env, own', reacted', repr) == true
  {
    Deliveries(c, x, t, env, own, reacted, repr);
    RoundIsReaction(c, x, t);
    own', reacted' := ReactAll(c, env, own, reacted, repr);
  }

  /** Round 0: what the behaviour hands out, and the reaction to it. */
  method Start(c: Config, x: Schedule)
    returns (env: map<NodeId, Envelope>, own: map<NodeId, Own>, reacted: set<NodeId>, ghost repr: set<Envelope>)
    requires c.Ready()
    ensures fresh(repr) && AtRound(c, x, 0, env, own, reacted, repr) == true
  {
    env, repr := Open(c);
    Seed(c, x.seeds, env, repr);
    own, reacted := ReactAll(c, env, map[], {}, repr);
  }

  /** The rounds of a run, over the edges the grid itself lists. */
  method Rounds(c: Config, seeds: seq<(NodeId, SignedProposal)>, adv: Adversary, rounds: nat)
    returns (x: Schedule, env: map<NodeId, Envelope>, own: map<NodeId, Own>, reacted: set<NodeId>,
             ghost repr: set<Envelope>)
    requires c.Ready()
    ensures Fits(c, x) == true && x.seeds == seeds && x.adv == adv
    ensures fresh(repr) && AtRound(c, x, rounds, env, own, reacted, repr) == true
  {
    var edges := c.grid.Edges();
    x := Schedule(seeds, adv, edges);
    env, own, reacted, repr := Start(c, x);
    for t := 0 to rounds
      invariant fresh(repr) && AtRound(c, x, t, env, own, reacted, repr) == true
    {
      own, reacted := Round(c, x, t, env, own, reacted, repr);
    }
  }
}
