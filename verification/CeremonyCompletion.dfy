/**
 Completion: with an honest leader and every validation succeeding, 2 * diameter rounds carry every
 counting seat's attestation into every envelope, and every seat accepts.

 A clause `P(x) == true` is `P(x)`, left folded where it is checked.
 */
module CeremonyCompletion {
  import opened Basics
  import opened Seats
  import opened QuorumCert
  import opened Distances
  import opened CeremonyGrid
  import opened Envelope
  import opened Ceremony
  import opened CeremonyAgreement

  /** What `HonestLeader.propose` hands out: one proposal, to itself and to row 1. */
  function HonestSeeds(grid: Grid, sp: SignedProposal): seq<(NodeId, SignedProposal)> {
    var row1 := if grid.rows == [] then [] else grid.rows[0];
    [(grid.leader, sp)] + seq(|row1|, i requires 0 <= i < |row1| => (row1[i], sp))
  }

  /** The leader signed one proposal, gave it to itself, and to whomever else. */
  ghost predicate OneProposal(seeds: seq<(NodeId, SignedProposal)>, leader: NodeId, sp: SignedProposal) {
    && (exists i :: 0 <= i < |seeds| && seeds[i].0 == leader)
    && forall i {:trigger seeds[i].1} | 0 <= i < |seeds| :: seeds[i].1 == sp
  }

  lemma HonestSeedsAreOne(grid: Grid, sp: SignedProposal)
    ensures OneProposal(HonestSeeds(grid, sp), grid.leader, sp)
  {
    assert HonestSeeds(grid, sp)[0].0 == grid.leader;
  }

  ghost predicate HonestRun(c: Config, x: Schedule, sp: SignedProposal) {
    && Fits(c, x)
    && x.adv.corrupt == {}
    && OneProposal(x.seeds, c.grid.leader, sp)
    && c.ctx.AdmitsProposal(sp)
    && (forall n <- c.grid.seats :: c.accepts(n, sp.blockHash))
    && c.ctx.counting <= c.grid.seats.Keys
  }

  /** Nothing in the envelope but the one proposal and honest attestations to it. */
  ghost predicate Clean(c: Context, sp: SignedProposal, v: View) {
    && v.proposals <= {sp}
    && v.faults == {}
    && (forall a <- v.attestations :: a.nodeId in c.validators && a == c.AttestationOf(a.nodeId, sp.blockHash))
    && (forall a <- v.shadow :: a.nodeId in c.validators && a == c.AttestationOf(a.nodeId, sp.blockHash))
  }

  /** `v` holds seat m's attestation, in the dict its standing says. */
  predicate Has(c: Context, h: Hash, v: View, m: NodeId)
    requires m in c.validators
  {
    c.AttestationOf(m, h) in if m in c.counting then v.attestations else v.shadow
  }

  ghost predicate OnTrack(c: Context, sp: SignedProposal, n: NodeId, s: SeatState)
    requires n in c.validators
  {
    && Clean(c, sp, s.view) && !s.reacted
    && s.own == (if s.view.proposals == {} then None else Some(Own(sp.blockHash, true)))
    && (s.own.Some? ==> Has(c, sp.blockHash, s.view, n))
  }

  lemma HonestIsAdmitted(c: Context, n: NodeId, h: Hash)
    requires n in c.validators
    ensures c.AdmitsAttestation(c.AttestationOf(n, h))
  {
  }

  ghost predicate AllClean(c: Context, sp: SignedProposal, inbox: seq<View>) {
    forall w <- inbox :: Clean(c, sp, w)
  }

  // ---- one message, one inbox ----

  lemma AbsorbClean(c: Context, sp: SignedProposal, v: View, w: View)
    requires Clean(c, sp, v) && Clean(c, sp, w) && c.AdmitsProposal(sp)
    ensures Clean(c, sp, Absorbed(c, v, w))
    ensures Absorbed(c, v, w).proposals == v.proposals + w.proposals
  {
  }

  /** Absorbing loses nothing, and takes over what the message has. */
  lemma AbsorbHas(c: Context, sp: SignedProposal, v: View, w: View, m: NodeId)
    requires m in c.validators && Clean(c, sp, v) && Clean(c, sp, w)
    requires Has(c, sp.blockHash, v, m) || Has(c, sp.blockHash, w, m)
    ensures Has(c, sp.blockHash, Absorbed(c, v, w), m)
  {
    HonestIsAdmitted(c, m, sp.blockHash);
  }

  lemma {:induction false} ReceiveClean(c: Context, sp: SignedProposal, v: View, inbox: seq<View>)
    requires Clean(c, sp, v) && c.AdmitsProposal(sp) && forall w <- inbox :: Clean(c, sp, w)
    ensures Clean(c, sp, Received(c, v, inbox))
    ensures v.proposals <= Received(c, v, inbox).proposals
    ensures forall w <- inbox :: w.proposals <= Received(c, v, inbox).proposals
  {
    if inbox != [] {
      var front, last := inbox[..|inbox| - 1], inbox[|inbox| - 1];
      assert inbox == front + [last];
      ReceiveClean(c, sp, v, front);
      AbsorbClean(c, sp, Received(c, v, front), last);
    }
  }

  lemma {:induction false} ReceiveHas(c: Context, sp: SignedProposal, v: View, inbox: seq<View>, m: NodeId)
    requires m in c.validators && Clean(c, sp, v) && c.AdmitsProposal(sp) && forall w <- inbox :: Clean(c, sp, w)
    requires Has(c, sp.blockHash, v, m) || exists w <- inbox :: Has(c, sp.blockHash, w, m)
    ensures Has(c, sp.blockHash, Received(c, v, inbox), m)
  {
    if inbox != [] {
      var front, last := inbox[..|inbox| - 1], inbox[|inbox| - 1];
      assert inbox == front + [last];
      ReceiveClean(c, sp, v, front);
      if Has(c, sp.blockHash, v, m) || exists w <- front :: Has(c, sp.blockHash, w, m) {
        ReceiveHas(c, sp, v, front, m);
      }
      AbsorbHas(c, sp, Received(c, v, front), last, m);
    }
  }

  /** A clean view, in which a seat that has validated has its own attestation. */
  ghost predicate Ready(c: Config, sp: SignedProposal, n: NodeId, s: SeatState)
    requires n in c.ctx.validators
  {
    && Clean(c.ctx, sp, s.view) && !s.reacted
    && (s.own.Some? ==>
        s.own.value == Own(sp.blockHash, true) && Has(c.ctx, sp.blockHash, s.view, n) && s.view.proposals == {sp})
  }

  /** The reaction to a clean view: attest as soon as the proposal is there. */
  lemma ReactOnTrack(c: Config, sp: SignedProposal, n: NodeId, s: SeatState)
    requires n in c.ctx.validators && c.accepts(n, sp.blockHash) && Ready(c, sp, n, s)
    ensures OnTrack(c.ctx, sp, n, AfterReaction(c, n, s)) == true
    ensures AfterReaction(c, n, s).view.proposals == s.view.proposals
  {
    var q := TheReaction(c, n, s);
    HonestIsAdmitted(c.ctx, n, sp.blockHash);
    if s.view.proposals == {} {
      assert q == Idle;
    } else {
      assert s.view.proposals == {sp} && |s.view.proposals| == 1;
    }
  }

  lemma ReactKeeps(c: Config, sp: SignedProposal, n: NodeId, s: SeatState, m: NodeId)
    requires n in c.ctx.validators && c.accepts(n, sp.blockHash) && Ready(c, sp, n, s)
    requires m in c.ctx.validators && Has(c.ctx, sp.blockHash, s.view, m)
    ensures Has(c.ctx, sp.blockHash, AfterReaction(c, n, s).view, m)
  {
    var q := TheReaction(c, n, s);
    assert s.view.proposals == {} || (s.view.proposals == {sp} && |s.view.proposals| == 1);
  }

  lemma ReceiveReady(c: Config, sp: SignedProposal, n: NodeId, s: SeatState, inbox: seq<View>)
    requires n in c.ctx.validators && OnTrack(c.ctx, sp, n, s)
    requires c.ctx.AdmitsProposal(sp) && forall w <- inbox :: Clean(c.ctx, sp, w)
    ensures Ready(c, sp, n, s.(view := Received(c.ctx, s.view, inbox))) == true
    ensures s.view.proposals <= Received(c.ctx, s.view, inbox).proposals
    ensures forall w <- inbox :: w.proposals <= Received(c.ctx, s.view, inbox).proposals
  {
    ReceiveClean(c.ctx, sp, s.view, inbox);
    if s.own.Some? {
      ReceiveHas(c.ctx, sp, s.view, inbox, n);
    }
  }

  lemma ReceiveBrings(c: Config, sp: SignedProposal, n: NodeId, s: SeatState, inbox: seq<View>, from: View, a: NodeId)
    requires n in c.ctx.validators && OnTrack(c.ctx, sp, n, s) == true
    requires c.ctx.AdmitsProposal(sp) && AllClean(c.ctx, sp, inbox) == true
    requires a in c.ctx.validators && Has(c.ctx, sp.blockHash, from, a) && (from == s.view || from in inbox)
    ensures Has(c.ctx, sp.blockHash, Received(c.ctx, s.view, inbox), a) == true
  {
    ReceiveHas(c.ctx, sp, s.view, inbox, a);
  }

  // ---- every seat, every round ----

  lemma {:induction false} SeedsOnTrack(c: Context, sp: SignedProposal, seeds: seq<(NodeId, SignedProposal)>,
                                        n: NodeId, k: nat)
    requires k <= |seeds| && c.AdmitsProposal(sp)
             && forall i {:trigger seeds[i].1} | 0 <= i < |seeds| :: seeds[i].1 == sp
    ensures Clean(c, sp, Seeded(c, seeds, n, k))
    ensures (exists i :: 0 <= i < k && seeds[i].0 == n) ==> Seeded(c, seeds, n, k).proposals == {sp}
  {
    if k > 0 {
      SeedsOnTrack(c, sp, seeds, n, k - 1);
    }
  }

  lemma {:induction false} SeatOnTrack(c: Config, x: Schedule, sp: SignedProposal, t: nat, n: NodeId)
    requires HonestRun(c, x, sp) == true && n in c.grid.seats
    ensures OnTrack(c.ctx, sp, n, SeatAfter(c, x, t, n)) == true
    decreases t, 1
  {
    hide AfterReaction, Grid.WellSeated, Sent, Clean, Absorbed, Has;
    if t == 0 {
      SeedsOnTrack(c.ctx, sp, x.seeds, n, |x.seeds|);
      ReactOnTrack(c, sp, n, SeatState(Seeded(c.ctx, x.seeds, n, |x.seeds|), None, false));
    } else {
      var s, inbox := SeatAfter(c, x, t - 1, n), Inbox(c, x, t, n, |x.edges|);
      SeatOnTrack(c, x, sp, t - 1, n);
      InboxOnTrack(c, x, sp, t, n, |x.edges|);
      ReceiveReady(c, sp, n, s, inbox);
      ReactOnTrack(c, sp, n, s.(view := Received(c.ctx, s.view, inbox)));
    }
  }

  lemma {:induction false} InboxOnTrack(c: Config, x: Schedule, sp: SignedProposal, t: nat, n: NodeId, k: nat)
    requires HonestRun(c, x, sp) == true && t > 0 && k <= |x.edges|
    ensures forall w <- Inbox(c, x, t, n, k) :: Clean(c.ctx, sp, w)
    decreases t, 0, k
  {
    hide AfterReaction, Sent, Clean, HonestRun;
    if k > 0 {
      InboxOnTrack(c, x, sp, t, n, k - 1);
      SentOnTrack(c, x, sp, t, x.edges[k - 1].a, n);
      SentOnTrack(c, x, sp, t, x.edges[k - 1].b, n);
    }
  }

  lemma {:induction false} SentOnTrack(c: Config, x: Schedule, sp: SignedProposal, t: nat, sender: NodeId,
                                       receiver: NodeId)
    requires HonestRun(c, x, sp) == true && t > 0
    ensures Clean(c.ctx, sp, Sent(c, x, t, sender, receiver))
    decreases t - 1, 2
  {
    hide AfterReaction, Grid.WellSeated, Utterable;
    if sender in c.ctx.validators {
      SeatOnTrack(c, x, sp, t - 1, sender);
    }
  }

  // ---- one hop a round ----

  /** A linked seat's envelope of the round before is in the inbox. */
  lemma {:induction false} NeighbourInInbox(c: Config, x: Schedule, t: nat, n: NodeId, m: NodeId, k: nat)
    requires t > 0 && k <= |x.edges| && n != m
    requires Edge(n, m) in x.edges[..k] || Edge(m, n) in x.edges[..k]
    ensures Sent(c, x, t, m, n) in Inbox(c, x, t, n, k)
  {
    var e := x.edges[k - 1];
    assert x.edges[..k] == x.edges[..k - 1] + [e];
    if e != Edge(n, m) && e != Edge(m, n) {
      NeighbourInInbox(c, x, t, n, m, k - 1);
    }
  }

  lemma LinkedInbox(c: Config, x: Schedule, t: nat, n: NodeId, m: NodeId)
    requires Fits(c, x) && x.adv.corrupt == {} && t > 0 && c.grid.Linked(n, m) && n != m
    ensures SeatAfter(c, x, t - 1, m).view in Inbox(c, x, t, n, |x.edges|)
  {
    assert x.edges[..|x.edges|] == x.edges;
    assert Edge(n, m) in x.edges || Edge(m, n) in x.edges by {
      if n < m {
        assert Edge(n, m) in x.edges;
      } else {
        assert c.grid.Linked(m, n);
        assert Edge(m, n) in x.edges;
      }
    }
    NeighbourInInbox(c, x, t, n, m, |x.edges|);
  }

  /** What a seat reacts to in a round: the inbox absorbed. */
  ghost function Arrived(c: Config, x: Schedule, t: nat, n: NodeId): SeatState
    requires t > 0 && n in c.ctx.validators
  {
    var s := SeatAfter(c, x, t - 1, n);
    s.(view := Received(c.ctx, s.view, Inbox(c, x, t, n, |x.edges|)))
  }

  lemma ArrivedOnTrack(c: Config, x: Schedule, sp: SignedProposal, t: nat, n: NodeId)
    requires HonestRun(c, x, sp) == true && t > 0 && n in c.grid.seats
    ensures Ready(c, sp, n, Arrived(c, x, t, n)) == true
    ensures SeatAfter(c, x, t - 1, n).view.proposals <= Arrived(c, x, t, n).view.proposals
    ensures forall w <- Inbox(c, x, t, n, |x.edges|) :: w.proposals <= Arrived(c, x, t, n).view.proposals
  {
    hide AfterReaction, Sent, Clean, Has, Absorbed, Grid.WellSeated;
    SeatOnTrack(c, x, sp, t - 1, n);
    InboxOnTrack(c, x, sp, t, n, |x.edges|);
    ReceiveReady(c, sp, n, SeatAfter(c, x, t - 1, n), Inbox(c, x, t, n, |x.edges|));
  }

  /** A round keeps the proposal a seat has, and brings it its neighbours'. */
  lemma RoundSpreadsProposal(c: Config, x: Schedule, sp: SignedProposal, t: nat, n: NodeId, m: NodeId)
    requires HonestRun(c, x, sp) == true && t > 0 && n in c.grid.seats && m in c.grid.seats
             && (n == m || c.grid.Linked(n, m))
    ensures SeatAfter(c, x, t - 1, m).view.proposals <= SeatAfter(c, x, t, n).view.proposals
  {
    if n != m {
      LinkedInbox(c, x, t, n, m);
    }
    ArrivedOnTrack(c, x, sp, t, n);
    ReactOnTrack(c, sp, n, Arrived(c, x, t, n));
  }

  /** And likewise any attestation. */
  lemma RoundSpreads(c: Config, x: Schedule, sp: SignedProposal, t: nat, n: NodeId, m: NodeId, a: NodeId)
    requires HonestRun(c, x, sp) == true && t > 0 && n in c.grid.seats && m in c.grid.seats
             && (n == m || c.grid.Linked(n, m))
    requires a in c.grid.seats && Has(c.ctx, sp.blockHash, SeatAfter(c, x, t - 1, m).view, a) == true
    ensures Has(c.ctx, sp.blockHash, SeatAfter(c, x, t, n).view, a) == true
  {
    if n != m {
      LinkedInbox(c, x, t, n, m);
    }
    ArrivedHas(c, x, sp, t, n, SeatAfter(c, x, t - 1, m).view, a);
    ArrivedOnTrack(c, x, sp, t, n);
    ReactKeeps(c, sp, n, Arrived(c, x, t, n), a);
  }

  lemma ArrivedHas(c: Config, x: Schedule, sp: SignedProposal, t: nat, n: NodeId, from: View, a: NodeId)
    requires HonestRun(c, x, sp) == true && t > 0 && n in c.grid.seats && a in c.grid.seats
    requires from == SeatAfter(c, x, t - 1, n).view || from in Inbox(c, x, t, n, |x.edges|)
    requires Has(c.ctx, sp.blockHash, from, a) == true
    ensures Has(c.ctx, sp.blockHash, Arrived(c, x, t, n).view, a) == true
  {
    hide AfterReaction, Sent, OnTrack, AllClean, Absorbed, Has;
    SeatOnTrack(c, x, sp, t - 1, n);
    InboxIsClean(c, x, sp, t, n, |x.edges|);
    ReceiveBrings(c, sp, n, SeatAfter(c, x, t - 1, n), Inbox(c, x, t, n, |x.edges|), from, a);
  }

  lemma InboxIsClean(c: Config, x: Schedule, sp: SignedProposal, t: nat, n: NodeId, k: nat)
    requires HonestRun(c, x, sp) == true && t > 0 && k <= |x.edges|
    ensures AllClean(c.ctx, sp, Inbox(c, x, t, n, k)) == true
  {
    InboxOnTrack(c, x, sp, t, n, k);
  }

  lemma LeaderHasIt(c: Config, x: Schedule, sp: SignedProposal)
    requires HonestRun(c, x, sp)
    ensures SeatAfter(c, x, 0, c.grid.leader).view.proposals == {sp}
  {
    var n := c.grid.leader;
    SeedsOnTrack(c.ctx, sp, x.seeds, n, |x.seeds|);
    ReactOnTrack(c, sp, n, SeatState(Seeded(c.ctx, x.seeds, n, |x.seeds|), None, false));
  }

  /** Where the step into a ball came from. */
  lemma BallStep(grid: Grid, src: NodeId, k: nat, n: NodeId) returns (m: NodeId)
    requires grid.WellSeated() && src in grid.seats && k > 0 && n in Ball(grid.Graph(), src, k)
    ensures m in Ball(grid.Graph(), src, k - 1) && m in grid.seats && n in grid.seats && (n == m || grid.Linked(n, m))
  {
    BallStaysInside(grid.Graph(), src, k);
    BallStaysInside(grid.Graph(), src, k - 1);
    if n in Ball(grid.Graph(), src, k - 1) {
      m := n;
    } else {
      m :| m in Ball(grid.Graph(), src, k - 1) && Steps(grid.Graph(), m, n);
    }
  }

  /** After t rounds every seat within t steps of the leader has the proposal, and has attested to it. */
  lemma {:induction false} ProposalReaches(c: Config, x: Schedule, sp: SignedProposal, t: nat, n: NodeId)
    requires HonestRun(c, x, sp) == true && n in Ball(c.grid.Graph(), c.grid.leader, t)
    ensures n in c.grid.seats && SeatAfter(c, x, t, n).view.proposals == {sp}
    ensures Has(c.ctx, sp.blockHash, SeatAfter(c, x, t, n).view, n)
  {
    hide Grid.Linked, AfterReaction, Sent, Spread;
    BallStaysInside(c.grid.Graph(), c.grid.leader, t);
    if t == 0 {
      LeaderHasIt(c, x, sp);
    } else {
      var m := BallStep(c.grid, c.grid.leader, t, n);
      ProposalReaches(c, x, sp, t - 1, m);
      RoundSpreadsProposal(c, x, sp, t, n, m);
    }
    SeatOnTrack(c, x, sp, t, n);
  }

  /** After t rounds, a seat j steps from a seat i steps from the leader holds its attestation, once
      i + j <= t. */
  lemma {:induction false} AttestationReaches(c: Config, x: Schedule, sp: SignedProposal, t: nat, m: NodeId, i: nat,
                                              n: NodeId, j: nat)
    requires HonestRun(c, x, sp) == true && i + j <= t
    requires m in Ball(c.grid.Graph(), c.grid.leader, i) && m in c.grid.seats && n in Ball(c.grid.Graph(), m, j)
    ensures n in c.grid.seats && Has(c.ctx, sp.blockHash, SeatAfter(c, x, t, n).view, m)
    decreases t
  {
    hide Grid.Graph, Grid.Linked, AfterReaction, Sent, Spread;
    BallStaysInside(c.grid.Graph(), m, j);
    if i + j < t {
      AttestationReaches(c, x, sp, t - 1, m, i, n, j);
      RoundSpreads(c, x, sp, t, n, n, m);
    } else if j == 0 {
      ProposalReaches(c, x, sp, t, n);
    } else {
      var k := BallStep(c.grid, m, j, n);
      AttestationReaches(c, x, sp, t - 1, m, i, k, j - 1);
      RoundSpreads(c, x, sp, t, n, k, m);
    }
  }

  /** Everything everywhere, after twice the diameter. */
  lemma EveryoneHasEverything(c: Config, x: Schedule, sp: SignedProposal, d: nat, t: nat, n: NodeId)
    requires HonestRun(c, x, sp) == true && Covers(c.grid.Graph(), c.grid.seats.Keys, d) && t >= 2 * d
             && n in c.grid.seats
    ensures SeatAfter(c, x, t, n).view.For(sp.blockHash) == c.ctx.counting
    ensures SeatAfter(c, x, t, n).view.proposals == {sp}
  {
    var v := SeatAfter(c, x, t, n).view;
    SeatOnTrack(c, x, sp, t, n);
    SeatIsFiled(c, x, t, n);
    ForIsCounting(v, c.ctx.counting, sp.blockHash);
    forall m <- c.ctx.counting ensures m in v.For(sp.blockHash) {
      assert m in Ball(c.grid.Graph(), c.grid.leader, d) && n in Ball(c.grid.Graph(), m, d);
      AttestationReaches(c, x, sp, t, m, d, n, d);
    }
    BallGrows(c.grid.Graph(), c.grid.leader, d, t);
    ProposalReaches(c, x, sp, t, n);
  }

  /** Completion: every seat accepts the proposal, provided the quorum is no more than the seats that
      can vote. */
  lemma EveryoneAccepts(c: Config, x: Schedule, sp: SignedProposal, d: nat, t: nat, quorum: int, n: NodeId)
    requires HonestRun(c, x, sp) == true && Covers(c.grid.Graph(), c.grid.seats.Keys, d) && t >= 2 * d
             && n in c.grid.seats
    requires quorum <= |c.ctx.counting|
    ensures IsVerdict(SeatAfter(c, x, t, n), quorum, Accept(sp.blockHash)) == true
  {
    hide SeatAfter, HonestRun;
    EveryoneHasEverything(c, x, sp, d, t, n);
    SeatOnTrack(c, x, sp, t, n);
    assert sp in SeatAfter(c, x, t, n).view.proposals;
  }
}
