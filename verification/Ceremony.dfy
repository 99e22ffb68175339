/**
 One ceremony (chain/ceremony.py, `Ceremony`): snapshot rounds over the sync graph, one reaction per
 seat, and the decision rule, as functions of the round and the seat.

 A behaviour's proposals are arbitrary. Seats named corrupt may in addition send any envelope they
 like to any neighbour in any round, except statements whose signature they cannot make.
 */
module Ceremony {
  import opened Basics
  import opened Seats
  import opened QuorumCert
  import opened CeremonyGrid
  import opened Envelope

  datatype Config = Config(grid: Grid, ctx: Context, accepts: (NodeId, Hash) -> bool) {
    ghost predicate Ready() {
      && grid.WellSeated()
      && ctx.validators.Keys == grid.seats.Keys
      && ctx.leaderId == grid.leader
    }
  }

  datatype Adversary = Adversary(corrupt: set<NodeId>, forge: (nat, NodeId, NodeId) -> View)

  /** A seat's one validation: which block, and whether it passed. */
  datatype Own = Own(blockHash: Hash, ok: bool)

  datatype SeatState = SeatState(view: View, own: Option<Own>, reacted: bool)

  /** The proposals the leader's behaviour hands out, the corrupt seats, and the order in which a round
      walks the edges. */
  datatype Schedule = Schedule(seeds: seq<(NodeId, SignedProposal)>, adv: Adversary, edges: seq<Edge>)

  ghost predicate Fits(c: Config, x: Schedule) {
    && c.Ready()
    && (forall a: NodeId, b: NodeId :: Edge(a, b) in x.edges <==> a < b && c.grid.Linked(a, b))
  }

  // ---- one seat's reaction ----

  function InvalidReport(c: Context, n: NodeId, sp: SignedProposal): FaultReport
    requires n in c.validators
  {
    FaultReport(n, c.validators[n], InvalidBlock, c.height, c.epoch, "invalid block", [sp], true)
  }

  function EquivocationReport(c: Context, n: NodeId, a: SignedProposal, b: SignedProposal): FaultReport
    requires n in c.validators
  {
    FaultReport(n, c.validators[n], Equivocation, c.height, c.epoch, "leader proposed two blocks", [a, b], true)
  }

  /** The two conflicting proposals a seat reports: those with the two least hashes it holds. */
  ghost predicate IsEvidence(proposals: set<SignedProposal>, a: SignedProposal, b: SignedProposal) {
    && a in proposals && b in proposals && a.blockHash < b.blockHash
    && forall sp <- proposals :: sp.blockHash == a.blockHash || b.blockHash <= sp.blockHash
  }

  /** What a seat does when its turn comes: nothing, attest to the one block it validated, refuse it, or
      denounce the leader, dropping its own attestation. */
  datatype Reaction =
    | Idle
    | Attest(blockHash: Hash)
    | Refuse(sp: SignedProposal)
    | Denounce(a: SignedProposal, b: SignedProposal)

  ghost predicate IsReaction(c: Config, n: NodeId, s: SeatState, r: Reaction) {
    if |s.view.proposals| >= 2 && !s.reacted then r.Denounce? && IsEvidence(s.view.proposals, r.a, r.b)
    else if s.reacted || s.own.Some? || |s.view.proposals| != 1 then r.Idle?
    else exists sp <- s.view.proposals :: r == if c.accepts(n, sp.blockHash) then Attest(sp.blockHash) else Refuse(sp)
  }

  function Reacted(c: Context, n: NodeId, s: SeatState, r: Reaction): SeatState
    requires n in c.validators
  {
    match r
    case Idle => s
    case Attest(h) => s.(view := WithAttestation(c, s.view, c.AttestationOf(n, h)), own := Some(Own(h, true)))
    case Refuse(sp) => SeatState(WithFault(c, s.view, InvalidReport(c, n, sp)), Some(Own(sp.blockHash, false)), true)
    case Denounce(a, b) =>
      var w := WithFault(c, s.view, EquivocationReport(c, n, a, b));
      s.(view := w.(attestations := Without(w.attestations, n)), reacted := true)
  }

  ghost predicate Clash(p: SignedProposal, q: SignedProposal) {
    p != q && p.blockHash == q.blockHash
  }

  ghost predicate OnePerHash(proposals: set<SignedProposal>) {
    forall p, q {:trigger Clash(p, q)} :: p in proposals && q in proposals ==> !Clash(p, q)
  }

  lemma {:induction false} LeastProposal(proposals: set<SignedProposal>) returns (least: SignedProposal)
    requires proposals != {}
    ensures least in proposals && forall sp <- proposals :: least.blockHash <= sp.blockHash
  {
    var x :| x in proposals;
    var rest := proposals - {x};
    least := x;
    if rest != {} {
      var other := LeastProposal(rest);
      least := if other.blockHash < x.blockHash then other else x;
      forall sp <- proposals ensures least.blockHash <= sp.blockHash {
        assert sp == x || sp in rest;
      }
    } else {
      assert proposals == {x};
    }
  }

  /** A seat has exactly one reaction. */
  lemma ReactionExists(c: Config, n: NodeId, s: SeatState)
    requires OnePerHash(s.view.proposals)
    ensures exists r :: IsReaction(c, n, s, r)
  {
    var ps := s.view.proposals;
    if |ps| >= 2 && !s.reacted {
      var a := LeastProposal(ps);
      assert |ps - {a}| == |ps| - 1;
      var b := LeastProposal(ps - {a});
      forall sp <- ps ensures sp.blockHash == a.blockHash || b.blockHash <= sp.blockHash {
        assert sp == a || sp in ps - {a};
      }
      assert a != b && a.blockHash <= b.blockHash && !Clash(a, b);
      assert IsReaction(c, n, s, Denounce(a, b));
    } else if s.reacted || s.own.Some? || |ps| != 1 {
      assert IsReaction(c, n, s, Idle);
    } else {
      var sp :| sp in ps;
      assert IsReaction(c, n, s, if c.accepts(n, sp.blockHash) then Attest(sp.blockHash) else Refuse(sp));
    }
  }

  lemma Singleton<T>(s: set<T>, a: T, b: T)
    requires |s| == 1 && a in s && b in s
    ensures a == b
  {
    assert |s - {a}| == 0;
    assert b !in s - {a};
  }

  lemma ReactionIsUnique(c: Config, n: NodeId, s: SeatState, q: Reaction, r: Reaction)
    requires OnePerHash(s.view.proposals) && IsReaction(c, n, s, q) && IsReaction(c, n, s, r)
    ensures q == r
  {
    var ps := s.view.proposals;
    if |ps| >= 2 && !s.reacted {
      assert !Clash(q.a, r.a) && !Clash(q.b, r.b);
    } else if !(s.reacted || s.own.Some? || |ps| != 1) {
      var a :| a in ps && q == if c.accepts(n, a.blockHash) then Attest(a.blockHash) else Refuse(a);
      var b :| b in ps && r == if c.accepts(n, b.blockHash) then Attest(b.blockHash) else Refuse(b);
      Singleton(ps, a, b);
    }
  }

  /** The seat's state once it has reacted. */
  ghost function AfterReaction(c: Config, n: NodeId, s: SeatState): SeatState
    requires n in c.ctx.validators
  {
    if OnePerHash(s.view.proposals) then
      ReactionExists(c, n, s);
      var r :| IsReaction(c, n, s, r);
      Reacted(c.ctx, n, s, r)
    else s
  }

  // ---- one round of exchange ----

  /** An inbox absorbed message by message. */
  function Received(c: Context, v: View, inbox: seq<View>): View {
    if inbox == [] then v else Absorbed(c, Received(c, v, inbox[..|inbox| - 1]), inbox[|inbox| - 1])
  }

  /** A signature that exists: made by an honest reaction, or with a corrupt key. */
  predicate CanExist(c: Context, corrupt: set<NodeId>, signed: set<Signature>, a: Attestation) {
    a.signature in signed || exists n <- corrupt :: c.HasKey(n, a.publicKey)
  }

  /** What of a forged envelope can exist; one entry per key, filed by standing. */
  function Utterable(c: Context, corrupt: set<NodeId>, signed: set<Signature>, v: View): (r: View)
    ensures r.Filed(c.counting)
    ensures forall a <- r.attestations :: CanExist(c, corrupt, signed, a)
  {
    View(set p | p in v.proposals && forall q <- v.proposals :: q.blockHash == p.blockHash ==> q == p,
         set a | a in v.attestations && a.nodeId in c.counting && CanExist(c, corrupt, signed, a)
                 && forall b <- v.attestations :: b.nodeId == a.nodeId ==> b == a,
         set a | a in v.shadow && a.nodeId !in c.counting && CanExist(c, corrupt, signed, a)
                 && forall b <- v.shadow :: b.nodeId == a.nodeId ==> b == a,
         set f | f in v.faults && forall g <- v.faults :: g.Id() == f.Id() ==> g == f)
  }

  // ---- a whole run, seat by seat ----

  /** What seat n holds after the behaviour's first `k` proposals. */
  function Seeded(c: Context, seeds: seq<(NodeId, SignedProposal)>, n: NodeId, k: nat): View
    requires k <= |seeds|
  {
    if k == 0 then Nothing
    else if seeds[k - 1].0 == n then WithProposal(c, Seeded(c, seeds, n, k - 1), seeds[k - 1].1)
    else Seeded(c, seeds, n, k - 1)
  }

  /** Seat n after round t; round 0 is the leader's proposals and the first reaction. */
  ghost function SeatAfter(c: Config, x: Schedule, t: nat, n: NodeId): SeatState
    requires n in c.ctx.validators
    decreases t, 3
  {
    if t == 0 then AfterReaction(c, n, SeatState(Seeded(c.ctx, x.seeds, n, |x.seeds|), None, false))
    else
      var s := SeatAfter(c, x, t - 1, n);
      AfterReaction(c, n, s.(view := Received(c.ctx, s.view, Inbox(c, x, t, n, |x.edges|))))
  }

  /** What the first `k` edges bring seat n in round t. */
  ghost function Inbox(c: Config, x: Schedule, t: nat, n: NodeId, k: nat): seq<View>
    requires t > 0 && k <= |x.edges|
    decreases t, 2, k
  {
    if k == 0 then []
    else
      var e := x.edges[k - 1];
      Inbox(c, x, t, n, k - 1) + (
        if e.a == n then [Sent(c, x, t, e.b, n)] else if e.b == n then [Sent(c, x, t, e.a, n)] else [])
  }

  /** What `sender` sends in round t: its envelope as of the round before, or a forgery. */
  ghost function Sent(c: Config, x: Schedule, t: nat, sender: NodeId, receiver: NodeId): View
    requires t > 0
    decreases t, 1
  {
    if sender in x.adv.corrupt then
      Utterable(c.ctx, x.adv.corrupt, SignedBy(c, x, t - 1), x.adv.forge(t, sender, receiver))
    else if sender in c.ctx.validators then SeatAfter(c, x, t - 1, sender).view
    else Nothing
  }

  /** Every signature the reactions up to round t have made. */
  ghost function SignedBy(c: Config, x: Schedule, t: nat): set<Signature>
    decreases t, 4
  {
    set n | n in c.ctx.validators && var own := SeatAfter(c, x, t, n).own; own.Some? && own.value.ok
      :: c.ctx.AttestationOf(n, SeatAfter(c, x, t, n).own.value.blockHash).signature
  }

  // ---- the decision rule ----

  datatype Verdict = Accept(blockHash: Hash) | LeaderEquivocated | NoProposal | Conflicting | Rejected | NoQuorum

  ghost predicate IsVerdict(s: SeatState, quorum: int, v: Verdict) {
    if s.view.EquivocationShown() then v == LeaderEquivocated
    else if |s.view.proposals| != 1 then v == if s.view.proposals == {} then NoProposal else Conflicting
    else if s.own.None? || !s.own.value.ok then v == Rejected
    else
      exists sp <- s.view.proposals ::
        v == if |s.view.For(sp.blockHash)| < quorum then NoQuorum else Accept(sp.blockHash)
  }
}
