/**
 Agreement: in no run do two seats accept different blocks (the branch the code calls impossible).
 */
module CeremonyAgreement {
  import opened Basics
  import opened Seats
  import opened QuorumCert
  import opened CeremonyGrid
  import opened Envelope
  import opened Ceremony

  ghost predicate DistinctKeys(c: Config) {
    forall m, n ::
      m in c.ctx.validators && n in c.ctx.validators && c.ctx.validators[m] == c.ctx.validators[n] ==> m == n
  }

  // ---- every envelope stays filed ----

  lemma AbsorbedIsFiled(c: Context, v: View, other: View)
    requires v.Filed(c.counting) && other.Filed(c.counting)
    ensures Absorbed(c, v, other).Filed(c.counting)
  {
    var r := Absorbed(c, v, other);
    forall a | a in r.attestations ensures a.nodeId in c.counting {
      assert a.nodeId in Voters(v.attestations) || a.nodeId in Voters(other.attestations);
    }
    forall a | a in r.shadow ensures a.nodeId !in c.counting {
      assert a.nodeId in Voters(v.shadow) || a.nodeId in Voters(other.shadow);
    }
    forall p, q | p in r.proposals && q in r.proposals && p.blockHash == q.blockHash ensures p == q {
      assert p in v.proposals ==> p.blockHash in Hashes(v.proposals);
      assert q in v.proposals ==> q.blockHash in Hashes(v.proposals);
    }
    forall a, b | a in r.attestations && b in r.attestations && a.nodeId == b.nodeId ensures a == b {
      assert a in v.attestations ==> a.nodeId in Voters(v.attestations);
      assert b in v.attestations ==> b.nodeId in Voters(v.attestations);
    }
    forall a, b | a in r.shadow && b in r.shadow && a.nodeId == b.nodeId ensures a == b {
      assert a in v.shadow ==> a.nodeId in Voters(v.shadow);
      assert b in v.shadow ==> b.nodeId in Voters(v.shadow);
    }
    forall f, g | f in r.faults && g in r.faults && f.Id() == g.Id() ensures f == g {
      assert f in v.faults ==> f.Id() in FaultKeys(v.faults);
      assert g in v.faults ==> g.Id() in FaultKeys(v.faults);
    }
  }

  lemma {:induction false} ReceivedIsFiled(c: Context, v: View, inbox: seq<View>)
    requires v.Filed(c.counting) && forall w <- inbox :: w.Filed(c.counting)
    ensures Received(c, v, inbox).Filed(c.counting)
  {
    if inbox != [] {
      ReceivedIsFiled(c, v, inbox[..|inbox| - 1]);
      AbsorbedIsFiled(c, Received(c, v, inbox[..|inbox| - 1]), inbox[|inbox| - 1]);
    }
  }

  lemma ProposalKeepsFiled(c: Context, v: View, sp: SignedProposal)
    requires v.Filed(c.counting)
    ensures WithProposal(c, v, sp).Filed(c.counting)
  {
    forall p <- v.proposals ensures p.blockHash in Hashes(v.proposals) {
    }
  }

  lemma AttestationKeepsFiled(c: Context, v: View, a: Attestation)
    requires v.Filed(c.counting)
    ensures WithAttestation(c, v, a).Filed(c.counting)
  {
    assert Voters(v.attestations + {a}) == Voters(v.attestations) + {a.nodeId};
    assert Voters(v.shadow + {a}) == Voters(v.shadow) + {a.nodeId};
    forall b <- v.attestations ensures b.nodeId in Voters(v.attestations) {
    }
    forall b <- v.shadow ensures b.nodeId in Voters(v.shadow) {
    }
  }

  lemma ReportKeepsFiled(c: Context, v: View, f: FaultReport, n: NodeId)
    requires v.Filed(c.counting)
    ensures WithFault(c, v, f).Filed(c.counting)
    ensures var w := WithFault(c, v, f); w.(attestations := Without(w.attestations, n)).Filed(c.counting)
  {
    forall g <- v.faults ensures g.Id() in FaultKeys(v.faults) {
    }
    assert Voters(Without(v.attestations, n)) <= Voters(v.attestations);
  }

  lemma ReactedKeepsFiled(c: Context, n: NodeId, s: SeatState, r: Reaction)
    requires n in c.validators && s.view.Filed(c.counting)
    ensures Reacted(c, n, s, r).view.Filed(c.counting)
  {
    match r {
      case Idle =>
      case Attest(h) => AttestationKeepsFiled(c, s.view, c.AttestationOf(n, h));
      case Refuse(sp) => ReportKeepsFiled(c, s.view, InvalidReport(c, n, sp), n);
      case Denounce(a, b) => ReportKeepsFiled(c, s.view, EquivocationReport(c, n, a, b), n);
    }
  }

  /** The reaction that a seat's next state comes from. */
  lemma TheReaction(c: Config, n: NodeId, s: SeatState) returns (r: Reaction)
    requires n in c.ctx.validators && OnePerHash(s.view.proposals)
    ensures IsReaction(c, n, s, r) && AfterReaction(c, n, s) == Reacted(c.ctx, n, s, r)
  {
    ReactionExists(c, n, s);
    r :| IsReaction(c, n, s, r) && AfterReaction(c, n, s) == Reacted(c.ctx, n, s, r);
  }

  lemma ReactionKeepsFiled(c: Config, n: NodeId, s: SeatState)
    requires n in c.ctx.validators && s.view.Filed(c.ctx.counting)
    ensures AfterReaction(c, n, s).view.Filed(c.ctx.counting)
  {
    var r := TheReaction(c, n, s);
    ReactedKeepsFiled(c.ctx, n, s, r);
  }

  lemma {:induction false} SeededIsFiled(c: Context, seeds: seq<(NodeId, SignedProposal)>, n: NodeId, k: nat)
    requires k <= |seeds|
    ensures Seeded(c, seeds, n, k).Filed(c.counting)
  {
    if k > 0 {
      SeededIsFiled(c, seeds, n, k - 1);
      ProposalKeepsFiled(c, Seeded(c, seeds, n, k - 1), seeds[k - 1].1);
    }
  }

  lemma {:induction false} SeatIsFiled(c: Config, x: Schedule, t: nat, n: NodeId)
    requires n in c.ctx.validators
    ensures SeatAfter(c, x, t, n).view.Filed(c.ctx.counting)
    decreases t, 1
  {
    if t == 0 {
      SeededIsFiled(c.ctx, x.seeds, n, |x.seeds|);
      ReactionKeepsFiled(c, n, SeatState(Seeded(c.ctx, x.seeds, n, |x.seeds|), None, false));
    } else {
      SeatIsFiled(c, x, t - 1, n);
      var s, inbox := SeatAfter(c, x, t - 1, n), Inbox(c, x, t, n, |x.edges|);
      InboxIsFiled(c, x, t, n, |x.edges|);
      ReceivedIsFiled(c.ctx, s.view, inbox);
      ReactionKeepsFiled(c, n, s.(view := Received(c.ctx, s.view, inbox)));
    }
  }

  lemma {:induction false} InboxIsFiled(c: Config, x: Schedule, t: nat, n: NodeId, k: nat)
    requires t > 0 && k <= |x.edges|
    ensures forall w <- Inbox(c, x, t, n, k) :: w.Filed(c.ctx.counting)
    decreases t, 0, k
  {
    if k > 0 {
      InboxIsFiled(c, x, t, n, k - 1);
      SentIsFiled(c, x, t, x.edges[k - 1].a, n);
      SentIsFiled(c, x, t, x.edges[k - 1].b, n);
    }
  }

  lemma {:induction false} SentIsFiled(c: Config, x: Schedule, t: nat, sender: NodeId, receiver: NodeId)
    requires t > 0
    ensures Sent(c, x, t, sender, receiver).Filed(c.ctx.counting)
    decreases t - 1, 2
  {
    if sender !in x.adv.corrupt && sender in c.ctx.validators {
      SeatIsFiled(c, x, t - 1, sender);
    }
  }

  // ---- where a held attestation came from ----

  lemma ReactionAdds(c: Config, n: NodeId, s: SeatState, a: Attestation)
    requires n in c.ctx.validators && a in AfterReaction(c, n, s).view.attestations
    ensures a in s.view.attestations
            || (AfterReaction(c, n, s).own == Some(Own(a.statement.blockHash, true))
                && a == c.ctx.AttestationOf(n, a.statement.blockHash))
  {
    if OnePerHash(s.view.proposals) {
      var r := TheReaction(c, n, s);
    }
  }

  lemma ReactionKeepsOwn(c: Config, n: NodeId, s: SeatState)
    requires n in c.ctx.validators && s.own.Some?
    ensures AfterReaction(c, n, s).own == s.own
  {
    if OnePerHash(s.view.proposals) {
      var r := TheReaction(c, n, s);
    }
  }

  /** A seat validates one block, once. */
  lemma OwnStays(c: Config, x: Schedule, t: nat, n: NodeId)
    requires t > 0 && n in c.ctx.validators && SeatAfter(c, x, t - 1, n).own.Some?
    ensures SeatAfter(c, x, t, n).own == SeatAfter(c, x, t - 1, n).own
  {
    var s := SeatAfter(c, x, t - 1, n);
    ReactionKeepsOwn(c, n, s.(view := Received(c.ctx, s.view, Inbox(c, x, t, n, |x.edges|))));
  }

  lemma {:induction false} ReceivedOrigin(c: Context, v: View, inbox: seq<View>, a: Attestation) returns (i: nat)
    requires a in Received(c, v, inbox).attestations
    ensures a in v.attestations || (i < |inbox| && a in inbox[i].attestations && c.AdmitsAttestation(a))
  {
    i := 0;
    if inbox != [] {
      var n := |inbox| - 1;
      if a in Received(c, v, inbox[..n]).attestations {
        i := ReceivedOrigin(c, v, inbox[..n], a);
      } else {
        i := n;
      }
    }
  }

  lemma {:induction false} InboxOrigin(c: Config, x: Schedule, t: nat, n: NodeId, k: nat, i: nat)
    returns (sender: NodeId)
    requires t > 0 && k <= |x.edges| && i < |Inbox(c, x, t, n, k)|
    ensures Inbox(c, x, t, n, k)[i] == Sent(c, x, t, sender, n)
  {
    sender := if x.edges[k - 1].a == n then x.edges[k - 1].b else x.edges[k - 1].a;
    if i < |Inbox(c, x, t, n, k - 1)| {
      sender := InboxOrigin(c, x, t, n, k - 1, i);
    }
  }

  /** An attestation that can exist and passes the check is a corrupt seat's, or names the one block its
      seat validated. */
  lemma ExistingIsHonest(c: Config, x: Schedule, t: nat, a: Attestation)
    requires DistinctKeys(c) && c.ctx.AdmitsAttestation(a) && a.nodeId !in x.adv.corrupt
    requires CanExist(c.ctx, x.adv.corrupt, SignedBy(c, x, t), a)
    ensures SeatAfter(c, x, t, a.nodeId).own == Some(Own(a.statement.blockHash, true))
  {
    assert c.ctx.HasKey(a.nodeId, a.publicKey);
    forall m <- x.adv.corrupt ensures !c.ctx.HasKey(m, a.publicKey) {
    }
    assert a.signature in SignedBy(c, x, t);
    var n :| n in c.ctx.validators && SeatAfter(c, x, t, n).own.Some? && SeatAfter(c, x, t, n).own.value.ok
             && c.ctx.AttestationOf(n, SeatAfter(c, x, t, n).own.value.blockHash).signature == a.signature;
    assert n == a.nodeId;
  }

  /** Where an attestation held after a round came from. */
  datatype Origin = Mine | HeldBy(holder: NodeId) | Forged

  ghost predicate CameFrom(c: Config, x: Schedule, t: nat, n: NodeId, a: Attestation, from: Origin)
    requires t > 0 && n in c.ctx.validators
  {
    match from
    case Mine => a.nodeId == n && SeatAfter(c, x, t, n).own == Some(Own(a.statement.blockHash, true))
    case HeldBy(holder) => holder in c.ctx.validators && a in SeatAfter(c, x, t - 1, holder).view.attestations
    case Forged => c.ctx.AdmitsAttestation(a) && CanExist(c.ctx, x.adv.corrupt, SignedBy(c, x, t - 1), a)
  }

  lemma AttestationOrigin(c: Config, x: Schedule, t: nat, n: NodeId, a: Attestation) returns (from: Origin)
    requires t > 0 && n in c.ctx.validators && a in SeatAfter(c, x, t, n).view.attestations
    ensures CameFrom(c, x, t, n, a, from)
  {
    var s, inbox := SeatAfter(c, x, t - 1, n), Inbox(c, x, t, n, |x.edges|);
    var v := Received(c.ctx, s.view, inbox);
    ReactionAdds(c, n, s.(view := v), a);
    if a !in v.attestations {
      from := Mine;
    } else if a in s.view.attestations {
      from := HeldBy(n);
    } else {
      var i := ReceivedOrigin(c.ctx, s.view, inbox, a);
      var sender := InboxOrigin(c, x, t, n, |x.edges|, i);
      assert a in Sent(c, x, t, sender, n).attestations;
      from := if sender in x.adv.corrupt then Forged else HeldBy(sender);
    }
  }

  /** An honest seat's attestation, wherever it is held, names the one block that seat validated. */
  lemma {:induction false} HonestAttestsOnce(c: Config, x: Schedule, t: nat, n: NodeId, a: Attestation)
    requires DistinctKeys(c) && n in c.ctx.validators
    requires a in SeatAfter(c, x, t, n).view.attestations && a.nodeId !in x.adv.corrupt
    ensures a.nodeId in c.ctx.validators && SeatAfter(c, x, t, a.nodeId).own == Some(Own(a.statement.blockHash, true))
  {
    hide SeatAfter, Received;
    if t == 0 {
      FirstAttestation(c, x, n, a);
    } else {
      var from := AttestationOrigin(c, x, t, n, a);
      match from {
        case Mine =>
        case HeldBy(holder) =>
          HonestAttestsOnce(c, x, t - 1, holder, a);
          OwnStays(c, x, t, a.nodeId);
        case Forged =>
          ExistingIsHonest(c, x, t - 1, a);
          OwnStays(c, x, t, a.nodeId);
      }
    }
  }

  lemma FirstAttestation(c: Config, x: Schedule, n: NodeId, a: Attestation)
    requires n in c.ctx.validators && a in SeatAfter(c, x, 0, n).view.attestations
    ensures a.nodeId == n && SeatAfter(c, x, 0, n).own == Some(Own(a.statement.blockHash, true))
  {
    SeededHoldsNone(c.ctx, x.seeds, n, |x.seeds|);
    ReactionAdds(c, n, SeatState(Seeded(c.ctx, x.seeds, n, |x.seeds|), None, false), a);
  }

  lemma {:induction false} SeededHoldsNone(c: Context, seeds: seq<(NodeId, SignedProposal)>, n: NodeId, k: nat)
    requires k <= |seeds|
    ensures Seeded(c, seeds, n, k).attestations == {} && Seeded(c, seeds, n, k).shadow == {}
            && Seeded(c, seeds, n, k).faults == {}
  {
    if k > 0 {
      SeededHoldsNone(c, seeds, n, k - 1);
    }
  }

  // ---- quorum intersection ----

  /** Counting seats that may sign anything. */
  function Traitors(c: Config, adv: Adversary): set<NodeId> {
    c.ctx.counting * adv.corrupt
  }

  lemma {:induction false} SmallerSet(a: set<NodeId>, b: set<NodeId>)
    requires a <= b
    ensures |a| <= |b|
  {
    if a != {} {
      var n :| n in a;
      SmallerSet(a - {n}, b - {n});
    }
  }

  lemma QuorumsMeet(a: set<NodeId>, b: set<NodeId>, all: set<NodeId>, traitors: set<NodeId>)
    requires a <= all && b <= all && a * b <= traitors
    ensures |a| + |b| <= |all| + |traitors|
  {
    SmallerSet(a * b, traitors);
    SmallerSet(a + b, all);
    assert |a| + |b| == |a + b| + |a * b|;
  }

  lemma ForIsCounting(v: View, counting: set<NodeId>, h: Hash)
    requires v.Filed(counting)
    ensures v.For(h) <= counting
  {
    forall n <- v.For(h) ensures n in counting {
      assert n in Voters(v.attestations);
    }
  }

  /** Whatever the leader proposes to whom, and however long the run: if twice the quorum exceeds the
      counting seats plus those of them that may sign arbitrarily, all accepted blocks are one block. */
  lemma Agreement(c: Config, x: Schedule, t: nat, quorum: int, a: NodeId, b: NodeId, g: Hash, h: Hash)
    requires Fits(c, x) == true && DistinctKeys(c) == true
    requires 2 * quorum > |c.ctx.counting| + |Traitors(c, x.adv)|
    requires a in c.grid.seats && b in c.grid.seats
    requires IsVerdict(SeatAfter(c, x, t, a), quorum, Accept(g)) == true
    requires IsVerdict(SeatAfter(c, x, t, b), quorum, Accept(h)) == true
    ensures g == h
  {
    hide AfterReaction, Grid.WellSeated, View.EquivocationShown, SeatAfter, Received;
    if g != h {
      var v, w := SeatAfter(c, x, t, a).view, SeatAfter(c, x, t, b).view;
      var A, B := v.For(g), w.For(h);
      SeatIsFiled(c, x, t, a);
      SeatIsFiled(c, x, t, b);
      ForIsCounting(v, c.ctx.counting, g);
      ForIsCounting(w, c.ctx.counting, h);
      forall m | m in A * B ensures m in Traitors(c, x.adv) {
        var p :| p in v.attestations && p.nodeId == m && p.statement.blockHash == g;
        var q :| q in w.attestations && q.nodeId == m && q.statement.blockHash == h;
        if m !in x.adv.corrupt {
          HonestAttestsOnce(c, x, t, a, p);
          HonestAttestsOnce(c, x, t, b, q);
        }
      }
      QuorumsMeet(A, B, c.ctx.counting, Traitors(c, x.adv));
    }
  }

  /** `params.quorum_size`: the ceiling of n * num / den. */
  function QuorumSize(n: nat, num: nat, den: nat): int
    requires den > 0
  {
    -((-(n * num)) / den)
  }

  /** At the shipped two thirds, fewer than a third of the counting seats may be corrupt. */
  lemma AgreementAtTwoThirds(c: Config, x: Schedule, t: nat, a: NodeId, b: NodeId, g: Hash, h: Hash)
    requires Fits(c, x) == true && DistinctKeys(c) == true
    requires 3 * |Traitors(c, x.adv)| < |c.ctx.counting|
    requires a in c.grid.seats && b in c.grid.seats
    requires IsVerdict(SeatAfter(c, x, t, a), QuorumSize(|c.ctx.counting|, 2, 3), Accept(g)) == true
    requires IsVerdict(SeatAfter(c, x, t, b), QuorumSize(|c.ctx.counting|, 2, 3), Accept(h)) == true
    ensures g == h
  {
    Agreement(c, x, t, QuorumSize(|c.ctx.counting|, 2, 3), a, b, g, h);
  }
}
