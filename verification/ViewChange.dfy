/**
 View change (chain/viewchange.py): the certificate a new leader proposes under, the block it obliges the
 leader to, and why one height never finalises two blocks.

 Signatures are ideal. An empty locked hash is None.
 */
module ViewChange {
  import opened Basics
  import opened Seats
  import opened QuorumCert

  /** What a seat signs when it moves to a view. */
  datatype Move = Move(nodeId: NodeId, chainId: string, height: int, epoch: int, view: int, lockedView: int,
                       lockedHash: Option<Hash>)

  datatype MoveSignature = MoveSig(key: Key, move: Move) | MoveJunk(text: string)

  datatype ViewChange = ViewChange(move: Move, publicKey: Key, signature: MoveSignature) {
    predicate Locked() {
      move.lockedView >= 0 && move.lockedHash.Some?
    }

    predicate Verifies() {
      signature == MoveSig(publicKey, move)
    }
  }

  datatype ViewChangeCert = ViewChangeCert(view: int, changes: seq<ViewChange>)

  /** The height a view change happens at, the grid's roster and quorum, and the seats that keep no discipline. */
  datatype Height = Height(chainId: string, height: int, epoch: int, quorum: int, validators: map<NodeId, Key>,
                           faulty: set<NodeId>)

  // ---- the certificate ----

  predicate IsFor(c: Height, view: int, vc: ViewChange) {
    && vc.move.chainId == c.chainId && vc.move.height == c.height && vc.move.epoch == c.epoch && vc.move.view == view
    && vc.move.nodeId in c.validators && c.validators[vc.move.nodeId] == vc.publicKey && vc.Verifies()
  }

  function Signers(changes: seq<ViewChange>): (r: seq<NodeId>)
    ensures |r| == |changes|
  {
    seq(|changes|, i requires 0 <= i < |changes| => changes[i].move.nodeId)
  }

  /** A quorum of different seats, each with a signed move to this view. */
  ghost predicate Checks(c: Height, cert: ViewChangeCert, view: int) {
    && cert.view == view
    && (forall i | 0 <= i < |cert.changes| :: IsFor(c, view, cert.changes[i]))
    && Distinct(Signers(cert.changes)) && |cert.changes| >= c.quorum
  }

  lemma NobodySeen(names: seq<NodeId>)
    ensures Distinct(names[..0]) && SetOf(names[..0]) == {}
  {
  }

  lemma SignerSeen(names: seq<NodeId>, i: nat, seen: set<NodeId>)
    requires i < |names| && Distinct(names[..i]) && seen == SetOf(names[..i])
    ensures if names[i] in seen then !Distinct(names)
            else Distinct(names[..i + 1]) && SetOf(names[..i + 1]) == seen + {names[i]}
  {
    if names[i] in seen {
      var j :| 0 <= j < i && names[..i][j] == names[i];
      assert names[j] == names[i];
    } else {
      assert names[..i + 1] == names[..i] + [names[i]];
      assert forall x :: x in names[..i + 1] <==> x in names[..i] || x == names[i];
      forall j | 0 <= j < i ensures names[j] != names[i] {
        assert names[..i][j] in SetOf(names[..i]);
      }
    }
  }

  method Check(c: Height, cert: ViewChangeCert, view: int) returns (ok: bool)
    ensures ok <==> Checks(c, cert, view)
  {
    hide IsFor, Distinct, SetOf;
    if view != cert.view {
      return false;
    }
    var names := Signers(cert.changes);
    var seen: set<NodeId> := {};
    NobodySeen(names);
    for i := 0 to |cert.changes|
      invariant forall j | 0 <= j < i :: IsFor(c, view, cert.changes[j])
      invariant Distinct(names[..i]) && seen == SetOf(names[..i])
    {
      var vc := cert.changes[i];
      if !IsFor(c, view, vc) {
        return false;
      }
      SignerSeen(names, i, seen);
      if vc.move.nodeId in seen {
        return false;
      }
      seen := seen + {vc.move.nodeId};
    }
    assert names[..|names|] == names;
    DistinctSize(names);
    return |seen| >= c.quorum;
  }

  /** (view, hash) pairs in the order the code compares them. */
  predicate Above(v: int, h: Hash, w: int, g: Hash) {
    v > w || (v == w && h > g)
  }

  ghost predicate Highest(changes: seq<ViewChange>, best: ViewChange)
    requires best.Locked()
  {
    forall vc <- changes | vc.Locked() ::
      !Above(vc.move.lockedView, vc.move.lockedHash.value, best.move.lockedView, best.move.lockedHash.value)
  }

  /** The block with the highest lock; None when no change carries one. */
  ghost predicate IsRequired(changes: seq<ViewChange>, r: Option<Hash>) {
    if forall vc <- changes :: !vc.Locked() then r == None
    else exists best <- changes :: best.Locked() && r == best.move.lockedHash && Highest(changes, best)
  }

  method RequiredBlock(cert: ViewChangeCert) returns (r: Option<Hash>)
    ensures IsRequired(cert.changes, r)
  {
    var best: Option<(int, Hash)> := None;
    ghost var from: Option<ViewChange> := None;
    for i := 0 to |cert.changes|
      invariant best.None? ==> forall j | 0 <= j < i :: !cert.changes[j].Locked()
      invariant best.Some? ==> from.Some? && from.value in cert.changes && from.value.Locked()
                               && best.value == (from.value.move.lockedView, from.value.move.lockedHash.value)
      invariant best.Some? ==> forall j | 0 <= j < i && cert.changes[j].Locked() ::
                  !Above(cert.changes[j].move.lockedView, cert.changes[j].move.lockedHash.value, best.value.0,
                         best.value.1)
    {
      var vc := cert.changes[i];
      if !vc.Locked() {
        continue;
      }
      if best.None? || Above(vc.move.lockedView, vc.move.lockedHash.value, best.value.0, best.value.1) {
        best, from := Some((vc.move.lockedView, vc.move.lockedHash.value)), Some(vc);
      }
    }
    return if best.None? then None else Some(best.value.1);
  }

  lemma RequiredIsUnique(changes: seq<ViewChange>, q: Option<Hash>, r: Option<Hash>)
    requires IsRequired(changes, q) && IsRequired(changes, r)
    ensures q == r
  {
  }

  ghost predicate Permits(cert: Option<ViewChangeCert>, blockHash: Hash, view: int) {
    if view == 0 then cert.None? || cert.value.changes == []
    else cert.Some? && exists r :: IsRequired(cert.value.changes, r) && (r == None || r == Some(blockHash))
  }

  method MayPropose(cert: Option<ViewChangeCert>, blockHash: Hash, view: int) returns (ok: bool)
    ensures ok <==> Permits(cert, blockHash, view)
  {
    if view == 0 {
      return cert.None? || cert.value.changes == [];
    }
    if cert.None? {
      return false;
    }
    var required := RequiredBlock(cert.value);
    if required.Some? && required.value != blockHash {
      forall r | IsRequired(cert.value.changes, r) ensures r == required {
        RequiredIsUnique(cert.value.changes, r, required);
      }
      return false;
    }
    return true;
  }

  // ---- a run of one height ----

  datatype Vote = Vote(view: nat, node: NodeId, hash: Hash)
  datatype Proposal = Proposal(view: nat, hash: Hash, cert: Option<ViewChangeCert>)

  /** Which view each seat has moved to, what was voted, signed and proposed. */
  datatype State = State(current: map<NodeId, nat>, votes: set<Vote>, signed: set<ViewChange>, proposals: set<Proposal>)

  ghost predicate Init(c: Height, s: State) {
    s.current == (map n | n in c.validators :: 0) && s.votes == {} && s.signed == {} && s.proposals == {}
  }

  /** The seat's latest vote below a view, if any: what it reports as its lock. */
  ghost predicate IsLock(votes: set<Vote>, n: NodeId, view: nat, lockedView: int, lockedHash: Option<Hash>) {
    if forall v <- votes :: !(v.node == n && v.view < view) then lockedView == -1 && lockedHash == None
    else exists v <- votes :: v.node == n && v.view < view && lockedView == v.view && lockedHash == Some(v.hash)
           && forall w <- votes | w.node == n && w.view < view :: w.view <= v.view
  }

  datatype Step =
    | Leave(n: NodeId, view: nat, lockedView: int, lockedHash: Option<Hash>)
    | Propose(proposal: Proposal)
    | Attest(vote: Vote)
    | Misreport(change: ViewChange)
    | Stray(vote: Vote)

  function SignedMove(c: Height, n: NodeId, view: nat, lockedView: int, lockedHash: Option<Hash>): ViewChange
    requires n in c.validators
  {
    var m := Move(n, c.chainId, c.height, c.epoch, view, lockedView, lockedHash);
    ViewChange(m, c.validators[n], MoveSig(c.validators[n], m))
  }

  /** Anyone may propose; every verifying change in the certificate was really signed, and the rule holds. */
  ghost predicate Allowed(c: Height, signed: set<ViewChange>, p: Proposal) {
    && Permits(p.cert, p.hash, p.view)
    && (p.view > 0 ==>
        p.cert.Some? && Checks(c, p.cert.value, p.view)
        && forall vc <- p.cert.value.changes :: vc.Verifies() ==> vc in signed)
  }

  /** The discipline of a seat: it moves forward only, reports its latest vote, and votes once a view, for a
      proposal it may vote for, never in a view it has left. Such votes in one view name one block. A faulty seat
      signs any change and votes for anything, as often as it likes. */
  ghost predicate Next(c: Height, s: State, step: Step, t: State) {
    match step
    case Leave(n, view, lockedView, lockedHash) =>
      && n in c.validators && n !in c.faulty && n in s.current && view > s.current[n]
      && IsLock(s.votes, n, view, lockedView, lockedHash)
      && t == s.(current := s.current[n := view], signed := s.signed + {SignedMove(c, n, view, lockedView, lockedHash)})
    case Propose(p) =>
      Allowed(c, s.signed, p) && t == s.(proposals := s.proposals + {p})
    case Attest(v) =>
      && v.node in c.validators && v.node !in c.faulty && v.node in s.current && s.current[v.node] <= v.view
      && (exists p <- s.proposals :: p.view == v.view && p.hash == v.hash)
      && (forall w <- s.votes | w.view == v.view && w.node !in c.faulty :: w.hash == v.hash)
      && t == s.(current := s.current[v.node := v.view], votes := s.votes + {v})
    case Misreport(vc) =>
      vc.move.nodeId in c.validators && vc.move.nodeId in c.faulty && t == s.(signed := s.signed + {vc})
    case Stray(v) =>
      v.node in c.validators && v.node in c.faulty && t == s.(votes := s.votes + {v})
  }

  ghost predicate Reachable(c: Height, steps: seq<Step>, states: seq<State>) {
    && |states| == |steps| + 1 && Init(c, states[0])
    && forall i | 0 <= i < |steps| :: Next(c, states[i], steps[i], states[i + 1])
  }

  // ---- what every state keeps ----

  ghost predicate Inv(c: Height, s: State) {
    && s.current.Keys == c.validators.Keys
    && (forall v <- s.votes :: v.node in s.current && (v.node !in c.faulty ==> v.view <= s.current[v.node]))
    && (forall v, w ::
         v in s.votes && w in s.votes && v.node !in c.faulty && w.node !in c.faulty && v.view == w.view ==>
           v.hash == w.hash)
    && (forall v <- s.votes | v.node !in c.faulty :: exists p <- s.proposals :: p.view == v.view && p.hash == v.hash)
    && (forall p <- s.proposals :: Allowed(c, s.signed, p))
    && (forall vc <- s.signed | vc.move.nodeId !in c.faulty :: Truthful(s, vc))
  }

  /** The move's lock is the seat's latest vote below the view it moved to, now and for good. */
  ghost predicate Truthful(s: State, vc: ViewChange) {
    && vc.move.nodeId in s.current && 0 <= vc.move.view <= s.current[vc.move.nodeId]
    && IsLock(s.votes, vc.move.nodeId, vc.move.view, vc.move.lockedView, vc.move.lockedHash)
  }

  lemma AllowedStays(c: Height, signed: set<ViewChange>, more: set<ViewChange>, p: Proposal)
    requires Allowed(c, signed, p) && signed <= more
    ensures Allowed(c, more, p)
  {
  }

  /** A vote at or above the seat's view does not change any lock it has reported. */
  lemma VoteKeepsLock(s: State, vc: ViewChange, v: Vote)
    requires Truthful(s, vc) && v.node in s.current && s.current[v.node] <= v.view
    ensures Truthful(s.(current := s.current[v.node := v.view], votes := s.votes + {v}), vc)
  {
    var n, view := vc.move.nodeId, vc.move.view;
    var more := s.votes + {v};
    if forall w <- s.votes :: !(w.node == n && w.view < view) {
      assert forall w <- more :: !(w.node == n && w.view < view);
    } else {
      var x :| x in s.votes && x.node == n && x.view < view && vc.move.lockedView == x.view
        && vc.move.lockedHash == Some(x.hash)
               && forall w <- s.votes | w.node == n && w.view < view :: w.view <= x.view;
      assert x in more;
      assert forall w <- more | w.node == n && w.view < view :: w.view <= x.view;
    }
  }

  lemma InvNext(c: Height, s: State, step: Step, t: State)
    requires Inv(c, s) && Next(c, s, step, t)
    ensures Inv(c, t)
  {
    match step {
      case Leave(n, view, lockedView, lockedHash) =>
        LeaveKeeps(c, s, t, n, view, lockedView, lockedHash);
      case Propose(p) =>
        ProposeKeeps(c, s, t, p);
      case Attest(v) =>
        AttestKeeps(c, s, t, v);
      case Misreport(vc) =>
        MisreportKeeps(c, s, t, vc);
      case Stray(v) =>
        StrayKeeps(c, s, t, v);
    }
  }

  lemma MisreportKeeps(c: Height, s: State, t: State, vc: ViewChange)
    requires Inv(c, s) && Next(c, s, Misreport(vc), t)
    ensures Inv(c, t)
  {
    hide IsLock, Permits, Checks;
    forall p <- t.proposals ensures Allowed(c, t.signed, p) {
      AllowedStays(c, s.signed, t.signed, p);
    }
    forall k <- t.signed | k.move.nodeId !in c.faulty ensures Truthful(t, k) {
      assert Truthful(s, k);
    }
  }

  /** A faulty seat's vote is in nobody else's lock. */
  lemma StrayKeeps(c: Height, s: State, t: State, v: Vote)
    requires Inv(c, s) && Next(c, s, Stray(v), t)
    ensures Inv(c, t)
  {
    hide Permits, Checks;
    forall vc <- t.signed | vc.move.nodeId !in c.faulty ensures Truthful(t, vc) {
      assert Truthful(s, vc);
      OtherKeepsLock(s.votes, v, vc.move.nodeId, vc.move.view, vc.move.lockedView, vc.move.lockedHash);
    }
  }

  lemma OtherKeepsLock(votes: set<Vote>, v: Vote, n: NodeId, view: nat, lockedView: int, lockedHash: Option<Hash>)
    requires IsLock(votes, n, view, lockedView, lockedHash) && v.node != n
    ensures IsLock(votes + {v}, n, view, lockedView, lockedHash)
  {
    var more := votes + {v};
    if forall w <- votes :: !(w.node == n && w.view < view) {
      assert forall w <- more :: !(w.node == n && w.view < view);
    } else {
      var x :| x in votes && x.node == n && x.view < view && lockedView == x.view && lockedHash == Some(x.hash)
               && forall w <- votes | w.node == n && w.view < view :: w.view <= x.view;
      assert x in more;
      assert forall w <- more | w.node == n && w.view < view :: w.view <= x.view;
    }
  }

  lemma LeaveKeeps(c: Height, s: State, t: State, n: NodeId, view: nat, lockedView: int, lockedHash: Option<Hash>)
    requires Inv(c, s) && Next(c, s, Leave(n, view, lockedView, lockedHash), t)
    ensures Inv(c, t)
  {
    hide IsLock, Permits, Checks;
    forall p <- t.proposals ensures Allowed(c, t.signed, p) {
      AllowedStays(c, s.signed, t.signed, p);
    }
    forall vc <- t.signed | vc.move.nodeId !in c.faulty ensures Truthful(t, vc) {
      if vc in s.signed {
        assert Truthful(s, vc);
      }
    }
  }

  lemma ProposeKeeps(c: Height, s: State, t: State, p: Proposal)
    requires Inv(c, s) && Next(c, s, Propose(p), t)
    ensures Inv(c, t)
  {
    hide IsLock, Permits, Checks;
    forall v <- t.votes | v.node !in c.faulty ensures exists q <- t.proposals :: q.view == v.view && q.hash == v.hash {
      var q :| q in s.proposals && q.view == v.view && q.hash == v.hash;
      assert q in t.proposals;
    }
    forall vc <- t.signed | vc.move.nodeId !in c.faulty ensures Truthful(t, vc) {
      assert Truthful(s, vc);
    }
  }

  lemma AttestKeeps(c: Height, s: State, t: State, v: Vote)
    requires Inv(c, s) && Next(c, s, Attest(v), t)
    ensures Inv(c, t)
  {
    hide IsLock, Permits, Checks;
    forall vc <- t.signed | vc.move.nodeId !in c.faulty ensures Truthful(t, vc) {
      VoteKeepsLock(s, vc, v);
    }
  }

  lemma {:induction false} InvHolds(c: Height, steps: seq<Step>, states: seq<State>, i: nat)
    requires Reachable(c, steps, states) && i < |states|
    ensures Inv(c, states[i])
  {
    if i > 0 {
      InvHolds(c, steps, states, i - 1);
      InvNext(c, states[i - 1], steps[i - 1], states[i]);
    }
  }

  // ---- safety ----

  function VotersFor(votes: set<Vote>, view: nat, h: Hash): set<NodeId> {
    set v | v in votes && v.view == view && v.hash == h :: v.node
  }

  lemma {:induction false} SubsetCount(a: set<NodeId>, b: set<NodeId>)
    requires a <= b
    ensures |a| <= |b|
  {
    if a != {} {
      var x :| x in a;
      SubsetCount(a - {x}, b - {x});
    }
  }

  /** Quorums are large enough: any two share a seat that is not faulty. */
  predicate Enough(c: Height) {
    2 * c.quorum > |c.validators.Keys| + |c.validators.Keys * c.faulty|
  }

  /** Two quorums of one roster share a disciplined seat. */
  lemma SharedSeat(c: Height, a: set<NodeId>, b: set<NodeId>) returns (n: NodeId)
    requires a <= c.validators.Keys && b <= c.validators.Keys && |a| >= c.quorum && |b| >= c.quorum && Enough(c)
    ensures n in a && n in b && n !in c.faulty
  {
    SubsetCount(a + b, c.validators.Keys);
    assert |a + b| == |a| + |b| - |a * b|;
    if a * b <= c.faulty {
      SubsetCount(a * b, c.validators.Keys * c.faulty);
    }
    n :| n in a * b && n !in c.faulty;
  }

  lemma SignersOfCert(c: Height, cert: ViewChangeCert, view: int)
    requires Checks(c, cert, view)
    ensures SetOf(Signers(cert.changes)) <= c.validators.Keys && |SetOf(Signers(cert.changes))| >= c.quorum
  {
    DistinctSize(Signers(cert.changes));
    forall n <- SetOf(Signers(cert.changes)) ensures n in c.validators {
      var i :| 0 <= i < |cert.changes| && Signers(cert.changes)[i] == n;
      assert IsFor(c, view, cert.changes[i]);
    }
  }

  /** No faulty seat's lock tops the certificate the proposal goes under. */
  ghost predicate Grounded(c: Height, p: Proposal) {
    p.view > 0 && p.cert.Some? ==>
      forall best {:trigger best.Locked()} ::
        best in p.cert.value.changes && best.Locked() && Highest(p.cert.value.changes, best) ==>
        exists k :: k in p.cert.value.changes && k.Locked() && k.move.nodeId !in c.faulty
                    && k.move.lockedView == best.move.lockedView && k.move.lockedHash == best.move.lockedHash
  }

  ghost predicate AllGrounded(c: Height, s: State) {
    forall p <- s.proposals :: Grounded(c, p)
  }

  /** Once a quorum votes for b in view w, whatever is proposed in a later view, under grounded certificates, is b. */
  lemma {:induction false} LaterIsSame(c: Height, s: State, w: nat, b: Hash, p: Proposal)
    requires Inv(c, s) && Enough(c) && AllGrounded(c, s) && Grounded(c, p)
    requires |VotersFor(s.votes, w, b)| >= c.quorum && Allowed(c, s.signed, p) && p.view > w
    ensures p.hash == b
    decreases p.view
  {
    hide Checks, ViewChange.Locked;
    var cert := p.cert.value;
    var m := SharedLock(c, s, w, b, p);
    var r :| IsRequired(cert.changes, r) && (r == None || r == Some(p.hash));
    var best :| best in cert.changes && best.Locked() && r == best.move.lockedHash && Highest(cert.changes, best);
    assert best.move.lockedView >= m.move.lockedView >= w;
    var k :| k in cert.changes && k.Locked() && k.move.nodeId !in c.faulty && k.move.lockedView == best.move.lockedView
      && k.move.lockedHash == best.move.lockedHash;
    var v := LockIsVote(c, s, p, k);
    if v.view == w {
      var x := HonestVoter(c, s, w, b);
    } else {
      var q :| q in s.proposals && q.view == v.view && q.hash == v.hash;
      LaterIsSame(c, s, w, b, q);
    }
  }

  /** A quorum's votes include a disciplined seat's. */
  lemma HonestVoter(c: Height, s: State, w: nat, b: Hash) returns (x: Vote)
    requires Inv(c, s) && Enough(c) && |VotersFor(s.votes, w, b)| >= c.quorum
    ensures x in s.votes && x.view == w && x.hash == b && x.node !in c.faulty
  {
    VotersAreSeats(c, s, w, b);
    var n := SharedSeat(c, VotersFor(s.votes, w, b), VotersFor(s.votes, w, b));
    x :| x in s.votes && x.view == w && x.hash == b && x.node == n;
  }

  lemma VotersAreSeats(c: Height, s: State, w: nat, b: Hash)
    requires Inv(c, s)
    ensures VotersFor(s.votes, w, b) <= c.validators.Keys
  {
  }

  /** A change in the certificate comes from a disciplined seat that voted for b in view w, so its lock is at or above
      w. */
  lemma SharedLock(c: Height, s: State, w: nat, b: Hash, p: Proposal) returns (m: ViewChange)
    requires Inv(c, s) && Enough(c)
    requires |VotersFor(s.votes, w, b)| >= c.quorum && Allowed(c, s.signed, p) && p.view > w
    ensures p.cert.Some? && m in p.cert.value.changes && m.Locked() && m.move.lockedView >= w
  {
    var cert := p.cert.value;
    SignersOfCert(c, cert, p.view);
    VotersAreSeats(c, s, w, b);
    var n := SharedSeat(c, VotersFor(s.votes, w, b), SetOf(Signers(cert.changes)));
    var i :| 0 <= i < |cert.changes| && Signers(cert.changes)[i] == n;
    m := cert.changes[i];
    assert IsFor(c, p.view, m) && m in cert.changes;
    assert Truthful(s, m);
    var v :| v in s.votes && v.view == w && v.hash == b && v.node == n;
  }

  /** A disciplined seat's lock in the certificate is a real vote in an earlier view. */
  lemma LockIsVote(c: Height, s: State, p: Proposal, vc: ViewChange) returns (v: Vote)
    requires Inv(c, s) && Allowed(c, s.signed, p) && p.view > 0 && p.cert.Some? && vc in p.cert.value.changes
             && vc.Locked() && vc.move.nodeId !in c.faulty
    ensures v in s.votes && v.node !in c.faulty && v.view < p.view && vc.move.lockedView == v.view
            && vc.move.lockedHash == Some(v.hash)
  {
    var i :| 0 <= i < |p.cert.value.changes| && p.cert.value.changes[i] == vc;
    assert IsFor(c, p.view, vc);
    assert Truthful(s, vc);
    v :| v in s.votes && v.node == vc.move.nodeId && v.view < vc.move.view && vc.move.lockedView == v.view
      && vc.move.lockedHash == Some(v.hash);
  }

  /** One height never finalises two blocks, in whichever views the quorums voted, although the faulty seats vote and
      report as they please, so long as any two quorums share a disciplined seat and no faulty lock tops a certificate
      that was proposed under. */
  lemma OneBlockDespiteFaults(c: Height, steps: seq<Step>, states: seq<State>, i: nat, v: nat, g: Hash, w: nat, h: Hash)
    requires Reachable(c, steps, states) && i < |states| && Enough(c) && AllGrounded(c, states[i])
    requires |VotersFor(states[i].votes, v, g)| >= c.quorum && |VotersFor(states[i].votes, w, h)| >= c.quorum
    ensures g == h
  {
    var s := states[i];
    InvHolds(c, steps, states, i);
    var x := HonestVoter(c, s, v, g);
    var y := HonestVoter(c, s, w, h);
    var p :| p in s.proposals && p.view == v && p.hash == g;
    var q :| q in s.proposals && q.view == w && q.hash == h;
    if v < w {
      LaterIsSame(c, s, v, g, q);
    } else if w < v {
      LaterIsSame(c, s, w, h, p);
    }
  }

  /** Where every seat of the roster keeps the discipline, a majority quorum is all it takes. */
  lemma OneBlockAHeight(c: Height, steps: seq<Step>, states: seq<State>, i: nat, v: nat, g: Hash, w: nat, h: Hash)
    requires Reachable(c, steps, states) && i < |states| && c.faulty !! c.validators.Keys
             && 2 * c.quorum > |c.validators.Keys|
    requires |VotersFor(states[i].votes, v, g)| >= c.quorum && |VotersFor(states[i].votes, w, h)| >= c.quorum
    ensures g == h
  {
    InvHolds(c, steps, states, i);
    assert c.validators.Keys * c.faulty == {};
    forall p <- states[i].proposals ensures Grounded(c, p) {
      assert Allowed(c, states[i].signed, p);
      if p.view > 0 && p.cert.Some? {
        forall k | 0 <= k < |p.cert.value.changes| ensures p.cert.value.changes[k].move.nodeId !in c.faulty {
          assert IsFor(c, p.view, p.cert.value.changes[k]);
        }
      }
    }
    OneBlockDespiteFaults(c, steps, states, i, v, g, w, h);
  }

  /** Every lock must be truthful: one seat that claims a lock above everyone else's decides the block, and
      a certificate that passes the check carries it. */
  lemma OneLieDecides(c: Height, cert: ViewChangeCert, view: int, i: nat, lie: Hash)
    requires Checks(c, cert, view) && i < |cert.changes|
    requires cert.changes[i].move.lockedHash == Some(lie) && cert.changes[i].move.lockedView >= 0
    requires forall j | 0 <= j < |cert.changes|
             && j != i :: cert.changes[j].move.lockedView < cert.changes[i].move.lockedView
    ensures IsRequired(cert.changes, Some(lie))
    ensures view != 0 ==> forall h :: Permits(Some(cert), h, view) <==> h == lie
  {
    assert cert.changes[i].Locked() && cert.changes[i] in cert.changes;
    assert IsRequired(cert.changes, Some(lie));
    forall r | IsRequired(cert.changes, r) ensures r == Some(lie) {
      RequiredIsUnique(cert.changes, r, Some(lie));
    }
  }
}
