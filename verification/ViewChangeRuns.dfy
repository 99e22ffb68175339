/**
 How far view-change safety reaches (chain/viewchange.py): the run in which one height finalises two blocks, and exactly
 when no run does.
 */
module ViewChangeRuns {
  import opened Basics
  import opened Seats
  import opened QuorumCert
  import opened ViewChange

  /** A quorum has voted for `hash` in `view`, somewhere in a run. */
  ghost predicate Finalises(c: Height, steps: seq<Step>, states: seq<State>, i: nat, view: nat, hash: Hash) {
    Reachable(c, steps, states) && i < |states| && |VotersFor(states[i].votes, view, hash)| >= c.quorum
  }

  /** In no run does the height finalise two blocks. */
  ghost predicate OneBlockInEveryRun(c: Height) {
    forall steps, states, i, v, g, w, h {:trigger Finalises(c, steps, states, i, v, g),
                                         Finalises(c, steps, states, i, w, h)} ::
      Finalises(c, steps, states, i, v, g) && Finalises(c, steps, states, i, w, h) ==> g == h
  }

  // ---- one step, and many alike ----

  lemma Extend(c: Height, steps: seq<Step>, states: seq<State>, step: Step, t: State)
    requires Reachable(c, steps, states) && Next(c, states[|states| - 1], step, t)
    ensures Reachable(c, steps + [step], states + [t])
  {
    hide Next, Init;
    var more, all := steps + [step], states + [t];
    forall i | 0 <= i < |more| ensures Next(c, all[i], more[i], all[i + 1]) {
      if i < |steps| {
        assert all[i] == states[i] && all[i + 1] == states[i + 1] && more[i] == steps[i];
      }
    }
  }

  /** The state once everyone in `some` has voted. */
  ghost function Voted(c: Height, s: State, view: nat, hash: Hash, some: set<NodeId>): State {
    s.(current := map n | n in s.current :: if n in some && n !in c.faulty then view else s.current[n],
       votes := s.votes + set n | n in some :: Vote(view, n, hash))
  }

  ghost predicate CanVote(c: Height, s: State, view: nat, hash: Hash, some: set<NodeId>) {
    && some <= c.validators.Keys == s.current.Keys
    && (exists p <- s.proposals :: p.view == view && p.hash == hash)
    && (forall n <- some | n !in c.faulty :: s.current[n] <= view)
    && forall w <- s.votes | w.view == view && w.node !in c.faulty :: w.hash == hash
  }

  lemma VoteOne(c: Height, s: State, view: nat, hash: Hash, n: NodeId) returns (step: Step)
    requires CanVote(c, s, view, hash, {n})
    ensures Next(c, s, step, Voted(c, s, view, hash, {n}))
  {
    var v := Vote(view, n, hash);
    assert (set m | m in {n} :: Vote(view, m, hash)) == {v};
    if n in c.faulty {
      step := Stray(v);
      assert Voted(c, s, view, hash, {n}).current == s.current;
    } else {
      step := Attest(v);
      assert n in {n};
      assert Voted(c, s, view, hash, {n}).current == s.current[n := view];
    }
  }

  lemma VotedOneByOne(c: Height, s: State, view: nat, hash: Hash, some: set<NodeId>, n: NodeId)
    requires n in some
    ensures Voted(c, Voted(c, s, view, hash, {n}), view, hash, some - {n}) == Voted(c, s, view, hash, some)
  {
    var one, rest, all := set m | m in {n} :: Vote(view, m, hash), set m | m in some - {n} ::
      Vote(view, m, hash), set m | m in some :: Vote(view, m, hash);
    forall x ensures x in all <==> x in one || x in rest {
    }
    assert s.votes + all == s.votes + one + rest;
  }

  lemma {:induction false} VoteAll(c: Height, steps: seq<Step>, states: seq<State>, view: nat, hash: Hash,
                                   some: set<NodeId>)
    returns (more: seq<Step>, all: seq<State>)
    requires Reachable(c, steps, states) && CanVote(c, states[|states| - 1], view, hash, some)
    ensures Reachable(c, more, all) && all[|all| - 1] == Voted(c, states[|states| - 1], view, hash, some)
    decreases some
  {
    hide Next, Init;
    var s := states[|states| - 1];
    if some == {} {
      more, all := steps, states;
      assert (set n | n in some :: Vote(view, n, hash)) == {};
      assert Voted(c, s, view, hash, {}) == s;
    } else {
      var n :| n in some;
      var step := VoteOne(c, s, view, hash, n);
      var t := Voted(c, s, view, hash, {n});
      Extend(c, steps, states, step, t);
      VotedOneByOne(c, s, view, hash, some, n);
      more, all := VoteAll(c, steps + [step], states + [t], view, hash, some - {n});
    }
  }

  /** What a seat moving to view 1 signs, once `voters` have voted for block 0 in view 0: a disciplined seat the truth,
      a faulty one that it voted for block 1. */
  ghost function Change(c: Height, voters: set<NodeId>, n: NodeId): ViewChange
    requires n in c.validators
  {
    if n in c.faulty then SignedMove(c, n, 1, 0, Some(1))
    else if n in voters then SignedMove(c, n, 1, 0, Some(0))
    else SignedMove(c, n, 1, -1, None)
  }

  ghost function Moved(c: Height, s: State, voters: set<NodeId>, some: set<NodeId>): State
    requires some <= c.validators.Keys
  {
    s.(current := map n | n in s.current :: if n in some && n !in c.faulty then 1 else s.current[n],
       signed := s.signed + set n | n in some :: Change(c, voters, n))
  }

  ghost predicate CanMove(c: Height, s: State, voters: set<NodeId>, some: set<NodeId>) {
    && some <= c.validators.Keys == s.current.Keys
    && forall n <- some | n !in c.faulty ::
         s.current[n] == 0
         && IsLock(s.votes, n, 1, Change(c, voters, n).move.lockedView, Change(c, voters, n).move.lockedHash)
  }

  lemma MoveOne(c: Height, s: State, voters: set<NodeId>, n: NodeId) returns (step: Step)
    requires CanMove(c, s, voters, {n})
    ensures Next(c, s, step, Moved(c, s, voters, {n}))
  {
    hide IsLock;
    var vc := Change(c, voters, n);
    assert n in {n};
    assert (set m | m in {n} :: Change(c, voters, m)) == {vc};
    if n in c.faulty {
      step := Misreport(vc);
      assert Moved(c, s, voters, {n}).current == s.current;
    } else {
      step := Leave(n, 1, vc.move.lockedView, vc.move.lockedHash);
      assert Moved(c, s, voters, {n}).current == s.current[n := 1];
    }
  }

  lemma MovedOneByOne(c: Height, s: State, voters: set<NodeId>, some: set<NodeId>, n: NodeId)
    requires n in some && some <= c.validators.Keys
    ensures Moved(c, Moved(c, s, voters, {n}), voters, some - {n}) == Moved(c, s, voters, some)
  {
    hide Change;
    var one, rest, all := set m | m in {n} :: Change(c, voters, m), set m | m in some - {n} ::
      Change(c, voters, m), set m | m in some :: Change(c, voters, m);
    forall x ensures x in all <==> x in one || x in rest {
    }
    assert s.signed + all == s.signed + one + rest;
  }

  lemma {:induction false} MoveAll(c: Height, steps: seq<Step>, states: seq<State>, voters: set<NodeId>,
                                   some: set<NodeId>)
    returns (more: seq<Step>, all: seq<State>)
    requires Reachable(c, steps, states) && CanMove(c, states[|states| - 1], voters, some)
    ensures Reachable(c, more, all) && all[|all| - 1] == Moved(c, states[|states| - 1], voters, some)
    decreases some
  {
    hide Next, Init, IsLock, Change;
    var s := states[|states| - 1];
    if some == {} {
      more, all := steps, states;
      assert Moved(c, s, voters, some).signed == s.signed;
      assert Moved(c, s, voters, some) == s;
    } else {
      var n :| n in some;
      var step := MoveOne(c, s, voters, n);
      var t := Moved(c, s, voters, {n});
      Extend(c, steps, states, step, t);
      MovedOneByOne(c, s, voters, some, n);
      more, all := MoveAll(c, steps + [step], states + [t], voters, some - {n});
    }
  }

  // ---- the certificate of the movers ----

  lemma {:induction false} ListExists(some: set<NodeId>) returns (list: seq<NodeId>)
    ensures Distinct(list) && SetOf(list) == some && |list| == |some|
    decreases some
  {
    if some == {} {
      list := [];
    } else {
      var n :| n in some;
      var rest := ListExists(some - {n});
      list := rest + [n];
      assert forall x :: x in list <==> x in SetOf(rest) || x == n;
      assert forall x :: x in SetOf(list) <==> x in list;
      forall i, j | 0 <= i < j < |list| ensures list[i] != list[j] {
        assert list[i] in SetOf(rest);
      }
    }
  }

  /** The movers' certificate passes the check, and lets block 1 be proposed when a mover is faulty or no mover
      voted. */
  lemma MoversCert(c: Height, voters: set<NodeId>, movers: set<NodeId>) returns (cert: ViewChangeCert)
    requires movers <= c.validators.Keys && |movers| >= c.quorum && (movers * c.faulty != {} || voters !! movers)
    ensures Checks(c, cert, 1) && (forall vc <- cert.changes :: exists n <- movers :: vc == Change(c, voters, n))
            && Permits(Some(cert), 1, 1)
  {
    var list := ListExists(movers);
    forall i | 0 <= i < |list| ensures list[i] in movers {
      assert list[i] in SetOf(list);
    }
    var changes := seq(|list|, i requires 0 <= i < |list| => Change(c, voters, list[i]));
    cert := ViewChangeCert(1, changes);
    assert Signers(changes) == list;
    assert Checks(c, cert, 1);
    RequiredOfMovers(c, voters, movers, list, changes);
  }

  lemma RequiredOfMovers(c: Height, voters: set<NodeId>, movers: set<NodeId>, list: seq<NodeId>,
                         changes: seq<ViewChange>)
    requires movers <= c.validators.Keys && (movers * c.faulty != {} || voters !! movers) && SetOf(list) == movers
    requires (forall n <- list :: n in movers) && |changes| == |list|
             && forall i | 0 <= i < |list| :: changes[i] == Change(c, voters, list[i])
    ensures IsRequired(changes, Some(1)) || IsRequired(changes, None)
  {
    if movers * c.faulty != {} {
      var f :| f in movers * c.faulty;
      assert f in SetOf(list);
      var i :| 0 <= i < |list| && list[i] == f;
      var best := changes[i];
      assert best in changes && best.Locked();
      forall vc <- changes | vc.Locked()
        ensures !Above(vc.move.lockedView, vc.move.lockedHash.value, best.move.lockedView, best.move.lockedHash.value) {
        var j :| 0 <= j < |list| && changes[j] == vc;
      }
      assert IsRequired(changes, Some(1));
    } else {
      forall vc <- changes ensures !vc.Locked() {
        var j :| 0 <= j < |list| && changes[j] == vc;
        assert list[j] in list && list[j] in movers && list[j] !in movers * c.faulty && list[j] !in voters * movers;
      }
    }
  }

  // ---- the run that splits ----

  lemma VotersAre(votes: set<Vote>, view: nat, hash: Hash, some: set<NodeId>)
    requires (set n | n in some :: Vote(view, n, hash)) <= votes
    ensures some <= VotersFor(votes, view, hash)
  {
    forall n <- some ensures n in VotersFor(votes, view, hash) {
      assert Vote(view, n, hash) in votes;
    }
  }

  /** Block 0 is proposed in view 0 and gets the votes of `voters`. */
  lemma FirstQuorum(c: Height, voters: set<NodeId>) returns (steps: seq<Step>, states: seq<State>)
    requires voters <= c.validators.Keys
    ensures Reachable(c, steps, states) && var s := states[|states| - 1];
            s.votes == (set n | n in voters :: Vote(0, n, 0)) && s.current == map n | n in c.validators :: 0
  {
    hide Checks;
    var s0 := State(map n | n in c.validators :: 0, {}, {}, {});
    var p := Proposal(0, 0, None);
    var s1 := s0.(proposals := {p});
    assert Next(c, s0, Propose(p), s1);
    assert p in s1.proposals;
    steps, states := VoteAll(c, [Propose(p)], [s0, s1], 0, 0, voters);
  }

  /** The movers go to view 1, where block 1 is proposed under their certificate. */
  lemma MoveAndPropose(c: Height, voters: set<NodeId>, movers: set<NodeId>, steps: seq<Step>, states: seq<State>)
    returns (more: seq<Step>, all: seq<State>)
    requires Reachable(c, steps, states) && movers <= c.validators.Keys && |movers| >= c.quorum
             && (movers * c.faulty != {} || voters !! movers)
    requires var s := states[|states| - 1];
               s.votes == (set n | n in voters :: Vote(0, n, 0)) && s.current == map n | n in c.validators :: 0
    ensures Reachable(c, more, all) && CanVote(c, all[|all| - 1], 1, 1, movers)
            && all[|all| - 1].votes == states[|states| - 1].votes
  {
    hide Next, Init, Change, IsLock, Checks;
    var s := states[|states| - 1];
    LocksAre(c, s, voters, movers);
    more, all := MoveAll(c, steps, states, voters, movers);
    var t := all[|all| - 1];
    var cert := MoversCert(c, voters, movers);
    var q := Proposal(1, 1, Some(cert));
    forall vc <- cert.changes ensures vc in t.signed {
      var n :| n in movers && vc == Change(c, voters, n);
    }
    ProposeNext(c, t, q);
    Extend(c, more, all, Propose(q), t.(proposals := t.proposals + {q}));
    assert q in t.proposals + {q};
    more, all := more + [Propose(q)], all + [t.(proposals := t.proposals + {q})];
  }

  lemma ProposeNext(c: Height, s: State, q: Proposal)
    requires Allowed(c, s.signed, q)
    ensures Next(c, s, Propose(q), s.(proposals := s.proposals + {q}))
  {
  }

  /** Block 0 gets the votes of `voters` in view 0, block 1 those of the movers in view 1. */
  lemma SplitRun(c: Height, voters: set<NodeId>, movers: set<NodeId>) returns (steps: seq<Step>, states: seq<State>)
    requires voters <= c.validators.Keys && movers <= c.validators.Keys && |voters| >= c.quorum && |movers| >= c.quorum
    requires movers * c.faulty != {} || voters !! movers
    ensures states != [] && Finalises(c, steps, states, |states| - 1, 0, 0)
            && Finalises(c, steps, states, |states| - 1, 1, 1)
  {
    hide Next, Init, Change, CanVote;
    steps, states := FirstQuorum(c, voters);
    steps, states := MoveAndPropose(c, voters, movers, steps, states);
    steps, states := VoteAll(c, steps, states, 1, 1, movers);
    var votes := states[|states| - 1].votes;
    VotersAre(votes, 0, 0, voters);
    VotersAre(votes, 1, 1, movers);
    SubsetCount(voters, VotersFor(votes, 0, 0));
    SubsetCount(movers, VotersFor(votes, 1, 1));
  }

  /** What the movers report is what they voted. */
  lemma LocksAre(c: Height, s: State, voters: set<NodeId>, movers: set<NodeId>)
    requires movers <= c.validators.Keys == s.current.Keys && (forall n <- movers :: s.current[n] == 0)
    requires s.votes == set n | n in voters :: Vote(0, n, 0)
    ensures CanMove(c, s, voters, movers)
  {
    forall n <- movers | n !in c.faulty
      ensures IsLock(s.votes, n, 1, Change(c, voters, n).move.lockedView, Change(c, voters, n).move.lockedHash) {
      if n in voters {
        assert Vote(0, n, 0) in s.votes;
      }
    }
  }

  lemma {:induction false} SubsetOfSize(all: set<NodeId>, k: nat) returns (some: set<NodeId>)
    requires k <= |all|
    ensures some <= all && |some| == k
    decreases |all|
  {
    if k == |all| {
      some := all;
    } else {
      var n :| n in all;
      some := SubsetOfSize(all - {n}, k);
    }
  }

  /** One faulty seat in the roster, or quorums that need not meet, and some run finalises two blocks, whenever a quorum
      can vote at all. */
  lemma SomeRunSplits(c: Height)
    requires c.quorum <= |c.validators.Keys|
             && (c.faulty * c.validators.Keys != {} || 2 * c.quorum <= |c.validators.Keys|)
    ensures !OneBlockInEveryRun(c)
  {
    hide Reachable;
    var all := c.validators.Keys;
    var steps: seq<Step>;
    var states: seq<State>;
    if c.quorum <= 0 {
      steps, states := SplitRun(c, {}, {});
    } else if 2 * c.quorum <= |all| {
      var voters := SubsetOfSize(all, c.quorum);
      var movers := SubsetOfSize(all - voters, c.quorum);
      steps, states := SplitRun(c, voters, movers);
    } else {
      var f :| f in c.faulty * all;
      var rest := SubsetOfSize(all - {f}, c.quorum - 1);
      steps, states := SplitRun(c, rest + {f}, rest + {f});
    }
    assert Finalises(c, steps, states, |states| - 1, 0, 0) && Finalises(c, steps, states, |states| - 1, 1, 1);
  }

  /** One height finalises one block in every run exactly when no quorum can vote, or every seat of the roster keeps the
      discipline and the quorum is more than half of it. A single faulty seat is too many, whatever the quorum. */
  lemma OneBlockIff(c: Height)
    ensures OneBlockInEveryRun(c)
            <==> c.quorum > |c.validators.Keys| || (c.faulty !! c.validators.Keys && 2 * c.quorum > |c.validators.Keys|)
  {
    hide Reachable;
    if c.quorum > |c.validators.Keys| {
      forall steps: seq<Step>, states: seq<State>, i: nat, v: nat, g: Hash | Finalises(c, steps, states, i, v, g)
        ensures false {
        InvHolds(c, steps, states, i);
        VotersAreSeats(c, states[i], v, g);
        SubsetCount(VotersFor(states[i].votes, v, g), c.validators.Keys);
      }
    } else if c.faulty !! c.validators.Keys && 2 * c.quorum > |c.validators.Keys| {
      forall steps: seq<Step>, states: seq<State>, i: nat, v: nat, g: Hash, w: nat,
        h: Hash | Finalises(c, steps, states, i, v, g) && Finalises(c, steps, states, i, w, h) ensures g == h {
        OneBlockAHeight(c, steps, states, i, v, g, w, h);
      }
    } else {
      if c.faulty * c.validators.Keys == {} {
        forall n <- c.faulty ensures n !in c.validators.Keys {
          assert n !in c.faulty * c.validators.Keys;
        }
      }
      SomeRunSplits(c);
    }
  }
}
