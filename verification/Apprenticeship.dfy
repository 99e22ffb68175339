/**
 What the gate of the grid register costs: exactly when a newcomer has become an attester, said of its attendance
 alone (chain/register.py, `GridRegister.apply`).
 */
module Apprenticeship {
  import opened Basics
  import opened Locality
  import opened Register

  /** Attendances among ceremonies i up to but not including j. */
  ghost function Count(h: seq<bool>, i: nat, j: nat): nat
    requires i <= j <= |h|
    decreases j
  {
    if i == j then 0 else Count(h, i, j - 1) + if h[j - 1] then 1 else 0
  }

  ghost predicate SeenIn(h: seq<bool>, k: nat, f: nat)
    requires k + f < |h|
  {
    exists m: nat :: k <= m <= k + f && h[m]
  }

  /** No absence between i and j is longer than the register forgives. */
  ghost predicate Unbroken(h: seq<bool>, i: nat, j: nat, f: nat)
    requires i <= j <= |h|
  {
    forall k: nat {:trigger SeenIn(h, k, f)} :: i <= k && k + f < j ==> SeenIn(h, k, f)
  }

  /** A stretch of the history that earns the gate. */
  ghost predicate Earns(h: seq<bool>, i: nat, j: nat, threshold: nat, f: nat) {
    i <= j <= |h| && Unbroken(h, i, j, f) && Count(h, i, j) >= threshold
  }

  datatype Track = Track(standing: Standing, streak: nat, misses: nat) {
    function Step(present: bool, threshold: nat, f: nat): Track {
      if present then Track(if standing == Apprentice
                            && streak + 1 >= threshold then Attester else standing, streak + 1, 0)
      else Track(standing, if misses + 1 > f then 0 else streak, misses + 1)
    }
  }

  function After(h: seq<bool>, threshold: nat, f: nat): Track {
    if h == [] then Track(Apprentice, 0, 0) else After(h[..|h| - 1], threshold, f).Step(h[|h| - 1], threshold, f)
  }

  /** How many ceremonies the history ends with that were missed. */
  ghost predicate Trailing(h: seq<bool>, misses: nat) {
    && misses <= |h| && (forall k: nat | |h| - misses <= k < |h| :: !h[k])
    && (misses < |h| ==> h[|h| - misses - 1])
  }

  ghost predicate Tracks(h: seq<bool>, streak: nat, f: nat) {
    && (exists i: nat :: i <= |h| && Unbroken(h, i, |h|, f) && Count(h, i, |h|) == streak)
    && forall i: nat {:trigger Unbroken(h, i, |h|, f)} :: i <= |h| && Unbroken(h, i, |h|, f) ==>
       Count(h, i, |h|) <= streak
  }

  lemma {:induction false} CountOfPrefix(h: seq<bool>, more: seq<bool>, i: nat, j: nat)
    requires i <= j <= |h|
    ensures Count(h + more, i, j) == Count(h, i, j)
    decreases j
  {
    if i < j {
      CountOfPrefix(h, more, i, j - 1);
    }
  }

  lemma UnbrokenPrefix(h: seq<bool>, more: seq<bool>, i: nat, j: nat, f: nat)
    requires i <= j <= |h|
    ensures Unbroken(h + more, i, j, f) <==> Unbroken(h, i, j, f)
  {
    forall k: nat | k + f < j ensures SeenIn(h + more, k, f) <==> SeenIn(h, k, f) {
      if SeenIn(h, k, f) {
        var m: nat :| k <= m <= k + f && h[m];
        assert (h + more)[m];
      }
      if SeenIn(h + more, k, f) {
        var m: nat :| k <= m <= k + f && (h + more)[m];
        assert h[m];
      }
    }
    if Unbroken(h, i, j, f) {
      forall k: nat | i <= k && k + f < j ensures SeenIn(h + more, k, f) {
        assert SeenIn(h, k, f);
      }
    }
    if Unbroken(h + more, i, j, f) {
      forall k: nat | i <= k && k + f < j ensures SeenIn(h, k, f) {
        assert SeenIn(h + more, k, f);
      }
    }
  }

  /** One more attendance breaks nothing and counts once. */
  lemma PresentExtends(h: seq<bool>, i: nat, f: nat)
    requires i <= |h|
    ensures var g := h + [true];
              (Unbroken(g, i, |g|, f) <==> Unbroken(h, i, |h|, f)) && Count(g, i, |g|) == Count(h, i, |h|) + 1
  {
    var g := h + [true];
    UnbrokenPrefix(h, [true], i, |h|, f);
    CountOfPrefix(h, [true], i, |h|);
    if Unbroken(h, i, |h|, f) {
      forall k: nat | i <= k && k + f < |g| ensures SeenIn(g, k, f) {
        assert k + f == |h| ==> g[|h|];
      }
    }
    if Unbroken(g, i, |g|, f) {
      assert Unbroken(g, i, |h|, f);
    }
  }

  /** One more absence breaks a stretch exactly when the run of absences it ends is too long and inside the stretch. */
  lemma AbsentExtends(h: seq<bool>, misses: nat, i: nat, f: nat)
    requires i <= |h| && Trailing(h, misses)
    ensures var g := h + [false];
            && (Unbroken(g, i, |g|, f) <==> Unbroken(h, i, |h|, f) && (misses + 1 <= f || |h| < i + f))
            && Count(g, i, |g|) == Count(h, i, |h|)
  {
    var g := h + [false];
    UnbrokenPrefix(h, [false], i, |h|, f);
    CountOfPrefix(h, [false], i, |h|);
    if Unbroken(g, i, |g|, f) {
      assert Unbroken(g, i, |h|, f);
      if misses + 1 > f && i + f <= |h| {
        var k: nat :| k == |h| - f;
        assert !SeenIn(g, k, f);
      }
    }
    if Unbroken(h, i, |h|, f) && (misses + 1 <= f || |h| < i + f) {
      forall k: nat | i <= k && k + f < |g| ensures SeenIn(g, k, f) {
        if k + f == |h| {
          assert g[|h| - misses - 1];
        } else {
          assert SeenIn(h, k, f);
          var m: nat :| k <= m <= k + f && h[m];
          assert g[m];
        }
      }
    }
  }

  lemma {:induction false} NothingInAbsence(h: seq<bool>, misses: nat, i: nat, j: nat)
    requires Trailing(h, misses) && |h| - misses <= i <= j <= |h|
    ensures Count(h, i, j) == 0
    decreases j
  {
    if i < j {
      NothingInAbsence(h, misses, i, j - 1);
    }
  }

  /** The streak is the most attendances of any unbroken stretch that reaches the present. */
  lemma {:induction false} StreakIs(h: seq<bool>, threshold: nat, f: nat)
    ensures Tracks(h, After(h, threshold, f).streak, f) && Trailing(h, After(h, threshold, f).misses)
  {
    if h == [] {
      assert Unbroken(h, 0, 0, f) && Count(h, 0, 0) == 0;
    } else {
      var front, last := h[..|h| - 1], h[|h| - 1];
      assert h == front + [last];
      StreakIs(front, threshold, f);
      var t := After(front, threshold, f);
      if last {
        Attending(front, t, threshold, f);
      } else {
        Missing(front, t, threshold, f);
      }
    }
  }

  lemma Attending(front: seq<bool>, t: Track, threshold: nat, f: nat)
    requires Tracks(front, t.streak, f)
    ensures Tracks(front + [true], t.Step(true, threshold, f).streak, f)
  {
    var g := front + [true];
    var i: nat :| i <= |front| && Unbroken(front, i, |front|, f) && Count(front, i, |front|) == t.streak;
    PresentExtends(front, i, f);
    forall i: nat | i <= |g| && Unbroken(g, i, |g|, f) ensures Count(g, i, |g|) <= t.streak + 1 {
      if i <= |front| {
        PresentExtends(front, i, f);
      }
    }
  }

  lemma Missing(front: seq<bool>, t: Track, threshold: nat, f: nat)
    requires Tracks(front, t.streak, f) && Trailing(front, t.misses)
    ensures Tracks(front + [false], t.Step(false, threshold, f).streak, f)
  {
    var g, s := front + [false], t.Step(false, threshold, f).streak;
    assert Trailing(g, t.misses + 1);
    if t.misses + 1 > f {
      assert Unbroken(g, |g|, |g|, f) && Count(g, |g|, |g|) == 0;
    } else {
      var i: nat :| i <= |front| && Unbroken(front, i, |front|, f) && Count(front, i, |front|) == t.streak;
      AbsentExtends(front, t.misses, i, f);
    }
    forall i: nat | i <= |g| && Unbroken(g, i, |g|, f) ensures Count(g, i, |g|) <= s {
      if i <= |front| {
        AbsentExtends(front, t.misses, i, f);
        if t.misses + 1 > f {
          NothingInAbsence(front, t.misses, i, |front|);
        }
      }
    }
  }

  /** A newcomer is an attester exactly when some stretch of its history, with no absence longer than is forgiven, holds
      the threshold of attendances: nothing shorter opens the gate, and nothing later closes it. */
  lemma {:induction false} GateIff(h: seq<bool>, threshold: nat, f: nat)
    requires threshold > 0
    ensures After(h, threshold, f).standing != Suspended
    ensures After(h, threshold, f).standing == Attester <==> exists i: nat, j: nat :: Earns(h, i, j, threshold, f)
  {
    var t := After(h, threshold, f);
    StreakIs(h, threshold, f);
    if h == [] {
      assert forall i: nat, j: nat :: i <= j <= 0 ==> Count(h, i, j) == 0;
    } else {
      var front, last := h[..|h| - 1], h[|h| - 1];
      assert h == front + [last];
      GateIff(front, threshold, f);
      if exists i: nat, j: nat :: Earns(front, i, j, threshold, f) {
        var i: nat, j: nat :| Earns(front, i, j, threshold, f);
        UnbrokenPrefix(front, [last], i, j, f);
        CountOfPrefix(front, [last], i, j);
        assert Earns(h, i, j, threshold, f);
      }
      if t.streak >= threshold {
        var i: nat :| i <= |h| && Unbroken(h, i, |h|, f) && Count(h, i, |h|) == t.streak;
        assert Earns(h, i, |h|, threshold, f);
      }
      forall i: nat, j: nat | Earns(h, i, j, threshold, f)
        ensures t.streak >= threshold || Earns(front, i, j, threshold, f) {
        if j <= |front| {
          UnbrokenPrefix(front, [last], i, j, f);
          CountOfPrefix(front, [last], i, j);
        }
      }
      StreakNeedsPromotion(front, threshold, f);
    }
  }

  /** A streak at the threshold is already an attester's. */
  lemma {:induction false} StreakNeedsPromotion(h: seq<bool>, threshold: nat, f: nat)
    requires threshold > 0
    ensures After(h, threshold, f).standing == Suspended || After(h, threshold, f).standing == Attester
            || After(h, threshold, f).streak < threshold
  {
    if h != [] {
      StreakNeedsPromotion(h[..|h| - 1], threshold, f);
    }
  }

  // ---- in the register ----

  function TrackOf(e: Entry): Track {
    Track(e.record.standing, e.record.streak, e.Missed())
  }

  ghost predicate IsRun(registers: seq<Register>, rolls: seq<Roll>, faults: seq<set<NodeId>>) {
    && |registers| == |rolls| + 1 && |faults| == |rolls|
    && forall i | 0 <= i < |rolls| :: registers[i].Advanced(registers[i + 1], rolls[i], faults[i])
  }

  /** Seated every time and never faulted. */
  ghost predicate Serves(n: NodeId, rolls: seq<Roll>, faults: seq<set<NodeId>>) {
    |faults| == |rolls| && forall i | 0 <= i < |rolls| :: n in rolls[i].seated && n !in faults[i]
  }

  function Attendance(n: NodeId, rolls: seq<Roll>): (h: seq<bool>)
    ensures |h| == |rolls| && forall i | 0 <= i < |h| :: h[i] == (n in rolls[i].attended)
  {
    seq(|rolls|, i requires 0 <= i < |rolls| => n in rolls[i].attended)
  }

  lemma TrackStanding(r: Register, n: NodeId)
    requires n in r.members
    ensures TrackOf(r.At(n)).standing == r.members[n].standing
  {
  }

  /** One ceremony, for a member it seats and does not fault. */
  lemma StepOfMember(was: Register, now: Register, roll: Roll, faulted: set<NodeId>, n: NodeId)
    requires was.Advanced(now, roll, faulted) && n in was.members && n in roll.seated && n !in faulted
    requires was.members[n].standing != Suspended
    ensures n in now.members && now.threshold == was.threshold && now.forgiveness == was.forgiveness
    ensures TrackOf(now.At(n)) == TrackOf(was.At(n)).Step(n in roll.attended, was.threshold, was.forgiveness)
  {
    assert now.At(n) == was.EntryAfter(n, roll, faulted);
  }

  lemma {:induction false} RegisterTracks(registers: seq<Register>, rolls: seq<Roll>, faults: seq<set<NodeId>>,
                                          n: NodeId, k: nat)
    requires IsRun(registers, rolls, faults) && Serves(n, rolls, faults) && k <= |rolls|
    requires registers[0].threshold > 0 && n in registers[0].members
             && TrackOf(registers[0].At(n)) == Track(Apprentice, 0, 0)
    ensures n in registers[k].members && registers[k].threshold == registers[0].threshold
            && registers[k].forgiveness == registers[0].forgiveness
    ensures TrackOf(registers[k].At(n)) == After(Attendance(n, rolls)[..k], registers[0].threshold,
                                                 registers[0].forgiveness)
  {
    hide Register.Advanced, Register.At, TrackOf, Earns;
    var h := Attendance(n, rolls);
    if k == 0 {
      assert h[..0] == [];
    } else {
      RegisterTracks(registers, rolls, faults, n, k - 1);
      assert h[..k][..k - 1] == h[..k - 1];
      var was, now := registers[k - 1], registers[k];
      GateIff(h[..k - 1], was.threshold, was.forgiveness);
      TrackStanding(was, n);
      StepOfMember(was, now, rolls[k - 1], faults[k - 1], n);
    }
  }

  /** The gate, in the register: over any run of rolls that seat a newcomer without faulting it. */
  lemma GateOfMember(registers: seq<Register>, rolls: seq<Roll>, faults: seq<set<NodeId>>, n: NodeId)
    requires IsRun(registers, rolls, faults) && Serves(n, rolls, faults)
    requires registers[0].threshold > 0 && n in registers[0].members
             && TrackOf(registers[0].At(n)) == Track(Apprentice, 0, 0)
    ensures n in registers[|rolls|].members
    ensures registers[|rolls|].members[n].standing == Attester
            <==> exists i: nat, j: nat :: Earns(Attendance(n, rolls), i, j, registers[0].threshold,
                                                registers[0].forgiveness)
  {
    RegisterTracks(registers, rolls, faults, n, |rolls|);
    assert Attendance(n, rolls)[..|rolls|] == Attendance(n, rolls);
    GateIff(Attendance(n, rolls), registers[0].threshold, registers[0].forgiveness);
  }
}
