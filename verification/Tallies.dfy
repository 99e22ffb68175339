/**
 What a register's counters and its root say (chain/register.py): every counter is a tally of the rolls, and the root
 pins the members' lines but not their misses, which the next roll may turn on.
 */
module Tallies {
  import opened Basics
  import opened Locality
  import opened Register
  import opened GridWorkload
  import A = Apprenticeship

  // ---- the counters, over any run of rolls ----

  /** Ceremony i counts as attended: seated and there, neither faulted in it nor suspended before it. */
  predicate WasThere(registers: seq<Register>, rolls: seq<Roll>, faults: seq<set<NodeId>>, n: NodeId, i: nat)
    requires i < |rolls| && |registers| == |rolls| + 1 && |faults| == |rolls| && n in registers[i].members
  {
    n in rolls[i].seated && n in rolls[i].attended && n !in faults[i] && registers[i].members[n].standing != Suspended
  }

  /** A member's record after the first k ceremonies, told ceremony by ceremony. */
  datatype Tally = Tally(attended: nat, led: nat, lastSeen: int, faults: seq<int>)

  function TallyOf(r: Record): Tally {
    Tally(r.attended, r.led, r.lastSeen, r.faults)
  }

  /** One longer when there, cut by a fault or by one absence too many, else as it was. */
  ghost function StreakFrom(registers: seq<Register>, rolls: seq<Roll>, faults: seq<set<NodeId>>, n: NodeId,
                            i: nat): nat
    requires i < |rolls| && |registers| == |rolls| + 1 && |faults| == |rolls| && n in registers[i].members
  {
    if n in faults[i] || Resets(registers[i], rolls[i], faults[i], n) then 0
    else registers[i].members[n].streak + if WasThere(registers, rolls, faults, n, i) then 1 else 0
  }

  ghost predicate TalliesFrom(registers: seq<Register>, rolls: seq<Roll>, faults: seq<set<NodeId>>, n: NodeId, i: nat)
    requires i < |rolls| && |registers| == |rolls| + 1 && |faults| == |rolls|
    requires n in registers[i].members && n in registers[i + 1].members
  {
    var was, now := registers[i].members[n], registers[i + 1].members[n];
    && now.attended == was.attended + (if WasThere(registers, rolls, faults, n, i) then 1 else 0)
    && now.lastSeen == (if WasThere(registers, rolls, faults, n, i) then rolls[i].epoch else was.lastSeen)
    && now.led == was.led + (if rolls[i].leader == Some(n) && n !in faults[i] then 1 else 0)
    && now.faults == was.faults + (if n in faults[i] then [rolls[i].epoch] else [])
    && now.streak == StreakFrom(registers, rolls, faults, n, i)
    && now.joined == was.joined && now.foundedFrom == was.foundedFrom && now.higherSeated == was.higherSeated
    && now.higherAttended == was.higherAttended && now.higherLed == was.higherLed
  }

  /** Each ceremony moves each counter of a member by what the roll says of it, and nothing else. */
  lemma OneCeremony(registers: seq<Register>, rolls: seq<Roll>, faults: seq<set<NodeId>>, n: NodeId, i: nat)
    requires A.IsRun(registers, rolls, faults) && i < |rolls| && n in registers[i].members
    ensures n in registers[i + 1].members && TalliesFrom(registers, rolls, faults, n, i)
  {
    var was, now := registers[i], registers[i + 1];
    assert was.Advanced(now, rolls[i], faults[i]);
    assert now.At(n) == was.EntryAfter(n, rolls[i], faults[i]);
  }

  /** How many of the first k ceremonies a member was there for, led, and was faulted in. */
  function Times(there: seq<bool>): nat {
    if there == [] then 0 else Times(there[..|there| - 1]) + if there[|there| - 1] then 1 else 0
  }

  ghost function Led(rolls: seq<Roll>, faults: seq<set<NodeId>>, n: NodeId, k: nat): seq<bool>
    requires k <= |rolls| == |faults|
  {
    seq(k, i requires 0 <= i < k => rolls[i].leader == Some(n) && n !in faults[i])
  }

  ghost function There(registers: seq<Register>, rolls: seq<Roll>, faults: seq<set<NodeId>>, n: NodeId,
                       k: nat): seq<bool>
    requires k <= |rolls| == |faults| && |registers| == |rolls| + 1
             && forall i | 0 <= i < k :: n in registers[i].members
  {
    seq(k, i requires 0 <= i < k => WasThere(registers, rolls, faults, n, i))
  }

  function FaultEpochs(rolls: seq<Roll>, faults: seq<set<NodeId>>, n: NodeId, k: nat): seq<int>
    requires k <= |rolls| == |faults|
  {
    if k == 0 then []
    else FaultEpochs(rolls, faults, n, k - 1) + if n in faults[k - 1] then [rolls[k - 1].epoch] else []
  }

  lemma {:induction false} StaysMember(registers: seq<Register>, rolls: seq<Roll>, faults: seq<set<NodeId>>, n: NodeId,
                                       k: nat)
    requires A.IsRun(registers, rolls, faults) && k <= |rolls| && n in registers[0].members
    ensures forall i | 0 <= i <= k :: n in registers[i].members
  {
    if k > 0 {
      StaysMember(registers, rolls, faults, n, k - 1);
      OneCeremony(registers, rolls, faults, n, k - 1);
    }
  }

  /** Over any run of rolls and faults a member's attendances, ceremonies led and fault epochs are those of the run, on
      top of what it came with. */
  lemma {:induction false} CountersTally(registers: seq<Register>, rolls: seq<Roll>, faults: seq<set<NodeId>>,
                                         n: NodeId, k: nat)
    requires A.IsRun(registers, rolls, faults) && k <= |rolls| && n in registers[0].members
    requires forall i | 0 <= i <= k :: n in registers[i].members
    ensures var was, now := registers[0].members[n], registers[k].members[n];
            && now.attended == was.attended + Times(There(registers, rolls, faults, n, k))
            && now.led == was.led + Times(Led(rolls, faults, n, k))
            && now.faults == was.faults + FaultEpochs(rolls, faults, n, k)
  {
    hide WasThere;
    if k > 0 {
      CountersTally(registers, rolls, faults, n, k - 1);
      OneCeremony(registers, rolls, faults, n, k - 1);
      assert There(registers, rolls, faults, n, k)[..k - 1] == There(registers, rolls, faults, n, k - 1);
      assert Led(rolls, faults, n, k)[..k - 1] == Led(rolls, faults, n, k - 1);
      assert There(registers, rolls, faults, n, k)[k - 1] == WasThere(registers, rolls, faults, n, k - 1);
    }
  }

  /** And it was last seen at the last ceremony it was there for. */
  lemma {:induction false} LastSeenIsLast(registers: seq<Register>, rolls: seq<Roll>, faults: seq<set<NodeId>>,
                                          n: NodeId, k: nat, i: nat)
    requires A.IsRun(registers, rolls, faults) && i < k <= |rolls| && n in registers[0].members
    requires forall j | 0 <= j <= k :: n in registers[j].members
    requires WasThere(registers, rolls, faults, n, i)
             && forall j | i < j < k :: !WasThere(registers, rolls, faults, n, j)
    ensures registers[k].members[n].lastSeen == rolls[i].epoch
  {
    hide WasThere;
    OneCeremony(registers, rolls, faults, n, k - 1);
    if k - 1 > i {
      LastSeenIsLast(registers, rolls, faults, n, k - 1, i);
    }
  }

  // ---- what comes with a member that changes registers ----

  /** All of a record but where it came from. */
  predicate SameButOrigin(r: Record, s: Record) {
    r == s.(foundedFrom := r.foundedFrom)
  }

  /** After a merge a member of the grid that is gone has the record and the misses it had there, marked with that grid;
      the host's own are untouched. */
  lemma MergedMembers(host: Register, gone: Register, n: NodeId)
    requires host.members.Keys !! gone.members.Keys
    ensures n in host.Absorbed(gone).members <==> n in host.members || n in gone.members
    ensures n in gone.members ==> var now := host.Absorbed(gone).At(n);
              && SameButOrigin(now.record, gone.members[n]) && now.record.foundedFrom == Some(gone.gridId)
              && now.Missed() == gone.At(n).Missed()
    ensures n in host.members ==> host.Absorbed(gone).members[n] == host.members[n]
                                  && (host.Sound() && gone.Sound() ==> host.Absorbed(gone).At(n) == host.At(n))
  {
  }

  /** A founder starts in the child with the record it had, marked with the donor, and no misses; whoever stays keeps
      both. */
  lemma FoundedMembers(donor: Register, child: GridId, cohort: set<NodeId>, n: NodeId)
    requires cohort <= donor.members.Keys && n in donor.members
    ensures n in donor.Child(child, cohort).members <==> n in cohort
    ensures n in donor.Released(cohort).members <==> n !in cohort
    ensures n in cohort ==> var now := donor.Child(child, cohort).At(n);
              && SameButOrigin(now.record, donor.members[n]) && now.record.foundedFrom == Some(donor.gridId)
              && now.Missed() == 0 && n !in donor.Released(cohort).misses
    ensures n !in cohort ==> donor.Released(cohort).At(n) == donor.At(n)
  {
  }

  /** Service adds to the three upper-tier counters, each by its own share, whoever is named in how many blocks. */
  lemma ServiceAdds(r: Register, service: map<NodeId, Service>, n: NodeId)
    requires n in r.members
    ensures n in r.Credited(service).members
    ensures var was, now := r.members[n], r.Credited(service).members[n];
            && now.higherSeated == was.higherSeated + (if n in service then service[n].seated else 0)
            && now.higherAttended == was.higherAttended + (if n in service then service[n].attended else 0)
            && now.higherLed == was.higherLed + (if n in service then service[n].led else 0)
            && now.standing == was.standing && now.streak == was.streak && now.attended == was.attended
            && now.faults == was.faults && now.joined == was.joined && now.led == was.led
            && now.lastSeen == was.lastSeen
            && now.foundedFrom == was.foundedFrom
  {
  }

  /** Faulted are those a signed report accuses, and nobody else. */
  lemma {:induction false} AccusedIff(reports: seq<Report>, n: NodeId)
    ensures n in FaultedFrom(reports) <==> exists r <- reports :: r.signed && n in r.accused
  {
    if reports != [] {
      AccusedIff(reports[1..], n);
      assert forall r :: r in reports <==> r == reports[0] || r in reports[1..];
    }
  }

  // ---- the root ----

  /** Alike in everything the root commits: who is a member, and each one's record, the epochs of its faults aside. */
  ghost predicate Alike(a: Register, b: Register) {
    && a.gridId == b.gridId && a.epoch == b.epoch && a.members.Keys == b.members.Keys
    && forall n {:trigger a.members[n]} {:trigger b.members[n]} | n in a.members :: AlikeAt(a.members[n], b.members[n])
  }

  predicate AlikeAt(r: Record, s: Record) {
    && r.joined == s.joined && r.standing == s.standing && r.streak == s.streak && r.attended == s.attended
    && r.lastSeen == s.lastSeen && r.led == s.led && |r.faults| == |s.faults| && r.foundedFrom == s.foundedFrom
    && r.higherSeated == s.higherSeated && r.higherAttended == s.higherAttended && r.higherLed == s.higherLed
  }

  /** One root, one set of members' lines. */
  lemma RootPinsTheLines(a: Register, b: Register)
    ensures RootOf(a) == RootOf(b) <==> Alike(a, b)
  {
    if RootOf(a) == RootOf(b) {
      assert a.members.Keys == RootOf(a).lines.Keys == RootOf(b).lines.Keys == b.members.Keys;
      forall n | n in a.members ensures AlikeAt(a.members[n], b.members[n]) {
        assert RootOf(a).lines[n] == RootOf(b).lines[n];
      }
    }
    if Alike(a, b) {
      forall n | n in a.members ensures RootOf(a).lines[n] == RootOf(b).lines[n] {
        assert AlikeAt(a.members[n], b.members[n]);
      }
      assert RootOf(a).lines == RootOf(b).lines;
    }
  }

  /** The roll resets the member's streak, which is worth resetting. */
  predicate Resets(r: Register, roll: Roll, faulted: set<NodeId>, n: NodeId)
    requires n in r.members
  {
    && n in roll.seated && n !in faulted && n !in roll.attended && r.members[n].standing != Suspended
    && r.members[n].streak > 0 && r.At(n).Missed() + 1 > r.forgiveness
  }

  /** Two registers with one root have one root after the next roll exactly when the roll resets the same members'
      streaks: the misses that decide it are not in the root. */
  lemma NextRootIff(a: Register, b: Register, after: Register, other: Register, roll: Roll, faulted: set<NodeId>)
    requires a.Sound() && b.Sound() && a.threshold == b.threshold && a.forgiveness == b.forgiveness
    requires RootOf(a) == RootOf(b) && a.Advanced(after, roll, faulted) && b.Advanced(other, roll, faulted)
    ensures RootOf(after) == RootOf(other)
            <==> forall n <- a.members ::
              n in b.members
              && (Resets(a, roll, faulted, n) <==> Resets(b, roll, faulted, n))
  {
    hide RootOf;
    RootPinsTheLines(a, b);
    RootPinsTheLines(after, other);
    forall n | n in after.members
      ensures n in other.members
      ensures AlikeAt(after.members[n], other.members[n])
              <==> n !in a.members || (Resets(a, roll, faulted, n) <==> Resets(b, roll, faulted, n)) {
      NextLine(a, b, after, other, roll, faulted, n);
    }
  }

  lemma NextLine(a: Register, b: Register, after: Register, other: Register, roll: Roll, faulted: set<NodeId>,
                 n: NodeId)
    requires a.Sound() && b.Sound() && a.threshold == b.threshold && a.forgiveness == b.forgiveness && Alike(a, b)
    requires a.Advanced(after, roll, faulted) && b.Advanced(other, roll, faulted) && n in after.members
    ensures n in other.members
    ensures AlikeAt(after.members[n], other.members[n])
            <==> n !in a.members || (Resets(a, roll, faulted, n) <==> Resets(b, roll, faulted, n))
  {
    hide Register.EntryAfter, AlikeAt, Resets, Register.EntrySound;
    assert after.At(n) == a.EntryAfter(n, roll, faulted) && other.At(n) == b.EntryAfter(n, roll, faulted);
    if n in a.members {
      assert AlikeAt(a.members[n], b.members[n]);
      MemberLine(a, b, roll, faulted, n);
    } else {
      StrangerLine(a, b, roll, faulted, n);
    }
  }

  lemma MemberLine(a: Register, b: Register, roll: Roll, faulted: set<NodeId>, n: NodeId)
    requires a.threshold == b.threshold && a.forgiveness == b.forgiveness && n in a.members && n in b.members
    requires AlikeAt(a.members[n], b.members[n])
    ensures AlikeAt(a.EntryAfter(n, roll, faulted).record, b.EntryAfter(n, roll, faulted).record)
            <==> (Resets(a, roll, faulted, n) <==> Resets(b, roll, faulted, n))
  {
  }

  lemma StrangerLine(a: Register, b: Register, roll: Roll, faulted: set<NodeId>, n: NodeId)
    requires a.threshold == b.threshold && a.forgiveness == b.forgiveness && n !in a.members && n !in b.members
    requires n !in a.misses && n !in b.misses
    ensures AlikeAt(a.EntryAfter(n, roll, faulted).record, b.EntryAfter(n, roll, faulted).record)
  {
  }

  /** Where no absence is forgiven, as the parameters ship, the root decides every later root. */
  lemma UnforgivingRootsStay(a: Register, b: Register, after: Register, other: Register, roll: Roll,
                             faulted: set<NodeId>)
    requires a.Sound() && b.Sound() && a.threshold == b.threshold && a.forgiveness == b.forgiveness == 0
    requires RootOf(a) == RootOf(b) && a.Advanced(after, roll, faulted) && b.Advanced(other, roll, faulted)
    ensures RootOf(after) == RootOf(other)
  {
    hide RootOf;
    RootPinsTheLines(a, b);
    NextRootIff(a, b, after, other, roll, faulted);
    forall n <- a.members ensures Resets(a, roll, faulted, n) <==> Resets(b, roll, faulted, n) {
      assert AlikeAt(a.members[n], b.members[n]);
    }
  }

  /** One apprentice, once present, with so many misses to its name. */
  function Lone(forgiveness: nat, misses: nat): Register {
    Register(0, 1, 2, forgiveness, map[0 := Newcomer(0).(streak := 1, attended := 1)], map[0 := misses])
  }

  const Empty := Roll(0, 1, None, {0}, {})

  lemma LoneAfter(forgiveness: nat, misses: nat)
    ensures Lone(forgiveness, misses).Sound()
    ensures var after := Lone(forgiveness, misses).After(Empty, {});
            0 in after.members && after.members[0].streak == if misses + 1 > forgiveness then 0 else 1
  {
    var r := Lone(forgiveness, misses);
    assert r.EntrySound(0);
    assert r.EntryAfter(0, Empty, {}).record.streak == if misses + 1 > forgiveness then 0 else 1;
  }

  /** Where some are, two sound registers with one root and one next roll, and two roots after it. */
  lemma ForgivingRootsPart(forgiveness: nat)
    requires forgiveness > 0
    ensures var a, b := Lone(forgiveness, 0), Lone(forgiveness, forgiveness);
            && a.Sound() && b.Sound() && a.threshold == b.threshold && a.forgiveness == b.forgiveness
            && RootOf(a) == RootOf(b) && RootOf(a.After(Empty, {})) != RootOf(b.After(Empty, {}))
  {
    hide RootOf, Register.After, Register.Sound;
    var a, b := Lone(forgiveness, 0), Lone(forgiveness, forgiveness);
    RootPinsTheLines(a, b);
    RootPinsTheLines(a.After(Empty, {}), b.After(Empty, {}));
    LoneAfter(forgiveness, 0);
    LoneAfter(forgiveness, forgiveness);
    assert !AlikeAt(a.After(Empty, {}).members[0], b.After(Empty, {}).members[0]);
  }
}
