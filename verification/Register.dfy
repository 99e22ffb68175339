/**
 The grid register (chain/register.py): who showed up, updated once per ceremony.

 `Register` is the record as a value and says what each step does to it; `GridRegister` is the object that
 takes the steps.
 */
module Register {
  import opened Basics
  import opened Locality
  import S = Seats

  datatype Standing = Apprentice | Attester | Suspended

  datatype Record = Record(joined: int, standing: Standing, streak: nat, attended: nat, lastSeen: int, led: nat,
                           faults: seq<int>,
                           foundedFrom: Option<GridId>, higherSeated: nat, higherAttended: nat, higherLed: nat)

  datatype Roll = Roll(gridId: GridId, epoch: int, leader: Option<NodeId>, seated: set<NodeId>, attended: set<NodeId>)

  /** What one member did at the tiers above. */
  datatype Service = Service(seated: nat, attended: nat, led: nat)

  datatype RegisterError = AnotherGrid | AlreadyIn | NotIn | NotAnAttester | CarriesFault | InBoth | EpochsDiffer

  function Newcomer(epoch: int): Record {
    Record(epoch, Apprentice, 0, 0, -1, 0, [], None, 0, 0, 0)
  }

  function Founder(epoch: int, threshold: nat): Record {
    Record(epoch, Attester, threshold, threshold, -1, 0, [], None, 0, 0, 0)
  }

  /** Standing carried over, and marked as not earned here. */
  function Waived(records: map<NodeId, Record>, from: GridId): (r: map<NodeId, Record>)
    ensures r.Keys == records.Keys
    ensures forall n {:trigger r[n]} :: n in records ==> r[n] == records[n].(foundedFrom := Some(from))
  {
    map n | n in records :: records[n].(foundedFrom := Some(from))
  }

  function Credit(r: Record, s: Service): Record {
    r.(higherSeated := r.higherSeated + s.seated, higherAttended := r.higherAttended + s.attended,
       higherLed := r.higherLed + s.led)
  }

  /** One member's record and its count of misses. */
  datatype Entry = Entry(record: Record, misses: Option<nat>) {
    function Missed(): nat {
      if misses.Some? then misses.value else 0
    }

    function Faulted(epoch: int): Entry {
      Entry(record.(standing := Suspended, streak := 0, faults := record.faults + [epoch]), None)
    }

    function Present(epoch: int, threshold: nat): Entry {
      var standing := if record.standing == Apprentice
        && record.streak + 1 >= threshold then Attester else record.standing;
      Entry(record.(streak := record.streak + 1, attended := record.attended + 1, lastSeen := epoch,
                    standing := standing), Some(0))
    }

    function Absent(forgiveness: nat): Entry {
      Entry(if Missed() + 1 > forgiveness then record.(streak := 0) else record, Some(Missed() + 1))
    }

    /** What one ceremony does to a member the roll or a fault names. */
    function Marked(roll: Roll, faulted: set<NodeId>, n: NodeId, threshold: nat, forgiveness: nat): Entry {
      if n in faulted then Faulted(roll.epoch)
      else if record.standing == Suspended then this
      else if n in roll.attended then Present(roll.epoch, threshold)
      else Absent(forgiveness)
    }
  }

  datatype Register = Register(gridId: GridId, epoch: int, threshold: nat, forgiveness: nat,
                               members: map<NodeId, Record>, misses: map<NodeId, nat>) {
    function At(n: NodeId): Entry
      requires n in members
    {
      Entry(members[n], if n in misses then Some(misses[n]) else None)
    }

    /** The entry a roll meets: the member's own, or a newcomer's when the roll names a stranger. */
    function Meets(n: NodeId, epoch: int): Entry {
      Entry(if n in members then members[n] else Newcomer(epoch), if n in misses then Some(misses[n]) else None)
    }

    function Named(roll: Roll, faulted: set<NodeId>): set<NodeId> {
      roll.seated + faulted
    }

    /** One member after one ceremony, whatever the order in which the members were taken. */
    function EntryAfter(n: NodeId, roll: Roll, faulted: set<NodeId>): Entry {
      var e := if n in Named(roll, faulted) then Meets(n, roll.epoch).Marked(roll, faulted, n, threshold, forgiveness)
        else Meets(n, roll.epoch);
      if roll.leader == Some(n) && n !in faulted then e.(record := e.record.(led := e.record.led + 1)) else e
    }

    /** `apply`: advance by one ceremony. */
    ghost predicate Advanced(after: Register, roll: Roll, faulted: set<NodeId>) {
      && after.gridId == gridId && after.threshold == threshold && after.forgiveness == forgiveness
      && after.epoch == roll.epoch + 1
      && after.members.Keys == members.Keys + Named(roll, faulted)
      && (forall n {:trigger EntryAfter(n, roll, faulted)} {:trigger after.At(n)} :: n in after.members ==>
          after.At(n) == EntryAfter(n, roll, faulted))
      && after.misses.Keys <= after.members.Keys
    }

    /** The register after one ceremony, as a function. */
    function After(roll: Roll, faulted: set<NodeId>): Register {
      var all := members.Keys + Named(roll, faulted);
      Register(gridId, roll.epoch + 1, threshold, forgiveness, map n | n in all :: EntryAfter(n, roll, faulted).record,
               map n | n in all && EntryAfter(n, roll, faulted).misses.Some? ::
                 EntryAfter(n, roll, faulted).misses.value)
    }

    ghost predicate MayFound(n: NodeId) {
      n in members && members[n].standing == Attester && members[n].faults == []
    }

    /** `release`, once nobody is refused. */
    function Released(ids: set<NodeId>): Register {
      this.(members := members - ids, misses := misses - ids)
    }

    function Picked(ids: set<NodeId>): map<NodeId, Record> {
      map n | n in ids && n in members :: members[n]
    }

    /** The records another grid takes over. */
    function Carried(ids: set<NodeId>): map<NodeId, Record> {
      Waived(Picked(ids), gridId)
    }

    /** `found`: a new register from records carried over. */
    function Child(id: GridId, ids: set<NodeId>): Register {
      Register(id, epoch, threshold, forgiveness, Carried(ids), map[])
    }

    function CarriedMisses(): map<NodeId, nat> {
      map n | n in members :: if n in misses then misses[n] else 0
    }

    /** `absorb`, once it is not refused. */
    function Absorbed(other: Register): Register {
      this.(members := members + other.Carried(other.members.Keys), misses := misses + other.CarriedMisses())
    }

    /** `credit_service`: only the service counters of members move. */
    function Credited(service: map<NodeId, Service>): Register {
      this.(members := map n | n in members :: if n in service then Credit(members[n], service[n]) else members[n])
    }

    function Attesters(): set<NodeId> {
      set n | n in members && members[n].standing == Attester
    }

    function Apprentices(): set<NodeId> {
      set n | n in members && members[n].standing == Apprentice
    }

    function SeatedMembers(): set<NodeId> {
      set n | n in members && members[n].standing != Suspended
    }

    /** `has_room`: apprenticeships are capped at a fraction of the attesters, and at one below that. */
    predicate HasRoom(num: nat, den: nat)
      requires den > 0
    {
      var share := |Attesters()| * num / den;
      |Apprentices()| < if share > 1 then share else 1
    }

    ghost predicate EntrySound(n: NodeId)
      requires n in members
    {
      var r := members[n];
      && r.streak <= r.attended
      && (r.standing == Apprentice ==> r.streak < threshold && r.faults == [])
      && (r.standing == Attester ==> r.attended >= threshold && r.faults == [])
      && (r.standing == Suspended ==> r.faults != [])
    }

    /** Standing is earned: an attester has attended the threshold and carries no fault, and only a fault suspends. */
    ghost predicate Sound() {
      && threshold > 0 && misses.Keys <= members.Keys
      && forall n {:trigger EntrySound(n)} :: n in members ==> EntrySound(n)
    }
  }

  // ---- what a step keeps ----

  lemma AdvancedSound(r: Register, after: Register, roll: Roll, faulted: set<NodeId>)
    requires r.Sound() && r.Advanced(after, roll, faulted)
    ensures after.Sound()
  {
    forall n <- after.members ensures after.EntrySound(n) {
      assert after.At(n) == r.EntryAfter(n, roll, faulted);
      assert n in r.members ==> r.EntrySound(n);
    }
  }

  lemma AdvancedIs(r: Register, after: Register, roll: Roll, faulted: set<NodeId>)
    requires r.Advanced(after, roll, faulted)
    ensures after == r.After(roll, faulted)
  {
    var f := r.After(roll, faulted);
    forall n | n in after.members ensures after.At(n) == f.At(n) {
      assert after.At(n) == r.EntryAfter(n, roll, faulted);
    }
    assert after.members == f.members by {
      forall n | n in after.members ensures after.members[n] == f.members[n] {
        assert after.At(n) == f.At(n);
      }
    }
    assert after.misses == f.misses by {
      forall n ensures n in after.misses <==> n in f.misses {
        assert n in after.members ==> after.At(n) == f.At(n);
      }
      forall n | n in after.misses ensures after.misses[n] == f.misses[n] {
        assert after.At(n) == f.At(n);
      }
    }
  }

  /** The register's membership stands still exactly when the roll and the faults name members only. */
  lemma AdvancedMembersIff(r: Register, after: Register, roll: Roll, faulted: set<NodeId>)
    requires r.Advanced(after, roll, faulted)
    ensures after.members.Keys == r.members.Keys <==> roll.seated <= r.members.Keys && faulted <= r.members.Keys
  {
  }

  /** An attester that is not faulted stays one, and an apprentice becomes one exactly when this attendance completes
      its gate. */
  lemma StandingAfter(r: Register, after: Register, roll: Roll, faulted: set<NodeId>, n: NodeId)
    requires r.Sound() && r.Advanced(after, roll, faulted) && n in r.members
    ensures after.members[n].standing == Suspended <==> n in faulted || r.members[n].standing == Suspended
    ensures n !in faulted && r.members[n].standing == Attester ==> after.members[n].standing == Attester
    ensures r.members[n].standing == Apprentice ==>
              (after.members[n].standing == Attester
               <==> n !in faulted && n in roll.seated && n in roll.attended && r.members[n].streak + 1 >= r.threshold)
  {
    assert after.At(n) == r.EntryAfter(n, roll, faulted);
  }

  lemma ReleasedSound(r: Register, ids: set<NodeId>)
    requires r.Sound()
    ensures r.Released(ids).Sound() && r.Child(r.gridId, ids).Sound()
  {
    var out, child := r.Released(ids), r.Child(r.gridId, ids);
    forall n <- out.members ensures out.EntrySound(n) {
      assert r.EntrySound(n);
    }
    forall n <- child.members ensures child.EntrySound(n) {
      assert r.EntrySound(n);
    }
  }

  lemma AbsorbedSound(r: Register, other: Register)
    requires r.Sound() && other.Sound() && r.threshold == other.threshold
    ensures r.Absorbed(other).Sound()
  {
    var all := r.Absorbed(other);
    forall n <- all.members ensures all.EntrySound(n) {
      assert n in r.members ==> r.EntrySound(n);
      assert n in other.members ==> other.EntrySound(n);
    }
  }

  lemma CreditedSound(r: Register, service: map<NodeId, Service>)
    requires r.Sound()
    ensures r.Credited(service).Sound()
  {
    var c := r.Credited(service);
    forall n <- c.members ensures c.EntrySound(n) {
      assert r.EntrySound(n);
    }
  }

  /** An attester never carries a fault, so the second refusal of a founding, and the fault test of a leader, never
      fire. */
  lemma AttestersAreClean(r: Register, n: NodeId)
    requires r.Sound() && n in r.members
    ensures r.members[n].standing == Attester ==> r.MayFound(n)
    ensures r.members[n].faults != [] <==> r.members[n].standing == Suspended
  {
    assert r.EntrySound(n);
  }

  class GridRegister {
    const gridId: GridId
    const threshold: nat
    const forgiveness: nat
    var epoch: int
    var members: map<NodeId, Record>
    var misses: map<NodeId, nat>

    function View(): Register
      reads this
    {
      Register(gridId, epoch, threshold, forgiveness, members, misses)
    }

    ghost predicate Valid()
      reads this
    {
      View().Sound()
    }

    /** The founding cohort of a genesis grid starts as attesters. */
    constructor Genesis(gridId: GridId, founders: set<NodeId>, threshold: nat, forgiveness: nat, epoch: int)
      requires threshold > 0
      ensures Valid() && members.Keys == founders == View().Attesters()
      ensures this.gridId == gridId && this.epoch == epoch && this.threshold == threshold
              && this.forgiveness == forgiveness
    {
      this.gridId, this.epoch, this.threshold, this.forgiveness := gridId, epoch, threshold, forgiveness;
      members := map n | n in founders :: Founder(epoch, threshold);
      misses := map[];
    }

    /** A grid founded by a cohort that keeps what it earned. */
    constructor Found(gridId: GridId, records: map<NodeId, Record>, donor: GridId, epoch: int, threshold: nat,
                      forgiveness: nat)
      ensures View() == Register(gridId, epoch, threshold, forgiveness, Waived(records, donor), map[])
    {
      this.gridId, this.epoch, this.threshold, this.forgiveness := gridId, epoch, threshold, forgiveness;
      members := Waived(records, donor);
      misses := map[];
    }

    /** A new member joins at zero. */
    method Admit(n: NodeId, joined: int) returns (r: Result<Record, RegisterError>)
      requires Valid()
      modifies this`members
      ensures Valid()
      ensures r.Ok? <==> n !in old(members)
      ensures members == if r.Ok? then old(members)[n := Newcomer(joined)] else old(members)
    {
      if n in members {
        return Err(AlreadyIn);
      }
      forall m <- members ensures View().EntrySound(m) {
      }
      members := members[n := Newcomer(joined)];
      forall m <- members ensures View().EntrySound(m) {
        assert m == n || old(View()).EntrySound(m);
      }
      return Ok(members[n]);
    }

    /** Advance by one ceremony. */
    method Apply(roll: Roll, faulted: set<NodeId>) returns (ok: bool)
      requires Valid()
      modifies this
      ensures Valid()
      ensures ok <==> roll.gridId == gridId
      ensures if ok then old(View()).Advanced(View(), roll, faulted) else View() == old(View())
    {
      if roll.gridId != gridId {
        return false;
      }
      hide Register.Sound, Register.EntrySound, HalfWay, Register.Advanced;
      ghost var was := View();
      MarkAll(roll, faulted);
      ghost var marked := View();
      if roll.leader.Some? && roll.leader.value in members && roll.leader.value !in faulted {
        var leader := roll.leader.value;
        members := members[leader := members[leader].(led := members[leader].led + 1)];
      }
      epoch := roll.epoch + 1;
      LedIsAdvanced(was, marked, View(), roll, faulted);
      AdvancedSound(was, View(), roll, faulted);
      return true;
    }

    /** The loop over everyone the ceremony names. */
    method MarkAll(roll: Roll, faulted: set<NodeId>)
      requires Valid()
      modifies this`members, this`misses
      ensures HalfWay(old(View()), View(), old(View()).Named(roll, faulted), roll, faulted)
    {
      hide HalfWay, S.SetOf, S.StrictlySorted, S.Distinct;
      ghost var was := View();
      var order := S.Sorted(roll.seated + faulted);
      ghost var done: set<NodeId> := {};
      NothingYet(order);
      NobodyMarked(was, roll, faulted);
      for i := 0 to |order|
        invariant done == S.SetOf(order[..i]) && HalfWay(was, View(), done, roll, faulted)
      {
        NextInOrder(order, i);
        Mark(order[i], roll, faulted, was, done);
        done := done + {order[i]};
      }
      assert order[..|order|] == order;
    }

    /** The body of the loop for one member. */
    method Mark(n: NodeId, roll: Roll, faulted: set<NodeId>, ghost was: Register, ghost done: set<NodeId>)
      requires HalfWay(was, View(), done, roll, faulted) && n !in done
      modifies this`members, this`misses
      ensures HalfWay(was, View(), done + {n}, roll, faulted)
    {
      hide HalfWay, Newcomer;
      var rec := if n in members then members[n] else Newcomer(roll.epoch);
      ghost var before := View();
      BeforeMark(was, before, done, n, roll, faulted);
      if n in faulted {
        members := members[n := rec.(standing := Suspended, streak := 0, faults := rec.faults + [roll.epoch])];
        misses := misses - {n};
      } else if rec.standing == Suspended {
        members := members[n := rec];
      } else if n in roll.attended {
        var standing := if rec.standing == Apprentice && rec.streak + 1 >= threshold then Attester else rec.standing;
        members := members[n := rec.(streak := rec.streak + 1, attended := rec.attended + 1, lastSeen := roll.epoch,
                                     standing := standing)];
        misses := misses[n := 0];
      } else {
        var missed := (if n in misses then misses[n] else 0) + 1;
        misses := misses[n := missed];
        members := members[n := if missed > forgiveness then rec.(streak := 0) else rec];
      }
      assert View().At(n) == was.Meets(n, roll.epoch).Marked(roll, faulted, n, was.threshold, was.forgiveness);
      assert forall m {:trigger View().At(m)} :: m in members && m != n ==> View().At(m) == before.At(m);
      OneMoreMarked(was, before, View(), done, n, roll, faulted);
    }

    /** Take a cohort out, records and all. Refuses anything but unfaulted attesters, changing nothing. */
    method Release(ids: set<NodeId>) returns (r: Result<map<NodeId, Record>, RegisterError>)
      requires Valid()
      modifies this`members, this`misses
      ensures Valid()
      ensures r.Ok? <==> forall n <- ids :: old(View()).MayFound(n)
      ensures View() == if r.Ok? then old(View()).Released(ids) else old(View())
      ensures r.Ok? ==> r.value == old(View()).Picked(ids)
    {
      var order := S.Sorted(ids);
      assert forall n :: n in order <==> n in S.SetOf(order);
      for i := 0 to |order|
        invariant forall j | 0 <= j < i :: View().MayFound(order[j])
      {
        var n := order[i];
        assert n in ids;
        if n !in members {
          return Err(NotIn);
        }
        if members[n].standing != Attester {
          return Err(NotAnAttester);
        }
        if members[n].faults != [] {
          return Err(CarriesFault);
        }
      }
      ReleasedSound(View(), ids);
      var moving := View().Picked(ids);
      members, misses := members - ids, misses - ids;
      return Ok(moving);
    }

    /** Take in every member of a grid that is ceasing to exist. */
    method Absorb(other: GridRegister) returns (r: Result<map<NodeId, Record>, RegisterError>)
      requires Valid() && other.Valid() && other != this
      modifies this`members, this`misses, other`members, other`misses
      ensures r.Err? || other.threshold == threshold ==> Valid()
      ensures r.Ok? <==> old(other.members.Keys) !! old(members.Keys) && old(other.epoch) == old(epoch)
      ensures View() == if r.Ok? then old(View()).Absorbed(old(other.View())) else old(View())
      ensures if r.Ok? then other.members == map[] && other.misses == map[] else other.View() == old(other.View())
      ensures r.Ok? ==> r.value == old(other.View()).Carried(old(other.members.Keys))
    {
      if !(other.members.Keys !! members.Keys) {
        return Err(InBoth);
      }
      if other.epoch != epoch {
        return Err(EpochsDiffer);
      }
      if other.threshold == threshold {
        AbsorbedSound(View(), other.View());
      }
      var moved := other.View().Carried(other.members.Keys);
      members := members + moved;
      misses := misses + other.View().CarriedMisses();
      other.members, other.misses := map[], map[];
      return Ok(moved);
    }

    /** Record what this grid's members did at the tiers above it. */
    method CreditService(service: map<NodeId, Service>) returns (touched: nat)
      requires Valid()
      modifies this`members
      ensures Valid() && View() == old(View()).Credited(service)
      ensures touched == Met(old(members.Keys), service.Keys)
    {
      hide Register.Sound, Register.Credited, Register.EntrySound;
      ghost var was := View();
      touched := CreditAll(service);
      AllCredited(was, service);
      CreditedSound(was, service);
    }

    /** The loop over the nodes that served, in order. */
    method CreditAll(service: map<NodeId, Service>) returns (touched: nat)
      modifies this`members
      ensures members == CreditedTo(old(members), service, service.Keys)
              && touched == Met(old(members.Keys), service.Keys)
    {
      hide CreditedTo, Credit, Met, S.SetOf, S.StrictlySorted, S.Distinct;
      var order := S.Sorted(service.Keys);
      touched := 0;
      ghost var done: set<NodeId> := {};
      NobodyCredited(members, service);
      NothingYet(order);
      for i := 0 to |order|
        invariant done == S.SetOf(order[..i]) && touched == Met(old(members.Keys), done)
        invariant members == CreditedTo(old(members), service, done)
      {
        var n := order[i];
        NextInOrder(order, i);
        OneMoreCredited(old(members), service, done, n);
        OneMoreMet(old(members.Keys), done, n);
        done := done + {n};
        if n in members {
          members := members[n := Credit(members[n], service[n])];
          touched := touched + 1;
        }
      }
      assert order[..|order|] == order;
    }
  }

  ghost function Met(members: set<NodeId>, done: set<NodeId>): nat {
    |members * done|
  }

  lemma OneMoreMet(members: set<NodeId>, done: set<NodeId>, n: NodeId)
    requires n !in done
    ensures Met(members, done + {n}) == Met(members, done) + if n in members then 1 else 0
  {
    assert members * (done + {n}) == members * done + if n in members then {n} else {};
  }

  ghost function CreditedTo(members: map<NodeId, Record>, service: map<NodeId, Service>,
                            done: set<NodeId>): (r: map<NodeId, Record>)
    ensures r.Keys == members.Keys
    ensures forall n {:trigger r[n]} :: n in members ==>
            r[n] == if n in service && n in done then Credit(members[n], service[n]) else members[n]
  {
    map n | n in members :: if n in service && n in done then Credit(members[n], service[n]) else members[n]
  }

  lemma NobodyCredited(members: map<NodeId, Record>, service: map<NodeId, Service>)
    ensures CreditedTo(members, service, {}) == members && Met(members.Keys, {}) == 0
  {
  }

  lemma OneMoreCredited(members: map<NodeId, Record>, service: map<NodeId, Service>, done: set<NodeId>, n: NodeId)
    requires n in service && n !in done
    ensures CreditedTo(members, service, done + {n})
            == if n in members
              then CreditedTo(members, service, done)[n := Credit(CreditedTo(members, service, done)[n], service[n])]
               else CreditedTo(members, service, done)
  {
  }

  lemma AllCredited(r: Register, service: map<NodeId, Service>)
    ensures r.(members := CreditedTo(r.members, service, service.Keys)) == r.Credited(service)
  {
    assert CreditedTo(r.members, service, service.Keys) == r.Credited(service).members;
  }

  /** A member's entry once the members in `done` have been marked. */
  ghost function EntryDuring(was: Register, n: NodeId, done: set<NodeId>, roll: Roll, faulted: set<NodeId>): Entry {
    if n in done then was.Meets(n, roll.epoch).Marked(roll, faulted, n, was.threshold, was.forgiveness)
       else was.Meets(n, roll.epoch)
  }

  ghost predicate HalfWay(was: Register, now: Register, done: set<NodeId>, roll: Roll, faulted: set<NodeId>) {
    && now.threshold == was.threshold && now.forgiveness == was.forgiveness && now.gridId == was.gridId
    && was.misses.Keys <= was.members.Keys && now.members.Keys == was.members.Keys + done
    && now.misses.Keys <= now.members.Keys
    && (forall n {:trigger now.At(n)} :: n in now.members ==> now.At(n) == EntryDuring(was, n, done, roll, faulted))
  }

  lemma NobodyMarked(was: Register, roll: Roll, faulted: set<NodeId>)
    requires was.Sound()
    ensures HalfWay(was, was, {}, roll, faulted)
  {
  }

  lemma BeforeMark(was: Register, now: Register, done: set<NodeId>, n: NodeId, roll: Roll, faulted: set<NodeId>)
    requires HalfWay(was, now, done, roll, faulted) && n !in done
    ensures now.threshold == was.threshold && now.forgiveness == was.forgiveness && now.misses.Keys <= now.members.Keys
    ensures (n in now.members ==> now.At(n) == was.Meets(n, roll.epoch))
            && (n !in now.members ==> n !in was.members && n !in was.misses && n !in now.misses)
  {
    assert n in now.members ==> now.At(n) == EntryDuring(was, n, done, roll, faulted);
  }

  lemma OneMoreMarked(was: Register, before: Register, now: Register, done: set<NodeId>, n: NodeId, roll: Roll,
                      faulted: set<NodeId>)
    requires HalfWay(was, before, done, roll, faulted) && n !in done
    requires now.threshold == before.threshold && now.forgiveness == before.forgiveness && now.gridId == before.gridId
    requires now.members.Keys == before.members.Keys + {n} && now.misses.Keys <= now.members.Keys
    requires now.At(n) == was.Meets(n, roll.epoch).Marked(roll, faulted, n, was.threshold, was.forgiveness)
    requires forall m {:trigger now.At(m)} :: m in now.members && m != n ==> now.At(m) == before.At(m)
    ensures HalfWay(was, now, done + {n}, roll, faulted)
  {
    hide Register.At, Register.Meets, Entry.Marked;
    forall m | m in now.members ensures now.At(m) == EntryDuring(was, m, done + {n}, roll, faulted) {
      if m != n {
        assert before.At(m) == EntryDuring(was, m, done, roll, faulted);
      }
    }
  }

  /** Everyone marked, the leader's count raised and the epoch moved: one ceremony. */
  lemma LedIsAdvanced(was: Register, marked: Register, now: Register, roll: Roll, faulted: set<NodeId>)
    requires HalfWay(was, marked, was.Named(roll, faulted), roll, faulted)
    requires now == marked.(epoch := roll.epoch + 1, members :=
                              if roll.leader.Some? && roll.leader.value in marked.members
                                 && roll.leader.value !in faulted
                              then var led := marked.members[roll.leader.value].led;
                                   var leader := marked.members[roll.leader.value].(led := led + 1);
                                   marked.members[roll.leader.value := leader]
                              else marked.members)
    ensures was.Advanced(now, roll, faulted)
  {
    forall n | n in now.members ensures now.At(n) == was.EntryAfter(n, roll, faulted) {
      assert marked.At(n) == EntryDuring(was, n, was.Named(roll, faulted), roll, faulted);
    }
  }
}
