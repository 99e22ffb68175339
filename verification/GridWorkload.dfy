/**
 What a grid's leader builds and what every seat checks (chain/tiers.py, `GridWorkload`).

 A digest or a root stands for what it is a digest of. A block's hash is its header.
 */
module GridWorkload {
  import opened Basics
  import opened Locality
  import opened Register
  import opened GridWorld
  import opened Ledger
  import opened Merging
  import opened ChainState
  import S = Seats
  import T = Transactions

  /** A certificate, with the verdict of checking every attestation in it against the roster. */
  datatype Cert = Cert(chainId: string, height: int, epoch: int, signers: set<NodeId>, attended: set<NodeId>,
                       sound: bool)

  datatype Report = Report(signed: bool, substantiated: bool, accused: set<NodeId>)

  /** The committed state every node holds at an epoch, apart from its ledger. */
  datatype Desk = Desk(world: World, chainId: string, height: int, tip: Hash, certs: map<GridId, Cert>,
                       leaders: map<GridId, NodeId>,
                       service: map<NodeId, Service>, quorumNum: nat, quorumDen: nat) {
    ghost predicate Covers(g: GridId) {
      g in world.books && g in world.layout.grids && g in world.layout.members
        && world.layout.grids.Keys == world.books.Keys && quorumDen > 0
    }

    function PrevCert(g: GridId): Option<Cert> {
      if g in certs then Some(certs[g]) else None
    }

    function PrevLeader(g: GridId): Option<NodeId> {
      if g in leaders then Some(leaders[g]) else None
    }

    /** The seated members: those of the topology that the register has not suspended. */
    function GridMembers(g: GridId): set<NodeId>
      requires g in world.books && g in world.layout.members
    {
      S.SetOf(world.layout.members[g]) * world.books[g].SeatedMembers()
    }

    function QuorumFor(g: GridId): nat
      requires g in world.books && quorumDen > 0
    {
      var q := (|world.books[g].Attesters()| * quorumNum + quorumDen - 1) / quorumDen;
      if q > 1 then q else 1
    }

    /** The roll a certificate proves; without one, a roll that is never applied. */
    function RollFrom(g: GridId, cert: Option<Cert>, leader: Option<NodeId>): Roll
      requires g in world.books && g in world.layout.members
    {
      if cert.None? then Roll(g, -1, None, {}, {})
         else Roll(g, cert.value.epoch, leader, GridMembers(g), cert.value.attended)
    }

    /** The register after the roll, then the service. */
    function RegisterAfter(g: GridId, roll: Roll, faulted: set<NodeId>): Register
      requires g in world.books
    {
      (if roll.epoch >= 0 then world.books[g].After(roll, faulted) else world.books[g]).Credited(service)
    }
  }

  /** What a register's root commits to: each member's line, with its faults counted. */
  datatype RegisterRoot = RegisterRoot(gridId: GridId, epoch: int, lines: map<NodeId, (Record, nat)>)

  function RootOf(r: Register): RegisterRoot {
    RegisterRoot(r.gridId, r.epoch, map n | n in r.members :: (r.members[n].(faults := []), |r.members[n].faults|))
  }

  function FaultedFrom(reports: seq<Report>): set<NodeId> {
    if reports == [] then {} else (if reports[0].signed then reports[0].accused else {}) + FaultedFrom(reports[1..])
  }

  datatype GridHeader = GridHeader(
    gridId: GridId, partition: nat, parts: nat, epoch: int, chainId: string, prevHash: Hash, txs: seq<T.Transaction>,
      delta: Delta,
    roll: Roll, register: RegisterRoot, leader: NodeId, prevCert: Option<Cert>, reports: multiset<Report>, quorum: nat)

  datatype GridBlock = GridBlock(
    header: GridHeader, txs: seq<T.Transaction>, delta: Delta, roll: Option<Roll>, prevCert: Option<Cert>,
    reports: seq<Report>)

  /** Proof verification, and the number a nullifier's text spells. */
  datatype Rules = Rules(verify: T.Transaction -> bool, number: string -> nat)

  /** A certificate of this chain, for the height a block would follow, with valid attestations: not one of any
      particular grid. */
  predicate SoundAt(d: Desk, cert: Cert) {
    cert.chainId == d.chainId && cert.height == d.height && cert.signers != {} && cert.sound
  }

  /** `_check_prev_cert`. */
  predicate CertFollows(d: Desk, g: GridId, cert: Option<Cert>) {
    if d.height == 0 || g !in d.certs then cert.None?
    else cert.Some? && SoundAt(d, cert.value)
  }

  /** What `validate` accepts. */
  ghost predicate Accepts(d: Desk, s: Ledger, rules: Rules, g: GridId, epoch: int, b: GridBlock)
    requires d.Covers(g)
  {
    var h, part, parts := b.header, d.world.layout.grids[g].index, |d.world.layout.grids|;
    && parts > 0 && h.gridId == g && h.epoch == epoch && h.chainId == d.chainId && h.prevHash == d.tip
    && h.partition == part && h.parts == parts && h.txs == b.txs
    && CeremonySet(s, b.txs, rules.verify, rules.number, part, parts)
    && FromTxs(b.txs) == h.delta == b.delta
    && CertFollows(d, g, b.prevCert) && h.prevCert == b.prevCert && h.reports == multiset(b.reports)
    && (forall r <- b.reports :: r.signed && r.substantiated)
    && b.roll.Some? && b.roll.value == d.RollFrom(g, b.prevCert, b.roll.value.leader) && h.roll == b.roll.value
    && h.register == RootOf(d.RegisterAfter(g, b.roll.value, FaultedFrom(b.reports)))
    && h.quorum == d.QuorumFor(g)
  }

  method Validate(d: Desk, st: ChainState, rules: Rules, g: GridId, epoch: int, b: GridBlock) returns (ok: bool)
    requires d.Covers(g) && st.Valid()
    ensures ok <==> Accepts(d, st.State(), rules, g, epoch, b)
  {
    hide CeremonySet, FromTxs, RootOf, Desk.RegisterAfter;
    var h, part, parts := b.header, d.world.layout.grids[g].index, |d.world.layout.grids|;
    if !(h.gridId == g && h.epoch == epoch && h.chainId == d.chainId && h.prevHash == d.tip) {
      return false;
    }
    if !(h.partition == part && h.parts == parts && h.txs == b.txs) {
      return false;
    }
    var delta := st.CheckCeremonyTxs(b.txs, rules.verify, rules.number, part, parts);
    if delta.None? || delta.value != h.delta || b.delta != h.delta {
      return false;
    }
    if !CertFollows(d, g, b.prevCert) || h.prevCert != b.prevCert || h.reports != multiset(b.reports) {
      return false;
    }
    if exists r <- b.reports :: !(r.signed && r.substantiated) {
      return false;
    }
    if b.roll.None? {
      return false;
    }
    var roll := d.RollFrom(g, b.prevCert, b.roll.value.leader);
    return b.roll.value == roll && h.roll == roll
      && h.register == RootOf(d.RegisterAfter(g, roll, FaultedFrom(b.reports))) && h.quorum == d.QuorumFor(g);
  }

  // ---- building ----

  /** The certificate the world holds for the grid is one a block may follow. */
  predicate CertIsCurrent(d: Desk, g: GridId) {
    CertFollows(d, g, d.PrevCert(g))
  }

  function Substantiated(reports: seq<Report>): (r: seq<Report>)
    ensures forall x :: x in r <==> x in reports && x.signed && x.substantiated
  {
    if reports == [] then []
    else
      assert forall x :: x in reports <==> x == reports[0] || x in reports[1..];
      (if reports[0].signed && reports[0].substantiated then [reports[0]] else []) + Substantiated(reports[1..])
  }

  ghost predicate Seen(chosen: seq<T.Transaction>, seenNf: set<string>, seenCm: set<string>, seenOut: set<string>) {
    && (forall v {:trigger v in seenCm} :: v in seenCm <==> v in FromTxs(chosen).spent)
    && (forall v {:trigger v in seenNf} :: v in seenNf <==> v in FromTxs(chosen).nullifiers)
    && (forall v {:trigger v in seenOut} :: v in seenOut <==> v in FromTxs(chosen).created)
  }

  lemma NothingSeen()
    ensures Seen([], {}, {}, {})
  {
  }

  lemma SeenMore(chosen: seq<T.Transaction>, tx: T.Transaction, seenNf: set<string>, seenCm: set<string>,
                 seenOut: set<string>)
    requires Seen(chosen, seenNf, seenCm, seenOut)
    ensures Seen(chosen + [tx], seenNf + (set v | v in tx.Nullifiers()), seenCm + (set v | v in tx.InputCms()),
                 seenOut + set v | v in tx.outputs)
  {
    assert (chosen + [tx])[..|chosen|] == chosen;
  }

  /** One more verified transaction keeps a set a grid's set exactly when it is the grid's, fits the ledger and meets
      nothing seen. */
  lemma OneMore(s: Ledger, chosen: seq<T.Transaction>, tx: T.Transaction, rules: Rules, part: nat, parts: nat,
                seenNf: set<string>, seenCm: set<string>, seenOut: set<string>)
    requires parts > 0 && CeremonySet(s, chosen, rules.verify, rules.number, part, parts) && rules.verify(tx)
             && Seen(chosen, seenNf, seenCm, seenOut)
    ensures CeremonySet(s, chosen + [tx], rules.verify, rules.number, part, parts)
            <==> && Partition(rules.number, tx, parts) == Some(part) && FitsLedger(s, tx)
                 && (forall cm <- tx.InputCms() :: cm !in seenCm) && (forall nf <- tx.Nullifiers() :: nf !in seenNf)
                    && forall cm <- tx.outputs :: cm !in seenOut
  {
    hide FitsLedger, Partition, FromTxs, CeremonySet;
    var more := chosen + [tx];
    assert more[..|chosen|] == chosen && more[..|chosen| + 1] == more && more[|chosen|] == tx;
    NextInSet(s, more, rules.verify, rules.number, part, parts, |chosen|);
  }

  /** What fits behind a set fits behind a shorter one. */
  lemma StillFits(s: Ledger, chosen: seq<T.Transaction>, tx: T.Transaction, other: T.Transaction, rules: Rules,
                  part: nat, parts: nat)
    requires parts > 0
    ensures CeremonySet(s, chosen + [tx] + [other], rules.verify, rules.number, part, parts)
            ==> CeremonySet(s, chosen + [other], rules.verify, rules.number, part, parts)
  {
    hide FitsLedger, Partition, Apart;
    var short, long := chosen + [other], chosen + [tx] + [other];
    forall i | 0 <= i < |short| ensures short[i] == long[if i < |chosen| then i else |chosen| + 1] {
    }
  }

  /** Each in turn, while there is room, if the set so far stays one grid's set. */
  ghost function Fitting(s: Ledger, rules: Rules, part: nat, parts: nat, mempool: seq<T.Transaction>,
                         limit: Option<nat>)
    : seq<T.Transaction>
    requires parts > 0
  {
    if mempool == [] then []
    else
      var before := Fitting(s, rules, part, parts, mempool[..|mempool| - 1], limit);
      var more := before + [mempool[|mempool| - 1]];
      if (limit.Some? && |before| >= limit.value) || !CeremonySet(s, more, rules.verify, rules.number, part, parts)
        then before else more
  }

  /** First come, first served: what the first i yield is what all of them yield first, whatever came later. */
  lemma {:induction false} EarlierGoesFirst(s: Ledger, rules: Rules, part: nat, parts: nat,
                                            mempool: seq<T.Transaction>, limit: Option<nat>, i: nat)
    requires parts > 0 && i <= |mempool|
    ensures Fitting(s, rules, part, parts, mempool[..i], limit) <= Fitting(s, rules, part, parts, mempool, limit)
    ensures var before := Fitting(s, rules, part, parts, mempool[..i], limit);
            limit.Some? && |before| >= limit.value ==> Fitting(s, rules, part, parts, mempool, limit) == before
  {
    hide CeremonySet;
    if i == |mempool| {
      assert mempool[..i] == mempool;
    } else {
      EarlierGoesFirst(s, rules, part, parts, mempool[..|mempool| - 1], limit, i);
      assert mempool[..|mempool| - 1][..i] == mempool[..i];
    }
  }

  lemma NextFitting(s: Ledger, rules: Rules, part: nat, parts: nat, mempool: seq<T.Transaction>, limit: Option<nat>,
                    i: nat)
    requires parts > 0 && i < |mempool|
    ensures var before := Fitting(s, rules, part, parts, mempool[..i], limit);
            Fitting(s, rules, part, parts, mempool[..i + 1], limit) ==
            if (limit.Some? && |before| >= limit.value)
               || !CeremonySet(s, before + [mempool[i]], rules.verify, rules.number, part, parts)
            then before else before + [mempool[i]]
  {
    hide CeremonySet;
    assert mempool[..i + 1][..i] == mempool[..i];
  }

  lemma NoneFit(s: Ledger, rules: Rules, part: nat, parts: nat, limit: Option<nat>)
    requires parts > 0
    ensures Fitting(s, rules, part, parts, [], limit) == []
  {
  }

  /** It is a grid's set, of the mempool, within the limit, and nothing that still fitted is left out. */
  lemma {:induction false} FittingIs(s: Ledger, rules: Rules, part: nat, parts: nat, mempool: seq<T.Transaction>,
                                     limit: Option<nat>)
    requires parts > 0
    ensures var chosen := Fitting(s, rules, part, parts, mempool, limit);
            && CeremonySet(s, chosen, rules.verify, rules.number, part, parts)
            && (forall tx <- chosen :: tx in mempool) && (limit.Some? ==> |chosen| <= limit.value)
            && (limit.None? || |chosen| < limit.value ==> LeavesOut(s, rules, part, parts, mempool, chosen))
  {
    hide CeremonySet, LeavesOut;
    if mempool == [] {
      EmptySet(s, rules, part, parts);
    } else {
      var front, last := mempool[..|mempool| - 1], mempool[|mempool| - 1];
      FittingIs(s, rules, part, parts, front, limit);
      var before := Fitting(s, rules, part, parts, front, limit);
      assert mempool == front + [last];
      OneMoreLeftOut(s, rules, part, parts, front, before, last);
    }
  }

  /** Whatever is not chosen does not fit behind what is. */
  ghost predicate LeavesOut(s: Ledger, rules: Rules, part: nat, parts: nat, mempool: seq<T.Transaction>,
                            chosen: seq<T.Transaction>)
    requires parts > 0
  {
    forall tx <- mempool :: tx in chosen || !CeremonySet(s, chosen + [tx], rules.verify, rules.number, part, parts)
  }

  lemma OneMoreLeftOut(s: Ledger, rules: Rules, part: nat, parts: nat, front: seq<T.Transaction>,
                       before: seq<T.Transaction>, last: T.Transaction)
    requires parts > 0
    ensures LeavesOut(s, rules, part, parts, front, before) ==>
              LeavesOut(s, rules, part, parts, front + [last],
                        if CeremonySet(s, before + [last], rules.verify, rules.number, part, parts)
                        then before + [last] else before)
  {
    hide CeremonySet;
    if LeavesOut(s, rules, part, parts, front, before) {
      forall tx <- front | tx !in before + [last]
        ensures !CeremonySet(s, before + [last] + [tx], rules.verify, rules.number, part, parts) {
        StillFits(s, before, last, tx, rules, part, parts);
      }
    }
  }

  /** The transactions a leader's mempool yields. */
  method Choose(st: ChainState, rules: Rules, part: nat, parts: nat, mempool: seq<T.Transaction>, limit: Option<nat>)
    returns (chosen: seq<T.Transaction>)
    requires st.Valid() && parts > 0 && forall tx <- mempool :: rules.verify(tx)
    ensures chosen == Fitting(st.State(), rules, part, parts, mempool, limit)
    ensures CeremonySet(st.State(), chosen, rules.verify, rules.number, part, parts)
    ensures (forall tx <- chosen :: tx in mempool) && (limit.Some? ==> |chosen| <= limit.value)
    ensures limit.None? || |chosen| < limit.value ==>
              forall tx <- mempool ::
                tx in chosen || !CeremonySet(st.State(), chosen + [tx], rules.verify, rules.number, part, parts)
  {
    hide CeremonySet, FitsLedger, Partition, FromTxs, Ledger.Valid, Seen, Fitting;
    chosen := [];
    var seenNf: set<string>, seenCm: set<string>, seenOut: set<string> := {}, {}, {};
    FittingIs(st.State(), rules, part, parts, mempool, limit);
    EmptySet(st.State(), rules, part, parts);
    NothingSeen();
    NoneFit(st.State(), rules, part, parts, limit);
    assert mempool[..0] == [];
    for i := 0 to |mempool|
      invariant CeremonySet(st.State(), chosen, rules.verify, rules.number, part, parts)
                && Seen(chosen, seenNf, seenCm, seenOut)
      invariant chosen == Fitting(st.State(), rules, part, parts, mempool[..i], limit)
    {
      EarlierGoesFirst(st.State(), rules, part, parts, mempool, limit, i);
      NextFitting(st.State(), rules, part, parts, mempool, limit, i);
      if limit.Some? && |chosen| >= limit.value {
        return;
      }
      var tx := mempool[i];
      assert tx in mempool;
      OneMore(st.State(), chosen, tx, rules, part, parts, seenNf, seenCm, seenOut);
      if Partition(rules.number, tx, parts) != Some(part) {
        continue;
      }
      var ok := st.CheckTransaction(tx, true, seenNf, seenCm);
      if !ok || exists cm <- tx.outputs :: cm in seenOut {
        continue;
      }
      SeenMore(chosen, tx, seenNf, seenCm, seenOut);
      chosen := chosen + [tx];
      seenNf := seenNf + set v | v in tx.Nullifiers();
      seenCm := seenCm + set v | v in tx.InputCms();
      seenOut := seenOut + set v | v in tx.outputs;
    }
    assert mempool[..|mempool|] == mempool;
  }

  lemma EmptySet(s: Ledger, rules: Rules, part: nat, parts: nat)
    requires parts > 0
    ensures CeremonySet(s, [], rules.verify, rules.number, part, parts) && LeavesOut(s, rules, part, parts, [], [])
  {
  }

  /** Build a grid's block. Every seat that holds the same desk and ledger accepts it exactly when the grid's
      certificate is current: when it has none, or one for the height the block follows. */
  method Build(d: Desk, st: ChainState, rules: Rules, g: GridId, epoch: int, leader: NodeId,
               mempool: seq<T.Transaction>, limit: Option<nat>, pending: seq<Report>) returns (b: GridBlock)
    requires d.Covers(g) && st.Valid() && forall tx <- mempool :: rules.verify(tx)
    ensures Accepts(d, st.State(), rules, g, epoch, b) <==> CertIsCurrent(d, g)
    ensures b.prevCert == d.PrevCert(g) && b.header.gridId == g && b.reports == Substantiated(pending)
    ensures b.header.leader == leader
            && b.txs == Fitting(st.State(), rules, d.world.layout.grids[g].index, |d.world.layout.grids|,
                                mempool, limit)
  {
    hide CeremonySet, FromTxs, Partition, FitsLedger, RootOf, Desk.RegisterAfter, FaultedFrom, Substantiated;
    assert |d.world.layout.grids| > 0 by {
      assert g in d.world.layout.grids;
    }
    var part, parts := d.world.layout.grids[g].index, |d.world.layout.grids|;
    var chosen := Choose(st, rules, part, parts, mempool, limit);
    var delta, roll, reports := FromTxs(chosen), d.RollFrom(g, d.PrevCert(g), d.PrevLeader(g)), Substantiated(pending);
    var root := RootOf(d.RegisterAfter(g, roll, FaultedFrom(reports)));
    b := GridBlock(GridHeader(g, part, parts, epoch, d.chainId, d.tip, chosen, delta, roll, root, leader,
                              d.PrevCert(g), multiset(reports), d.QuorumFor(g)),
                   chosen, delta, Some(roll), d.PrevCert(g), reports);
    assert roll == d.RollFrom(g, b.prevCert, roll.leader);
  }

  // ---- which certificate a block may follow ----

  /** An empty block that follows a certificate. */
  function EmptyBlock(d: Desk, g: GridId, epoch: int, leader: NodeId, cert: Option<Cert>): GridBlock
    requires g in d.world.layout.grids && g in d.world.books && g in d.world.layout.members && d.quorumDen > 0
  {
    var roll := d.RollFrom(g, cert, Some(leader));
    var header := GridHeader(g, d.world.layout.grids[g].index, |d.world.layout.grids|, epoch, d.chainId, d.tip, [],
                             NoChange, roll,
                             RootOf(d.RegisterAfter(g, roll, {})), leader, cert, multiset([]), d.QuorumFor(g));
    GridBlock(header, [], NoChange, Some(roll), cert, [])
  }

  /** Every seat accepts some block of the grid under a given certificate exactly when the certificate follows. */
  lemma AcceptedUnderIff(d: Desk, s: Ledger, rules: Rules, g: GridId, epoch: int, cert: Option<Cert>)
    requires d.Covers(g)
    ensures (exists b :: Accepts(d, s, rules, g, epoch, b) && b.prevCert == cert) <==> CertFollows(d, g, cert)
  {
    hide FitsLedger, RootOf, Desk.RegisterAfter, Desk.QuorumFor, CertFollows;
    if CertFollows(d, g, cert) {
      var b := EmptyBlock(d, g, epoch, 0, cert);
      assert |d.world.layout.grids| > 0 by {
        assert g in d.world.layout.grids;
      }
      EmptySet(s, rules, d.world.layout.grids[g].index, |d.world.layout.grids|);
      RollOfEmpty(d, g, cert);
      assert Accepts(d, s, rules, g, epoch, b);
    }
  }

  lemma RollOfEmpty(d: Desk, g: GridId, cert: Option<Cert>)
    requires g in d.world.books && g in d.world.layout.members
    ensures var roll := d.RollFrom(g, cert, Some(0)); roll == d.RollFrom(g, cert, roll.leader)
  {
  }

  /** The grid has produced a block, and its own certificate is for an earlier height. */
  predicate Stale(d: Desk, g: GridId) {
    g in d.certs && d.certs[g].height < d.height && d.height > 0
  }

  /** A stale grid gets a block accepted exactly when its leader shows a sound certificate of the current height, its
      own or another's. */
  lemma StaleAcceptedIff(d: Desk, s: Ledger, rules: Rules, g: GridId, epoch: int, cert: Option<Cert>)
    requires d.Covers(g) && Stale(d, g)
    ensures (exists b :: Accepts(d, s, rules, g, epoch, b) && b.prevCert == cert)
            <==> cert.Some? && SoundAt(d, cert.value)
  {
    hide Accepts;
    AcceptedUnderIff(d, s, rules, g, epoch, cert);
  }

  /** A current certificate of any sibling will do. The block's roll then credits the members that sibling's certificate
      lists: none of the grid's own. */
  lemma SiblingCertIsEnough(d: Desk, s: Ledger, rules: Rules, g: GridId, h: GridId, epoch: int) returns (b: GridBlock)
    requires d.Covers(g) && Stale(d, g) && h in d.certs && SoundAt(d, d.certs[h])
             && d.certs[h].attended !! d.GridMembers(g)
    ensures h != g && !CertIsCurrent(d, g) && Accepts(d, s, rules, g, epoch, b) && b.prevCert == Some(d.certs[h])
    ensures b.roll.Some? && b.roll.value.seated == d.GridMembers(g) && b.roll.value.attended !! b.roll.value.seated
  {
    hide CeremonySet, FromTxs, RootOf, Desk.RegisterAfter, Desk.QuorumFor, FaultedFrom;
    StaleAcceptedIff(d, s, rules, g, epoch, Some(d.certs[h]));
    b :| Accepts(d, s, rules, g, epoch, b) && b.prevCert == Some(d.certs[h]);
  }

  // ---- a grid that misses a block ----

  /** One network block as grid `g` sees it: the grid's block in it, if any, accepted under some ledger, rules and
      epoch. */
  datatype Round = Round(s: Ledger, rules: Rules, epoch: int, block: Option<GridBlock>)

  /** The height moves on by one. Only a block that carries the grid's own replaces its certificate, and by one for the
      new height. */
  ghost predicate Passes(d: Desk, after: Desk, g: GridId, r: Round) {
    && after.height == d.height + 1 && after.chainId == d.chainId && d.Covers(g)
    && match r.block
       case None => after.PrevCert(g) == d.PrevCert(g)
       case Some(b) =>
         && Accepts(d, r.s, r.rules, g, r.epoch, b) && after.PrevCert(g).Some?
         && SoundAt(after, after.PrevCert(g).value)
  }

  ghost predicate IsRun(desks: seq<Desk>, g: GridId, rounds: seq<Round>) {
    && |desks| == |rounds| + 1 && desks[0].height >= 0
    && forall i | 0 <= i < |rounds| :: Passes(desks[i], desks[i + 1], g, rounds[i])
  }

  /** A leader that follows the certificate the desk holds for its grid, as `build` does. */
  ghost predicate Honest(d: Desk, g: GridId, r: Round) {
    r.block.Some? ==> r.block.value.prevCert == d.PrevCert(g)
  }

  /** In any run, a stale grid is carried only by showing a certificate that is not its own; until it does it stays
      stale. */
  lemma StaleCarriedShowsAnother(d: Desk, after: Desk, g: GridId, r: Round)
    requires Passes(d, after, g, r) && Stale(d, g)
    ensures r.block.Some? ==>
              r.block.value.prevCert.Some? && SoundAt(d, r.block.value.prevCert.value)
              && r.block.value.prevCert != d.PrevCert(g)
                                && !Stale(after, g)
    ensures r.block.None? ==> Stale(after, g) && after.PrevCert(g) == d.PrevCert(g)
  {
    hide CeremonySet, FromTxs, RootOf, Desk.RegisterAfter, Desk.QuorumFor, FaultedFrom;
  }

  /** With leaders that follow their own grid's certificate, a grid that has produced a block and is then left out of
      one is left out of every later one. */
  lemma {:induction false} OnceMissedAlwaysShut(desks: seq<Desk>, g: GridId, rounds: seq<Round>, k: nat)
    requires IsRun(desks, g, rounds) && k < |desks| && Stale(desks[0], g)
    requires forall i | 0 <= i < |rounds| :: Honest(desks[i], g, rounds[i])
    ensures Stale(desks[k], g) && desks[k].PrevCert(g) == desks[0].PrevCert(g)
            && forall i | 0 <= i < k :: rounds[i].block.None?
  {
    hide Accepts, Desk.Covers;
    if k > 0 {
      OnceMissedAlwaysShut(desks, g, rounds, k - 1);
      assert Passes(desks[k - 1], desks[k], g, rounds[k - 1]) && Honest(desks[k - 1], g, rounds[k - 1]);
      StaleCarriedShowsAnother(desks[k - 1], desks[k], g, rounds[k - 1]);
    }
  }

  /** After a block, a grid that has a certificate can follow it at the next height exactly when that block carried the
      grid. */
  lemma CurrentIffCarried(d: Desk, after: Desk, g: GridId, r: Round)
    requires Passes(d, after, g, r) && d.height >= 0 && after.PrevCert(g).Some?
    requires g in d.certs ==> d.certs[g].height <= d.height
    ensures CertIsCurrent(after, g) <==> r.block.Some?
  {
    hide Accepts, Desk.Covers;
  }
}
