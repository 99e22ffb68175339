/**
 What a view-change certificate is worth (chain/viewchange.py, `ViewChangeCert.check`, `required_block`): a quorum of
 seats signed their way into this very view, and the block they oblige the leader to is the highest they reported.
 */
module ViewChangeWorth {
  import opened Basics
  import opened Seats
  import opened QuorumCert
  import opened ViewChange

  /** The seat signed, under its own key, a move of this height, epoch and chain to this view. */
  ghost predicate MovedTo(c: Height, view: int, changes: seq<ViewChange>, n: NodeId) {
    exists vc <- changes ::
      && n in c.validators && vc.signature == MoveSig(c.validators[n], vc.move) && vc.move.nodeId == n
      && vc.move.chainId == c.chainId && vc.move.height == c.height && vc.move.epoch == c.epoch && vc.move.view == view
  }

  /** At least a quorum of different seats did. */
  lemma CheckedIsSigned(c: Height, cert: ViewChangeCert, view: int)
    requires Checks(c, cert, view)
    ensures var who := SetOf(Signers(cert.changes));
            && |who| >= c.quorum && who <= c.validators.Keys && forall n <- who :: MovedTo(c, view, cert.changes, n)
  {
    var names := Signers(cert.changes);
    DistinctSize(names);
    forall n <- SetOf(names) ensures n in c.validators && MovedTo(c, view, cert.changes, n) {
      var i :| 0 <= i < |names| && names[i] == n;
      assert IsFor(c, view, cert.changes[i]) && cert.changes[i] in cert.changes;
    }
  }

  /** A certificate with anyone in it passes for one view of one height of one chain. */
  lemma OneCertOneView(c: Height, d: Height, cert: ViewChangeCert, view: int, other: int)
    requires Checks(c, cert, view) && Checks(d, cert, other) && cert.changes != []
    ensures view == other && c.chainId == d.chainId && c.height == d.height && c.epoch == d.epoch
  {
    assert IsFor(c, view, cert.changes[0]) && IsFor(d, other, cert.changes[0]);
  }

  /** Nothing is required exactly when nobody is locked; otherwise a block someone is locked on, in the highest view
      anyone reports, the greatest hash where several are reported for that view. */
  lemma RequiredIsHighest(changes: seq<ViewChange>, r: Option<Hash>)
    requires IsRequired(changes, r)
    ensures r.None? <==> forall vc <- changes :: vc.move.lockedView < 0 || vc.move.lockedHash.None?
    ensures r.Some? ==> exists best <- changes ::
              && best.move.lockedView >= 0 && best.move.lockedHash == r
              && forall vc <- changes | vc.move.lockedView >= 0 && vc.move.lockedHash.Some? ::
                   vc.move.lockedView < best.move.lockedView
                   || (vc.move.lockedView == best.move.lockedView && vc.move.lockedHash.value <= r.value)
  {
    if !(forall vc <- changes :: !vc.Locked()) {
      var best :| best in changes && best.Locked() && r == best.move.lockedHash && Highest(changes, best);
      assert forall vc <- changes | vc.Locked() ::
        !Above(vc.move.lockedView, vc.move.lockedHash.value, best.move.lockedView, best.move.lockedHash.value);
    }
  }

  /** What a leader of a later view may propose: only under a certificate, and then the required block if there is one.
      */
  lemma PermittedIsRequired(cert: Option<ViewChangeCert>, h: Hash, view: int, r: Option<Hash>)
    requires cert.Some? && IsRequired(cert.value.changes, r) && view != 0
    ensures Permits(cert, h, view) <==> r == None || r == Some(h)
  {
    forall q | IsRequired(cert.value.changes, q) ensures q == r {
      RequiredIsUnique(cert.value.changes, q, r);
    }
  }
}
