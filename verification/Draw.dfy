/**
 Which turns stamp a block (chain/hardening/draw.py): the first `width` unspent turns a stream of hashes
 seeded by the previous block points at.
 */
module Draw {
  import opened Basics
  import opened Seats
  import opened EraPool

  datatype DrawSeed = DrawSeed(prevHash: Hash, height: int, root: Hash32)

  /** The k-th hash of the stream, as an integer. */
  type Probes = (DrawSeed, nat) -> nat

  datatype Drawing = Drawn(turns: seq<nat>) | PoolExhausted | NoTurns

  /** The last probe the loop may make before it gives up. */
  function Limit(turns: nat, width: nat): nat {
    64 * (width + 1) + 4 * turns
  }

  function TurnAt(probes: Probes, seed: DrawSeed, turns: nat, k: nat): (t: nat)
    requires turns > 0
    ensures t < turns
  {
    probes(seed, k) % turns
  }

  /** The unspent turns among the first `k` probes, in the order they first come up. */
  function Pointed(probes: Probes, seed: DrawSeed, turns: nat, spent: set<nat>, k: nat): (r: seq<nat>)
    requires turns > 0
    ensures forall t <- r :: t < turns && t !in spent
  {
    if k == 0 then []
    else
      var before, t := Pointed(probes, seed, turns, spent, k - 1), TurnAt(probes, seed, turns, k - 1);
      if t in before || t in spent then before else before + [t]
  }

  /** The draw, as the whole stream up to the limit decides it. */
  function TheDraw(probes: Probes, seed: DrawSeed, turns: nat, spent: set<nat>, width: nat): Drawing {
    if width == 0 then Drawn([])
    else if turns == 0 then NoTurns
    else
      var all := Pointed(probes, seed, turns, spent, Limit(turns, width) + 1);
      if |all| >= width then Drawn(all[..width]) else PoolExhausted
  }

  method DrawTurns(probes: Probes, seed: DrawSeed, turns: nat, spent: set<nat>, width: nat) returns (r: Drawing)
    ensures r == TheDraw(probes, seed, turns, spent, width)
  {
    if width > 0 && turns == 0 {
      return NoTurns;
    }
    var chosen: seq<nat>, seen: set<nat>, probe := [], {}, 0;
    var limit := Limit(turns, width);
    while |chosen| < width
      invariant probe <= limit + 1
      invariant width > 0 ==> |chosen| <= width && chosen == Pointed(probes, seed, turns, spent, probe)
      invariant width == 0 ==> chosen == []
      invariant forall t :: t in seen <==> t in chosen
      decreases limit + 1 - probe
    {
      if probe > limit {
        return PoolExhausted;
      }
      var t := TurnAt(probes, seed, turns, probe);
      probe := probe + 1;
      if !(t in seen || t in spent) {
        seen := seen + {t};
        chosen := chosen + [t];
      }
    }
    if width > 0 {
      PointedGrows(probes, seed, turns, spent, probe, limit + 1);
    }
    return Drawn(chosen);
  }

  lemma {:induction false} PointedGrows(probes: Probes, seed: DrawSeed, turns: nat, spent: set<nat>, j: nat, k: nat)
    requires turns > 0 && j <= k
    ensures Pointed(probes, seed, turns, spent, j) <= Pointed(probes, seed, turns, spent, k)
  {
    if j < k {
      PointedGrows(probes, seed, turns, spent, j, k - 1);
    }
  }

  lemma {:induction false} PointedIsDistinct(probes: Probes, seed: DrawSeed, turns: nat, spent: set<nat>, k: nat)
    requires turns > 0
    ensures Distinct(Pointed(probes, seed, turns, spent, k))
    ensures SetOf(Pointed(probes, seed, turns, spent, k)) == Fresh(probes, seed, turns, spent, k)
  {
    if k > 0 {
      PointedIsDistinct(probes, seed, turns, spent, k - 1);
      var before, t := Pointed(probes, seed, turns, spent, k - 1), TurnAt(probes, seed, turns, k - 1);
      assert t in before <==> t in SetOf(before);
      FreshGrows(probes, seed, turns, spent, k - 1);
    }
  }

  /** The unspent turns the first `k` probes point at. */
  ghost function Fresh(probes: Probes, seed: DrawSeed, turns: nat, spent: set<nat>, k: nat): set<nat>
    requires turns > 0
  {
    set i: nat | i < k && TurnAt(probes, seed, turns, i) !in spent :: TurnAt(probes, seed, turns, i)
  }

  lemma FreshGrows(probes: Probes, seed: DrawSeed, turns: nat, spent: set<nat>, k: nat)
    requires turns > 0
    ensures var t := TurnAt(probes, seed, turns, k);
            Fresh(probes, seed, turns, spent, k + 1) == Fresh(probes, seed, turns, spent, k) + if t in spent then {}
              else {t}
  {
  }

  /** A committee is `width` different turns of the era, none of them spent. */
  lemma CommitteeIsFresh(probes: Probes, seed: DrawSeed, turns: nat, spent: set<nat>, width: nat)
    requires TheDraw(probes, seed, turns, spent, width).Drawn?
    ensures var drawn := TheDraw(probes, seed, turns, spent, width).turns;
            && |drawn| == width == |SetOf<nat>(drawn)| && Distinct(drawn)
            && SetOf<nat>(drawn) !! spent && forall t <- drawn :: t < turns
  {
    var drawn := TheDraw(probes, seed, turns, spent, width).turns;
    if width > 0 {
      var k := Limit(turns, width) + 1;
      PointedIsDistinct(probes, seed, turns, spent, k);
      assert drawn == Pointed(probes, seed, turns, spent, k)[..width];
      assert forall t <- drawn :: t in Pointed(probes, seed, turns, spent, k);
    }
    DistinctSize(drawn);
  }

  /** The draw gives up exactly when the first 64 probes a turn of the committee, 64 more and four a turn of the era,
      and one last one, point at fewer than `width` unspent turns; so it always does once fewer than `width` are left.
      */
  lemma ExhaustedIff(probes: Probes, seed: DrawSeed, turns: nat, spent: set<nat>, width: nat)
    requires turns > 0 && width > 0
    ensures TheDraw(probes, seed, turns, spent, width).PoolExhausted?
            <==> |Fresh(probes, seed, turns, spent, 64 * width + 64 + 4 * turns + 1)| < width
  {
    var k := Limit(turns, width) + 1;
    PointedIsDistinct(probes, seed, turns, spent, k);
    DistinctSize(Pointed(probes, seed, turns, spent, k));
  }
}
