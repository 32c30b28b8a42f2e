module DrmsCompression {
  // Renumbering after the global counter ran out: activation identifiers become three
  // times their rank, and every timestamp keeps its place among the identifiers and its
  // order against the latest write of its granule.

  import opened Common
  import opened ActivationStack
  import opened ShadowMap

  // The number of live identifiers that are at most v.
  function Rank(ids: set<nat>, v: nat): nat {
    |set x | x in ids && x <= v|
  }

  function Renumbered(ids: set<nat>, s: seq<Activation>): (r: seq<Activation>)
    ensures |r| == |s|
  {
    seq(|s|, i requires 0 <= i < |s| => s[i].(id := 3 * Rank(ids, s[i].id)))
  }

  // The new timestamp of an access at lts to a granule last written at gts.
  function NewLocal(ids: set<nat>, lts: nat, gts: nat): nat {
    var i, j := Rank(ids, gts), Rank(ids, lts);
    if i != j then 3 * j
    else if lts < gts then 3 * i
    else if lts == gts then 3 * i + 1
    else 3 * i + 2
  }

  function CompressedLocal(ids: set<nat>, global: Shadow, local: Shadow): Shadow {
    map g | g in local :: NewLocal(ids, local[g], Cell(global, g))
  }

  function CompressedGlobal(ids: set<nat>, global: Shadow): Shadow {
    map g | g in global :: 3 * Rank(ids, global[g]) + 1
  }

  lemma RankMonotone(ids: set<nat>, a: nat, b: nat)
    requires a <= b
    ensures Rank(ids, a) <= Rank(ids, b) <= |ids|
    ensures forall x :: x in ids && a < x <= b ==> Rank(ids, a) < Rank(ids, b)
  {
    var s, t := set x | x in ids && x <= a, set x | x in ids && x <= b;
    SubsetSize(s, t);
    SubsetSize(t, ids);
    forall x | x in ids && a < x <= b ensures |s| < |t| {
      SubsetSize(s, t - {x});
    }
  }

  // Ranks decide comparisons with a live identifier.
  lemma RankDecides(ids: set<nat>, x: nat, v: nat)
    requires x in ids
    ensures x <= v <==> Rank(ids, x) <= Rank(ids, v)
  {
    if x <= v { RankMonotone(ids, x, v); } else { RankMonotone(ids, v, x); }
  }

  lemma NewLocalBounds(ids: set<nat>, lts: nat, gts: nat)
    ensures 3 * Rank(ids, lts) <= NewLocal(ids, lts, gts) <= 3 * Rank(ids, lts) + 2
  {
  }

  // Every comparison of a private timestamp with a live identifier keeps its answer.
  lemma LocalAnswer(ids: set<nat>, global: Shadow, local: Shadow, g: nat, x: nat)
    requires x in ids && x > 0
    ensures 3 * Rank(ids, x) <= Cell(CompressedLocal(ids, global, local), g) <==> x <= Cell(local, g)
  {
    var v := Cell(local, g);
    RankDecides(ids, x, v);
    if g in local {
      NewLocalBounds(ids, v, Cell(global, g));
    } else {
      assert x in set y | y in ids && y <= x;
    }
  }

  // Every comparison of a private timestamp with the latest write keeps its answer,
  // with one exception: a granule never written, in an allocated global segment, is
  // taken for written before the reads of a thread that has no segment there.
  lemma GlobalAnswer(ids: set<nat>, global: Shadow, local: Shadow, g: nat)
    ensures Cell(CompressedLocal(ids, global, local), g) < Cell(CompressedGlobal(ids, global), g)
       <==> Cell(local, g) < Cell(global, g) || (g in global && global[g] == 0 && g !in local)
  {
    var l, v := Cell(local, g), Cell(global, g);
    if l <= v { RankMonotone(ids, l, v); } else { RankMonotone(ids, v, l); }
  }

  // The new counter exceeds every new timestamp.
  lemma CounterAhead(ids: set<nat>, global: Shadow, local: Shadow, g: nat)
    ensures Cell(CompressedLocal(ids, global, local), g) < 3 * (|ids| + 2)
    ensures Cell(CompressedGlobal(ids, global), g) < 3 * (|ids| + 2)
  {
    RankMonotone(ids, Cell(local, g), Cell(local, g));
    RankMonotone(ids, Cell(global, g), Cell(global, g));
  }
}
