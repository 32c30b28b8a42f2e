module ShadowMap {
  // Shadow memory as a value: the allocated cells and their words. A cell outside the
  // map belongs to a segment that was never allocated and reads as zero.

  type Shadow = map<nat, nat>

  function Cell(m: Shadow, g: nat): nat {
    if g in m then m[g] else 0
  }

  // The granules of the segment of g, when a segment has `segment` granules.
  function Segment(g: nat, segment: nat): set<nat>
    requires segment > 0
  {
    set x: nat | x < g + segment && x / segment == g / segment
  }

  // Writing a cell allocates the whole segment, zero filled.
  function Stored(m: Shadow, g: nat, v: nat, segment: nat): (r: Shadow)
    requires segment > 0
    ensures forall x :: Cell(r, x) == if x == g then v else Cell(m, x)
    ensures forall x :: x in r <==> x in m || x in Segment(g, segment)
  {
    assert g in Segment(g, segment);
    map x | x in m.Keys + Segment(g, segment) :: if x == g then v else Cell(m, x)
  }

  lemma SameCells(a: Shadow, b: Shadow)
    requires forall x: nat :: x in a <==> x in b
    requires forall x: nat :: Cell(a, x) == Cell(b, x)
    ensures a == b
  {
    forall x | x in a ensures a[x] == b[x] {
      assert Cell(a, x) == Cell(b, x);
    }
  }
}
