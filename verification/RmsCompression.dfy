module RmsCompression {
  // Renumbering after a thread ran out of activation identifiers: the stacked activations
  // are numbered from 1 upwards, and a cell becomes the number of the topmost
  // activation whose identifier it reaches.

  import opened ActivationStack
  import opened ShadowMap

  function IdsOf(s: seq<Activation>): (r: seq<nat>)
    ensures |r| == |s|
  {
    seq(|s|, i requires 0 <= i < |s| => s[i].id)
  }

  // One more than the greatest index whose identifier is at most v, or zero.
  function Rank(ids: seq<nat>, v: nat): (r: nat)
    ensures r <= |ids|
    ensures r > 0 ==> ids[r - 1] <= v
    ensures forall k :: r <= k < |ids| ==> v < ids[k]
  {
    if |ids| == 0 then 0
    else if ids[|ids| - 1] <= v then |ids|
    else Rank(ids[..|ids| - 1], v)
  }

  function Renumbered(s: seq<Activation>): (r: seq<Activation>)
    ensures |r| == |s|
  {
    seq(|s|, i requires 0 <= i < |s| => s[i].(id := i + 1))
  }

  function NewWord(ids: seq<nat>, v: nat): nat {
    if v == 0 then 0 else Rank(ids, v)
  }

  function Compressed(ids: seq<nat>, m: Shadow): Shadow {
    map g | g in m :: NewWord(ids, m[g])
  }

  // Renumbering answers every later comparison of a cell with an identifier as before ...
  lemma CompressionKeepsOrder(s: seq<Activation>, m: Shadow, g: nat, i: nat)
    requires Increasing(s) && i < |s| && s[0].id > 0
    ensures Renumbered(s)[i].id <= Cell(Compressed(IdsOf(s), m), g) <==> s[i].id <= Cell(m, g)
  {
    var r := Rank(IdsOf(s), Cell(m, g));
    assert i < r ==> s[i].id <= s[r - 1].id;
    assert r <= i ==> IdsOf(s)[i] > Cell(m, g);
  }

  // ... and the answer of the pointer walk.
  lemma CompressionKeepsOwner(s: seq<Activation>, m: Shadow, g: nat)
    requires Increasing(s) && |s| >= 2 && s[0].id > 0
    requires s[0].id <= Cell(m, g)
    ensures Renumbered(s)[0].id <= Cell(Compressed(IdsOf(s), m), g)
    ensures OwnerFrom(Renumbered(s), |s| - 2, Cell(Compressed(IdsOf(s), m), g)) == OwnerFrom(s, |s| - 2, Cell(m, g))
  {
    hide Compressed, Cell;
    CompressionKeepsOrder(s, m, g, 0);
    var q := OwnerFrom(s, |s| - 2, Cell(m, g));
    var q' := OwnerFrom(Renumbered(s), |s| - 2, Cell(Compressed(IdsOf(s), m), g));
    CompressionKeepsOrder(s, m, g, q);
    CompressionKeepsOrder(s, m, g, q');
  }
}
