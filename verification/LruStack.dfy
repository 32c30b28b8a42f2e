module LruStack {
  // One set of a cache: a list of tags in order of their last use, seeded with zeros. Which
  // references hit is a matter of the history alone: those to a tag with fewer than
  // `assoc` other tags used since its own last use.

  import opened Common

  type Tag = nat

  // --- the list ---

  // The first place of the tag, or the length of the list.
  function Position(s: seq<Tag>, t: Tag): (p: nat)
    ensures p <= |s| && (p < |s| ==> s[p] == t) && (forall i :: 0 <= i < p ==> s[i] != t)
  {
    if |s| == 0 || s[0] == t then 0 else 1 + Position(s[1..], t)
  }

  predicate Missing(s: seq<Tag>, t: Tag) {
    Position(s, t) == |s|
  }

  // The tag goes to the front, over its own place or over the last one.
  function Touch(s: seq<Tag>, t: Tag): (r: seq<Tag>)
    requires |s| > 0
    ensures |r| == |s| && r[0] == t
  {
    var p := Position(s, t);
    if p < |s| then [t] + s[..p] + s[p + 1..] else [t] + s[..|s| - 1]
  }

  function Zeros(n: nat): (s: seq<Tag>)
    ensures |s| == n && forall i :: 0 <= i < n ==> s[i] == 0
  {
    seq(n, _ => 0)
  }

  // The list of a set of assoc tags after the references h.
  function After(assoc: nat, h: seq<Tag>): (s: seq<Tag>)
    requires assoc > 0
    ensures |s| == assoc
  {
    if |h| == 0 then Zeros(assoc) else Touch(After(assoc, h[..|h| - 1]), h[|h| - 1])
  }

  lemma AfterOneMore(assoc: nat, h: seq<Tag>, t: Tag)
    requires assoc > 0
    ensures After(assoc, h + [t]) == Touch(After(assoc, h), t)
  {
    assert (h + [t])[..|h|] == h;
  }

  // --- the inclusion property ---

  lemma PositionInPrefix(s: seq<Tag>, k: nat, t: Tag)
    requires k <= |s|
    ensures Position(s[..k], t) == if Position(s, t) < k then Position(s, t) else k
  {
    var p, q := Position(s, t), Position(s[..k], t);
    if q < k {
      assert s[..k][q] == s[q];
    }
    if p < k {
      assert s[..k][p] == s[p];
    }
  }

  /** A smaller list stays the front part of a larger one, and holds no tag that is missing there. */
  lemma TouchKeepsPrefix(s: seq<Tag>, k: nat, t: Tag)
    requires 0 < k <= |s|
    ensures Touch(s[..k], t) == Touch(s, t)[..k]
    ensures Missing(s, t) ==> Missing(s[..k], t)
  {
    PositionInPrefix(s, k, t);
    var p := Position(s, t);
    if p < k {
      assert [t] + s[..k][..p] + s[..k][p + 1..] == ([t] + s[..p] + s[p + 1..])[..k];
    } else if p < |s| {
      assert [t] + s[..k][..k - 1] == ([t] + s[..p] + s[p + 1..])[..k];
    } else {
      assert [t] + s[..k][..k - 1] == ([t] + s[..|s| - 1])[..k];
    }
  }

  // --- the stack distance ---

  // The place of the last use of the tag, -1 when there is none.
  function LastUse(h: seq<Tag>, t: Tag): (i: int)
    ensures -1 <= i < |h| && (i >= 0 ==> h[i] == t) && (forall j :: i < j < |h| ==> h[j] != t)
  {
    if |h| == 0 then -1 else if h[|h| - 1] == t then |h| - 1 else LastUse(h[..|h| - 1], t)
  }

  function UsedSince(h: seq<Tag>, t: Tag): set<Tag> {
    set i | LastUse(h, t) < i < |h| :: h[i]
  }

  // The number of different tags used since the last use of t.
  function Distance(h: seq<Tag>, t: Tag): nat {
    |UsedSince(h, t)|
  }

  // Of two tags, the one used last is the nearer.
  lemma NearerWhenLater(h: seq<Tag>, t: Tag, u: Tag)
    requires LastUse(h, u) < LastUse(h, t)
    ensures Distance(h, t) < Distance(h, u)
    ensures t in UsedSince(h, u) && u !in UsedSince(h, t)
  {
    assert h[LastUse(h, t)] in UsedSince(h, u);
    assert UsedSince(h, t) <= UsedSince(h, u);
    SubsetSize(UsedSince(h, t), UsedSince(h, u));
  }

  lemma UseOfAnother(h: seq<Tag>, u: Tag, t: Tag)
    requires t != u
    ensures UsedSince(h + [u], t) == UsedSince(h, t) + {u}
    ensures LastUse(h + [u], t) == LastUse(h, t)
  {
    var g := h + [u];
    assert g[..|h|] == h;
    forall x | x in UsedSince(h, t) + {u} ensures x in UsedSince(g, t) {
      if x in UsedSince(h, t) {
        var i :| LastUse(h, t) < i < |h| && h[i] == x;
        assert g[i] == x;
      } else {
        assert g[|h|] == x;
      }
    }
    forall x | x in UsedSince(g, t) ensures x in UsedSince(h, t) + {u} {
      var i :| LastUse(g, t) < i < |g| && g[i] == x;
      if i < |h| {
        assert h[i] == x;
      }
    }
  }

  // Where a tag is in the list, as the history tells. The zeros of the start count as a use of tag 0.
  ghost function Place(assoc: nat, h: seq<Tag>, t: Tag): nat {
    if LastUse([0] + h, t) >= 0 && Distance([0] + h, t) < assoc then Distance([0] + h, t) else assoc
  }

  lemma OnlyPosition(s: seq<Tag>, t: Tag, p: nat)
    requires p <= |s| && (p < |s| ==> s[p] == t) && (forall i :: 0 <= i < p ==> s[i] != t)
    ensures Position(s, t) == p
  {
  }

  // The place q after a use of the tag at place p.
  function MovedDown(assoc: nat, q: nat, p: nat): nat {
    if q < assoc && q < p then q + 1 else q
  }

  // Touching u moves the tags before u one place down and leaves those behind it.
  lemma TouchedPosition(s: seq<Tag>, u: Tag, t: Tag)
    requires |s| > 0
    ensures Position(Touch(s, u), t) == if t == u then 0 else MovedDown(|s|, Position(s, t), Position(s, u))
  {
    var p, q, r := Position(s, u), Position(s, t), Touch(s, u);
    if t != u {
      assert forall i :: 0 < i < |s| ==> r[i] == if i <= p then s[i - 1] else s[i];
      OnlyPosition(r, t, if q < |s| && q < p then q + 1 else q);
    } else {
      OnlyPosition(r, t, 0);
    }
  }

  lemma StepOfPlace(assoc: nat, h: seq<Tag>, u: Tag, t: Tag)
    requires assoc > 0 && t != u
    requires UsedSince([0] + h + [u], t) == UsedSince([0] + h, t) + {u}
    requires LastUse([0] + h + [u], t) == LastUse([0] + h, t)
    ensures Place(assoc, h + [u], t) == MovedDown(assoc, Place(assoc, h, t), Place(assoc, h, u))
  {
    hide LastUse, UsedSince;
    var g := [0] + h;
    assert [0] + (h + [u]) == g + [u];
    if LastUse(g, t) >= 0 {
      if LastUse(g, u) < LastUse(g, t) {
        NearerWhenLater(g, t, u);
        assert |UsedSince(g, t) + {u}| == |UsedSince(g, t)| + 1;
      } else {
        assert LastUse(g, u) != LastUse(g, t);
        NearerWhenLater(g, u, t);
        assert UsedSince(g, t) + {u} == UsedSince(g, t);
      }
    }
  }

  lemma PlaceOfLast(assoc: nat, h: seq<Tag>, u: Tag)
    requires assoc > 0
    ensures Place(assoc, h + [u], u) == 0
  {
    assert [0] + (h + [u]) == [0] + h + [u];
    assert UsedSince([0] + h + [u], u) == {};
  }

  lemma {:induction false} PositionIsPlace(assoc: nat, h: seq<Tag>, t: Tag)
    requires assoc > 0
    ensures Position(After(assoc, h), t) == Place(assoc, h, t)
  {
    hide Position, Touch, UsedSince, Distance;
    if |h| == 0 {
      NoUse(assoc, t);
    } else {
      var h', u := h[..|h| - 1], h[|h| - 1];
      assert h == h' + [u];
      TouchedPosition(After(assoc, h'), u, t);
      if t == u {
        PlaceOfLast(assoc, h', u);
      } else {
        PositionIsPlace(assoc, h', t);
        PositionIsPlace(assoc, h', u);
        UseOfAnother([0] + h', u, t);
        StepOfPlace(assoc, h', u, t);
      }
    }
  }

  lemma NoUse(assoc: nat, t: Tag)
    requires assoc > 0
    ensures Position(Zeros(assoc), t) == Place(assoc, [], t)
  {
    assert [0] + [] == [0];
    OnlyPosition(Zeros(assoc), t, if t == 0 then 0 else assoc);
    if t == 0 {
      assert UsedSince([0], 0) == {};
    }
  }

  /**
   The LRU stack theorem: after any history, a reference misses a set of assoc tags if and
   only if its tag is unused so far or at least assoc different tags were used since.
   */
  lemma MissIsDistance(assoc: nat, h: seq<Tag>, t: Tag)
    requires assoc > 0
    ensures Missing(After(assoc, h), t)
       <==> (t !in [0] + h || Distance([0] + h, t) >= assoc)
  {
    PositionIsPlace(assoc, h, t);
  }
}
