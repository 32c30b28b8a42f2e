/**
 The simulator's code: an array of tags, the tags of a set moved down in place, and the
 references to a first-level and a last-level cache.
 */
module Caches {
  import opened Common
  import opened LruStack
  import opened CacheSim

  // --- the sets in the array of tags ---

  lemma {:induction false} InBounds(assoc: nat, sets: nat, s: nat)
    requires s < sets
    ensures s * assoc + assoc <= sets * assoc
  {
    TimesMonotone(s + 1, sets, assoc);
  }

  lemma {:induction false} SetsApart(assoc: nat, s: nat, u: nat)
    requires s < u
    ensures s * assoc + assoc <= u * assoc
  {
    InBounds(assoc, u, s);
  }

  function SetTags(ts: seq<Tag>, assoc: nat, sets: nat, s: nat): (r: seq<Tag>)
    requires |ts| == sets * assoc && s < sets
    ensures |r| == assoc
  {
    InBounds(assoc, sets, s);
    ts[s * assoc..s * assoc + assoc]
  }

  function Slices(ts: seq<Tag>, assoc: nat, sets: nat): (c: Lists)
    requires |ts| == sets * assoc
    ensures |c| == sets && forall s :: 0 <= s < sets ==> |c[s]| == assoc
  {
    seq(sets, s requires 0 <= s < sets => SetTags(ts, assoc, sets, s))
  }

  lemma SliceUpdated(ts: seq<Tag>, us: seq<Tag>, assoc: nat, sets: nat, s: nat)
    requires |ts| == |us| == sets * assoc && s < sets
    requires forall k :: 0 <= k < |ts| && !(s * assoc <= k < s * assoc + assoc) ==> us[k] == ts[k]
    ensures Slices(us, assoc, sets) == Slices(ts, assoc, sets)[s := SetTags(us, assoc, sets, s)]
  {
    forall u | 0 <= u < sets && u != s ensures SetTags(us, assoc, sets, u) == SetTags(ts, assoc, sets, u) {
      InBounds(assoc, sets, u);
      if u < s {
        SetsApart(assoc, u, s);
      } else {
        SetsApart(assoc, s, u);
      }
    }
  }

  // The front of a list moved down to place p, with t put first.
  function MovedDownTo(s: seq<Tag>, p: nat, t: Tag): seq<Tag>
    requires p < |s|
  {
    [t] + s[..p] + s[p + 1..]
  }

  lemma SliceMoved(ts: seq<Tag>, us: seq<Tag>, base: nat, assoc: nat, p: nat, t: Tag)
    requires base + assoc <= |ts| == |us| && p < assoc
    requires forall k {:trigger us[k]} :: 0 <= k < |ts| ==>
      us[k] == if k == base then t else if base < k <= base + p then ts[k - 1] else ts[k]
    ensures us[base..base + assoc] == MovedDownTo(ts[base..base + assoc], p, t)
  {
    var was := ts[base..base + assoc];
    forall i | 0 <= i < assoc ensures us[base + i] == MovedDownTo(was, p, t)[i] {
      var m := [t] + was[..p];
      if i == 0 {
        assert us[base] == t;
      } else if i <= p {
        assert m[i] == was[i - 1] == ts[base + i - 1] == us[base + i];
      } else {
        assert was[p + 1..][i - p - 1] == was[i] == ts[base + i] == us[base + i];
      }
    }
  }

  lemma SliceIsSet(ts: seq<Tag>, assoc: nat, sets: nat, s: nat)
    requires |ts| == sets * assoc && s < sets && s * assoc + assoc <= |ts|
    ensures ts[s * assoc..s * assoc + assoc] == SetTags(ts, assoc, sets, s) == Slices(ts, assoc, sets)[s]
  {
  }

  lemma AllZeros(ts: seq<Tag>, g: Geometry)
    requires g.Valid() && |ts| == g.sets * g.assoc && forall k :: 0 <= k < |ts| ==> ts[k] == 0
    ensures Slices(ts, g.assoc, g.sets) == Start(g)
  {
    hide PowerOfTwo;
    forall s | 0 <= s < g.sets ensures SetTags(ts, g.assoc, g.sets, s) == Zeros(g.assoc) {
      ZeroSet(ts, g.assoc, g.sets, s);
    }
  }

  lemma ZeroSet(ts: seq<Tag>, assoc: nat, sets: nat, s: nat)
    requires |ts| == sets * assoc && s < sets && forall k :: 0 <= k < |ts| ==> ts[k] == 0
    ensures SetTags(ts, assoc, sets, s) == Zeros(assoc)
  {
    InBounds(assoc, sets, s);
  }

  // What a reference does to a list whose first p tags are others.
  lemma FoundAt(s: seq<Tag>, t: Tag, p: nat)
    requires p <= |s| && |s| > 0 && (p < |s| ==> s[p] == t) && (forall i :: 0 <= i < p ==> s[i] != t)
    ensures Missing(s, t) <==> p == |s|
    ensures Touch(s, t) == MovedDownTo(s, if p == |s| then |s| - 1 else p, t)
    ensures p == 0 ==> Touch(s, t) == s
  {
    OnlyPosition(s, t, p);
    TouchMoves(s, t);
  }

  lemma TouchMoves(s: seq<Tag>, t: Tag)
    requires |s| > 0
    ensures Touch(s, t) == MovedDownTo(s, if Missing(s, t) then |s| - 1 else Position(s, t), t)
  {
  }

  method ShiftDownAt(tags: array<Tag>, base: nat, last: nat, tag: Tag)
    requires base + last < tags.Length
    modifies tags
    ensures forall k {:trigger tags[k]} :: 0 <= k < tags.Length ==>
      tags[k] == if k == base then tag else if base < k <= base + last then old(tags[k - 1]) else old(tags[k])
  {
    var j := last;
    while j > 0
      invariant 0 <= j <= last
      invariant forall k :: 0 <= k < tags.Length ==>
        tags[k] == if base + j < k <= base + last then old(tags[k - 1]) else old(tags[k])
    {
      tags[base + j] := tags[base + j - 1];
      j := j - 1;
    }
    tags[base] := tag;
  }

  class Cache {
    const g: Geometry
    const tags: array<Tag>

    ghost predicate Valid()
      reads this
    {
      g.Valid() && tags.Length == g.sets * g.assoc
    }

    // The tags of each set, most recent first.
    ghost function Contents(): (c: Lists)
      requires Valid()
      reads this, tags
      ensures Shape(g, c)
    {
      Slices(tags[..], g.assoc, g.sets)
    }

    constructor (g: Geometry)
      requires g.Valid()
      ensures Valid() && this.g == g && Contents() == Start(g) && fresh(tags)
    {
      this.g := g;
      tags := new Tag[g.sets * g.assoc](_ => 0);
      new;
      AllZeros(tags[..], g);
    }

    // Moves the tags of a set before place `last` one down and puts tag first.
    method ShiftDown(setNo: nat, last: nat, tag: Tag)
      requires Valid() && setNo < g.sets && last < g.assoc
      modifies tags
      ensures Contents() == old(Contents())[setNo := MovedDownTo(old(Contents()[setNo]), last, tag)]
    {
      hide SetTags, MovedDownTo, PowerOfTwo;
      InBounds(g.assoc, g.sets, setNo);
      ghost var was := tags[..];
      SliceIsSet(was, g.assoc, g.sets, setNo);
      ShiftDownAt(tags, setNo * g.assoc, last, tag);
      SliceUpdated(was, tags[..], g.assoc, g.sets, setNo);
      SliceMoved(was, tags[..], setNo * g.assoc, g.assoc, last, tag);
      SliceIsSet(tags[..], g.assoc, g.sets, setNo);
    }

    /** cachesim_setref_is_miss */
    method SetRefIsMiss(setNo: nat, tag: Tag) returns (miss: bool)
      requires Valid() && setNo < g.sets
      modifies tags
      ensures miss == Missing(old(Contents()[setNo]), tag)
      ensures Contents() == old(Contents())[setNo := Touch(old(Contents()[setNo]), tag)]
    {
      hide Touch, Missing, MovedDownTo, PowerOfTwo;
      InBounds(g.assoc, g.sets, setNo);
      var base := setNo * g.assoc;
      ghost var was := Contents()[setNo];
      assert forall k :: 0 <= k < g.assoc ==> was[k] == tags[base + k];
      if tag == tags[base] {
        FoundAt(was, tag, 0);
        return false;
      }
      var i := 1;
      while i < g.assoc
        invariant 1 <= i <= g.assoc
        invariant forall k :: 0 <= k < i ==> was[k] != tag
        invariant tags[..] == old(tags[..])
      {
        if tag == tags[base + i] {
          FoundAt(was, tag, i);
          ShiftDown(setNo, i, tag);
          return false;
        }
        i := i + 1;
      }
      FoundAt(was, tag, g.assoc);
      ShiftDown(setNo, g.assoc - 1, tag);
      return true;
    }

    method BlockIsMiss(block: Tag) returns (miss: bool)
      requires Valid()
      modifies tags
      ensures miss == BlockMisses(g, old(Contents()), block)
      ensures Contents() == TouchBlock(g, old(Contents()), block)
    {
      miss := SetRefIsMiss(g.Set(block), block);
    }

    // Both blocks are always referenced.
    method StraddleIsMiss(block1: Tag, block2: Tag) returns (miss: bool)
      requires Valid()
      modifies tags
      ensures miss == RefMisses(g, old(Contents()), [block1, block2])
      ensures Contents() == TouchAll(g, old(Contents()), [block1, block2])
    {
      hide Shape, TouchBlock, BlockMisses, Slices, TouchAll, RefMisses, PowerOfTwo;
      TwoBlocks(g, Contents(), block1, block2);
      miss := BlockIsMiss(block1);
      if miss {
        var _ := BlockIsMiss(block2);
      } else {
        miss := BlockIsMiss(block2);
      }
    }

    /** cachesim_ref_is_miss. Nothing is returned when the reference straddles more than two blocks. */
    method RefIsMiss(a: Addr, size: UChar) returns (ok: bool, miss: bool)
      requires Valid()
      modifies tags
      ensures ok == (Blocks(g.lineSize, Ref(a, size)) != [])
      ensures ok ==> miss == RefMisses(g, old(Contents()), Blocks(g.lineSize, Ref(a, size)))
      ensures Contents() == TouchAll(g, old(Contents()), Blocks(g.lineSize, Ref(a, size)))
      ensures ok ==> forall refs :: old(Contents()) == Run(g, refs) ==>
        miss == MissesNext(g, refs, Ref(a, size)) && Contents() == Run(g, refs + [Ref(a, size)])
    {
      hide Shape, TouchBlock, BlockMisses, Slices, TouchAll, RefMisses, PowerOfTwo, Run;
      hide FirstBlock, LastBlock;
      forall refs ensures Run(g, refs + [Ref(a, size)]) == TouchAll(g, Run(g, refs), Blocks(g.lineSize, Ref(a, size))) {
        OneMore(g, refs, Ref(a, size));
      }
      var block1, block2 := FirstBlock(g.lineSize, Ref(a, size)), LastBlock(g.lineSize, Ref(a, size));
      ok, miss := true, false;
      if block1 == block2 {
        OneBlock(g, Contents(), block1);
        miss := BlockIsMiss(block1);
      } else if (block1 + 1) % UWORD == block2 {
        miss := StraddleIsMiss(block1, block2);
      } else {
        NoBlock(g, Contents());
        ok := false;
      }
    }
  }

  lemma NoBlock(g: Geometry, c: Lists)
    requires Shape(g, c)
    ensures TouchAll(g, c, []) == c
  {
  }

  lemma OneBlock(g: Geometry, c: Lists, b: Tag)
    requires Shape(g, c)
    ensures TouchAll(g, c, [b]) == TouchBlock(g, c, b)
    ensures RefMisses(g, c, [b]) <==> BlockMisses(g, c, b)
  {
    assert [b][..0] == [];
    assert TouchAll(g, c, []) == c;
    if BlockMisses(g, c, b) {
      assert BlockMisses(g, TouchAll(g, c, [b][..0]), [b][0]);
    }
  }

  lemma {:induction false} TwoBlocks(g: Geometry, c: Lists, b: Tag, d: Tag)
    requires Shape(g, c)
    ensures TouchAll(g, c, [b, d]) == TouchBlock(g, TouchBlock(g, c, b), d)
    ensures RefMisses(g, c, [b, d]) <==> BlockMisses(g, c, b) || BlockMisses(g, TouchBlock(g, c, b), d)
  {
    var bs := [b, d];
    assert bs[..0] == [] && bs[..1] == [b];
    OneBlock(g, c, b);
    assert RefMisses(g, c, bs) <==>
           BlockMisses(g, TouchAll(g, c, bs[..0]), bs[0]) || BlockMisses(g, TouchAll(g, c, bs[..1]), bs[1]);
  }

  // --- two levels ---

  // cachesim_is_IrNoX: whether an instruction lies in one line, the same one for both caches.
  predicate IsIrNoX(i1: Geometry, ll: Geometry, a: Addr, size: UChar)
    requires i1.Valid()
  {
    i1.lineSize == ll.lineSize && FirstBlock(i1.lineSize, Ref(a, size)) == LastBlock(i1.lineSize, Ref(a, size))
  }

  /** For references that do not wrap around: all their bytes are in one line, of one size. */
  lemma {:induction false} NoXIsOneLine(i1: Geometry, ll: Geometry, a: Addr, size: UChar)
    requires i1.Valid() && size > 0 && a + size <= UWORD
    ensures IsIrNoX(i1, ll, a, size) <==>
      i1.lineSize == ll.lineSize && forall x: nat :: a <= x < a + size ==> x / i1.lineSize == a / i1.lineSize
  {
    hide PowerOfTwo;
    var last := a + size - 1;
    assert last % UWORD == last;
    forall x: nat | a <= x < a + size ensures a / i1.lineSize <= x / i1.lineSize <= last / i1.lineSize {
      DividesOrder(a, x, i1.lineSize);
      DividesOrder(x, last, i1.lineSize);
    }
    assert a <= last < a + size;
  }

  datatype Levels = Levels(first: Lists, last: Lists, m1: nat, mL: nat)

  // The effect of a reference on both levels: the last one sees the misses of the first only.
  ghost function LevelsAfter(i1: Geometry, ll: Geometry, v: Levels, r: Ref): Levels
    requires Shape(i1, v.first) && Shape(ll, v.last)
  {
    var bs, cs := Blocks(i1.lineSize, r), Blocks(ll.lineSize, r);
    if !RefMisses(i1, v.first, bs) then v.(first := TouchAll(i1, v.first, bs))
    else Levels(TouchAll(i1, v.first, bs), TouchAll(ll, v.last, cs), v.m1 + 1,
                v.mL + if RefMisses(ll, v.last, cs) then 1 else 0)
  }

  // Both levels after a trace.
  ghost function LevelsRun(i1: Geometry, ll: Geometry, refs: seq<Ref>): (v: Levels)
    requires i1.Valid() && ll.Valid()
    ensures Shape(i1, v.first) && Shape(ll, v.last)
  {
    if |refs| == 0 then Levels(Start(i1), Start(ll), 0, 0)
    else LevelsAfter(i1, ll, LevelsRun(i1, ll, refs[..|refs| - 1]), refs[|refs| - 1])
  }

  // The references of a trace that miss, in order.
  ghost function Missed(g: Geometry, refs: seq<Ref>): seq<Ref>
    requires g.Valid()
  {
    if |refs| == 0 then []
    else
      var before, r := refs[..|refs| - 1], refs[|refs| - 1];
      Missed(g, before) + (if MissesNext(g, before, r) then [r] else [])
  }

  lemma {:induction false} LevelsStep(i1: Geometry, ll: Geometry, v: Levels, before: seq<Ref>, m: seq<Ref>, r: Ref)
    requires i1.Valid() && ll.Valid() && v.first == Run(i1, before) && v.last == Run(ll, m)
    ensures LevelsAfter(i1, ll, v, r) ==
      if MissesNext(i1, before, r)
      then Levels(Run(i1, before + [r]), Run(ll, m + [r]), v.m1 + 1, v.mL + if MissesNext(ll, m, r) then 1 else 0)
      else v.(first := Run(i1, before + [r]))
  {
    hide PowerOfTwo, TouchAll, RefMisses, Blocks, Run;
    OneMore(i1, before, r);
    OneMore(ll, m, r);
  }

  /**
   Over every trace the first level is a cache of its own, the last level is one that is given
   the references missed by the first, and the counters are the misses of the two.
   */
  lemma {:induction false} LevelsOverTraces(i1: Geometry, ll: Geometry, refs: seq<Ref>)
    requires i1.Valid() && ll.Valid()
    ensures LevelsRun(i1, ll, refs)
         == Levels(Run(i1, refs), Run(ll, Missed(i1, refs)), Misses(i1, refs), Misses(ll, Missed(i1, refs)))
    ensures |Missed(i1, refs)| == Misses(i1, refs)
  {
    hide PowerOfTwo, MissesNext, Run, Misses, LevelsAfter, Missed, LevelsRun;
    if |refs| > 0 {
      var before, r := refs[..|refs| - 1], refs[|refs| - 1];
      var m := Missed(i1, before);
      assert refs == before + [r];
      LevelsOverTraces(i1, ll, before);
      LevelsOneMore(i1, ll, before, r);
      LevelsStep(i1, ll, LevelsRun(i1, ll, before), before, m, r);
      OneMore(i1, before, r);
      OneMore(ll, m, r);
    } else {
      NoReferences(i1, ll);
    }
  }

  lemma LevelsOneMore(i1: Geometry, ll: Geometry, refs: seq<Ref>, r: Ref)
    requires i1.Valid() && ll.Valid()
    ensures LevelsRun(i1, ll, refs + [r]) == LevelsAfter(i1, ll, LevelsRun(i1, ll, refs), r)
    ensures Missed(i1, refs + [r]) == if MissesNext(i1, refs, r) then Missed(i1, refs) + [r] else Missed(i1, refs)
  {
    hide PowerOfTwo, MissesNext, LevelsAfter;
    assert (refs + [r])[..|refs|] == refs;
  }

  lemma NoReferences(i1: Geometry, ll: Geometry)
    requires i1.Valid() && ll.Valid()
    ensures Missed(i1, []) == [] && Misses(i1, []) == Misses(ll, []) == 0
    ensures LevelsRun(i1, ll, []) == Levels(Run(i1, []), Run(ll, []), 0, 0)
  {
  }

  lemma OneMore(g: Geometry, refs: seq<Ref>, r: Ref)
    requires g.Valid()
    ensures Run(g, refs + [r]) == TouchAll(g, Run(g, refs), Blocks(g.lineSize, r))
    ensures Misses(g, refs + [r]) == Misses(g, refs) + (if MissesNext(g, refs, r) then 1 else 0)
  {
    assert (refs + [r])[..|refs|] == refs;
  }

  // No cache that is referenced finds more than two blocks.
  ghost predicate InTwoBlocks(i1: Geometry, ll: Geometry, v: Levels, r: Ref)
    requires Shape(i1, v.first) && Shape(ll, v.last)
  {
    var bs := Blocks(i1.lineSize, r);
    bs != [] && (RefMisses(i1, v.first, bs) ==> Blocks(ll.lineSize, r) != [])
  }

  class Hierarchy {
    const first: Cache
    const last: Cache
    var m1: nat
    var mL: nat

    ghost predicate Valid()
      reads this, first, last
    {
      first.Valid() && last.Valid() && first != last && first.tags != last.tags
    }

    ghost function State(): Levels
      requires Valid()
      reads this, first, last, first.tags, last.tags
    {
      Levels(first.Contents(), last.Contents(), m1, mL)
    }

    constructor (i1: Geometry, ll: Geometry)
      requires i1.Valid() && ll.Valid()
      ensures Valid() && first.g == i1 && last.g == ll && State() == Levels(Start(i1), Start(ll), 0, 0)
    {
      var c := new Cache(i1);
      var d := new Cache(ll);
      first, last, m1, mL := c, d, 0, 0;
    }

    /** cachesim_I1_doref_Gen, and cachesim_D1_doref for a data cache. */
    method DorefGen(a: Addr, size: UChar) returns (ok: bool)
      requires Valid()
      modifies this, first.tags, last.tags
      ensures Valid()
      ensures ok == InTwoBlocks(first.g, last.g, old(State()), Ref(a, size))
      ensures ok ==> State() == LevelsAfter(first.g, last.g, old(State()), Ref(a, size))
    {
      hide Shape, TouchBlock, BlockMisses, Slices, TouchAll, RefMisses, PowerOfTwo, Blocks;
      var miss;
      ok, miss := first.RefIsMiss(a, size);
      if ok && miss {
        m1 := m1 + 1;
        ok, miss := last.RefIsMiss(a, size);
        if ok && miss {
          mL := mL + 1;
        }
      }
    }

    /** cachesim_I1_doref_NoX: the cheaper code does what the general one does where it is chosen. */
    method DorefNoX(a: Addr, size: UChar)
      requires Valid() && IsIrNoX(first.g, last.g, a, size)
      modifies this, first.tags, last.tags
      ensures Valid() && State() == LevelsAfter(first.g, last.g, old(State()), Ref(a, size))
    {
      hide Shape, TouchBlock, BlockMisses, Slices, TouchAll, RefMisses, PowerOfTwo;
      var block := FirstBlock(first.g.lineSize, Ref(a, size));
      OneBlock(first.g, first.Contents(), block);
      OneBlock(last.g, last.Contents(), block);
      var miss := first.BlockIsMiss(block);
      if miss {
        m1 := m1 + 1;
        miss := last.BlockIsMiss(block);
        if miss {
          mL := mL + 1;
        }
      }
    }
  }
}
