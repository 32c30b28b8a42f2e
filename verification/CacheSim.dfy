module CacheSim {
  // The cache simulator over whole traces: references split into blocks, blocks sent to their
  // sets, and what a trace of references leaves in a cache and how often it misses.

  import opened Common
  import opened LruStack

  const UWORD: int := 0x1_0000_0000_0000_0000

  type Addr = a: int | 0 <= a < UWORD
  type UChar = c: int | 0 <= c < 256

  predicate PowerOfTwo(n: nat): (b: bool)
    ensures b ==> n > 0
  {
    n == 1 || (n > 1 && n % 2 == 0 && PowerOfTwo(n / 2))
  }

  // A checked configuration: shifts by the bits of lineSize divide, masks of sets - 1 take
  // remainders.
  datatype Geometry = Geometry(assoc: nat, sets: nat, lineSize: nat)
  {
    predicate Valid() {
      assoc > 0 && PowerOfTwo(sets) && PowerOfTwo(lineSize)
    }

    // The set of a block.
    function Set(block: Tag): (s: nat)
      requires Valid()
      ensures s < sets
    {
      block % sets
    }
  }

  datatype Ref = Ref(a: Addr, size: UChar)

  function FirstBlock(lineSize: nat, r: Ref): Tag
    requires lineSize > 0
  {
    r.a / lineSize
  }

  // The sum is one of machine words.
  function LastBlock(lineSize: nat, r: Ref): Tag
    requires lineSize > 0
  {
    ((r.a + r.size - 1) % UWORD) / lineSize
  }

  // The one or two blocks of a reference. There are none when it straddles more: the
  // simulator stops there.
  function Blocks(lineSize: nat, r: Ref): (bs: seq<Tag>)
    requires lineSize > 0
    ensures |bs| <= 2
  {
    var block1, block2 := FirstBlock(lineSize, r), LastBlock(lineSize, r);
    if block1 == block2 then [block1]
    else if (block1 + 1) % UWORD == block2 then [block1, block2]
    else []
  }

  // --- one cache ---

  type Lists = seq<seq<Tag>>

  ghost predicate Shape(g: Geometry, c: Lists) {
    g.Valid() && |c| == g.sets && forall s :: 0 <= s < |c| ==> |c[s]| == g.assoc
  }

  function TouchBlock(g: Geometry, c: Lists, b: Tag): (r: Lists)
    requires Shape(g, c)
    ensures Shape(g, r)
  {
    c[g.Set(b) := Touch(c[g.Set(b)], b)]
  }

  predicate BlockMisses(g: Geometry, c: Lists, b: Tag)
    requires Shape(g, c)
  {
    Missing(c[g.Set(b)], b)
  }

  function TouchAll(g: Geometry, c: Lists, bs: seq<Tag>): (r: Lists)
    requires Shape(g, c)
    ensures Shape(g, r)
  {
    if |bs| == 0 then c else TouchBlock(g, TouchAll(g, c, bs[..|bs| - 1]), bs[|bs| - 1])
  }

  // A reference misses when one of its blocks does; it counts once.
  predicate RefMisses(g: Geometry, c: Lists, bs: seq<Tag>)
    requires Shape(g, c)
  {
    exists i :: 0 <= i < |bs| && BlockMisses(g, TouchAll(g, c, bs[..i]), bs[i])
  }

  function Start(g: Geometry): (c: Lists)
    requires g.Valid()
    ensures Shape(g, c)
  {
    seq(g.sets, _ => Zeros(g.assoc))
  }

  // All blocks of a trace, in order.
  function Trace(lineSize: nat, refs: seq<Ref>): seq<Tag>
    requires lineSize > 0
  {
    if |refs| == 0 then [] else Trace(lineSize, refs[..|refs| - 1]) + Blocks(lineSize, refs[|refs| - 1])
  }

  function Run(g: Geometry, refs: seq<Ref>): (c: Lists)
    requires g.Valid()
    ensures Shape(g, c)
  {
    if |refs| == 0 then Start(g)
    else TouchAll(g, Run(g, refs[..|refs| - 1]), Blocks(g.lineSize, refs[|refs| - 1]))
  }

  // Whether reference r misses after a trace.
  predicate MissesNext(g: Geometry, refs: seq<Ref>, r: Ref)
    requires g.Valid()
  {
    RefMisses(g, Run(g, refs), Blocks(g.lineSize, r))
  }

  function Misses(g: Geometry, refs: seq<Ref>): nat
    requires g.Valid()
  {
    if |refs| == 0 then 0
    else
      var before := refs[..|refs| - 1];
      Misses(g, before) + (if MissesNext(g, before, refs[|refs| - 1]) then 1 else 0)
  }

  // --- the history of one set ---

  function OfSet(g: Geometry, bs: seq<Tag>, s: nat): seq<Tag>
    requires g.Valid()
  {
    if |bs| == 0 then []
    else
      var b := bs[|bs| - 1];
      OfSet(g, bs[..|bs| - 1], s) + (if g.Set(b) == s then [b] else [])
  }

  lemma {:induction false} TouchAllAppends(g: Geometry, c: Lists, xs: seq<Tag>, ys: seq<Tag>)
    requires Shape(g, c)
    ensures TouchAll(g, TouchAll(g, c, xs), ys) == TouchAll(g, c, xs + ys)
  {
    hide Touch;
    if |ys| == 0 {
      assert xs + ys == xs;
    } else {
      assert (xs + ys)[..|xs + ys| - 1] == xs + ys[..|ys| - 1];
      TouchAllAppends(g, c, xs, ys[..|ys| - 1]);
    }
  }

  lemma {:induction false} RunIsTouchAll(g: Geometry, refs: seq<Ref>)
    requires g.Valid()
    ensures Run(g, refs) == TouchAll(g, Start(g), Trace(g.lineSize, refs))
  {
    if |refs| > 0 {
      var before, bs := refs[..|refs| - 1], Blocks(g.lineSize, refs[|refs| - 1]);
      RunIsTouchAll(g, before);
      TouchAllAppends(g, Start(g), Trace(g.lineSize, before), bs);
    }
  }

  /** Each set is the list of its own blocks, whatever the others do. */
  lemma {:induction false} SetsAreIndependent(g: Geometry, bs: seq<Tag>, s: nat)
    requires g.Valid() && s < g.sets
    ensures TouchAll(g, Start(g), bs)[s] == After(g.assoc, OfSet(g, bs, s))
  {
    hide Touch, Position, PowerOfTwo;
    if |bs| > 0 {
      var b, front := bs[|bs| - 1], OfSet(g, bs[..|bs| - 1], s);
      SetsAreIndependent(g, bs[..|bs| - 1], s);
      if g.Set(b) == s {
        AfterOneMore(g.assoc, front, b);
      } else {
        assert OfSet(g, bs, s) == front;
      }
    }
  }

  // The block is new to its set, or assoc others were used there since.
  ghost predicate FarAway(g: Geometry, history: seq<Tag>, b: Tag)
    requires g.Valid()
  {
    var h := [0] + OfSet(g, history, g.Set(b));
    b !in h || Distance(h, b) >= g.assoc
  }

  /**
   After any trace, a reference misses if and only if one of its blocks is too far back in
   the history of its set, the first block of a straddling reference being history for the
   second one.
   */
  lemma {:induction false} MissesByDistance(g: Geometry, refs: seq<Ref>, bs: seq<Tag>)
    requires g.Valid()
    ensures RefMisses(g, Run(g, refs), bs)
       <==> exists i :: 0 <= i < |bs| && FarAway(g, Trace(g.lineSize, refs) + bs[..i], bs[i])
  {
    hide Distance, Missing, TouchAll, OfSet, After;
    var c, t := Run(g, refs), Trace(g.lineSize, refs);
    forall i | 0 <= i < |bs|
      ensures BlockMisses(g, TouchAll(g, c, bs[..i]), bs[i]) <==> FarAway(g, t + bs[..i], bs[i])
    {
      RunIsTouchAll(g, refs);
      TouchAllAppends(g, Start(g), t, bs[..i]);
      SetsAreIndependent(g, t + bs[..i], g.Set(bs[i]));
      MissIsDistance(g.assoc, OfSet(g, t + bs[..i], g.Set(bs[i])), bs[i]);
    }
  }

  // --- the same in arithmetic ---

  // A reference of at least one byte that does not wrap around and meets at most two lines.
  predicate Ordinary(lineSize: nat, r: Ref)
    requires lineSize > 0
  {
    r.size > 0 && r.a + r.size <= UWORD && (r.a + r.size - 1) / lineSize <= r.a / lineSize + 1
  }

  // The lines from that of its first byte to that of its last one.
  function LinesOf(lineSize: nat, r: Ref): seq<nat>
    requires lineSize > 0 && Ordinary(lineSize, r)
  {
    var first, last := r.a / lineSize, (r.a + r.size - 1) / lineSize;
    if first == last then [first] else [first, last]
  }

  function Lines(lineSize: nat, refs: seq<Ref>): seq<nat>
    requires lineSize > 0 && forall i :: 0 <= i < |refs| ==> Ordinary(lineSize, refs[i])
  {
    if |refs| == 0 then []
    else Lines(lineSize, refs[..|refs| - 1]) + LinesOf(lineSize, refs[|refs| - 1])
  }

  // The other lines with the same remainder that were used after the last use of line b, all of
  // them when there is none.
  ghost function Rivals(sets: nat, uses: seq<nat>, b: nat): set<nat>
    requires sets > 0
  {
    set j | 0 <= j < |uses| && uses[j] % sets == b % sets && uses[j] != b
            && (forall i :: j < i < |uses| ==> uses[i] != b) :: uses[j]
  }

  // Line b is not in a cache after these uses; line 0 is there from the start.
  ghost predicate FarBack(assoc: nat, sets: nat, uses: seq<nat>, b: nat)
    requires sets > 0
  {
    (b != 0 && b !in uses) || |Rivals(sets, uses, b)| >= assoc
  }

  lemma DividesOrder(x: nat, y: nat, d: nat)
    requires d > 0 && x <= y
    ensures x / d <= y / d <= y
  {
    var q, p := x / d, y / d;
    assert d * q <= x && y < d * p + d;
    if q > p { TimesMonotone(p + 1, q, d); }
    TimesMonotone(1, d, p);
  }

  lemma {:induction false} BlocksAreLines(lineSize: nat, r: Ref)
    requires lineSize > 0 && Ordinary(lineSize, r)
    ensures Blocks(lineSize, r) == LinesOf(lineSize, r)
  {
    var last := r.a + r.size - 1;
    WordKept(last);
    DividesOrder(r.a, last, lineSize);
    WordKept(last / lineSize);
    var block1, block2 := FirstBlock(lineSize, r), LastBlock(lineSize, r);
    assert block2 == last / lineSize && block1 <= block2 <= block1 + 1;
    if block2 == block1 + 1 {
      assert (block1 + 1) % UWORD == block2;
    }
  }

  lemma WordKept(x: nat)
    requires x < UWORD
    ensures x % UWORD == x
  {
  }

  lemma {:induction false} TraceIsLines(lineSize: nat, refs: seq<Ref>)
    requires lineSize > 0 && forall i :: 0 <= i < |refs| ==> Ordinary(lineSize, refs[i])
    ensures Trace(lineSize, refs) == Lines(lineSize, refs)
  {
    if |refs| > 0 {
      TraceIsLines(lineSize, refs[..|refs| - 1]);
      BlocksAreLines(lineSize, refs[|refs| - 1]);
    }
  }

  lemma {:induction false} RivalsStep(sets: nat, uses: seq<nat>, u: nat, b: nat)
    requires sets > 0
    ensures Rivals(sets, uses + [u], b)
         == if u == b then {} else Rivals(sets, uses, b) + (if u % sets == b % sets then {u} else {})
  {
    var more := uses + [u];
    assert more[|uses|] == u;
    assert forall j :: 0 <= j < |uses| ==> more[j] == uses[j];
    if u != b {
      forall x | x in Rivals(sets, uses, b) ensures x in Rivals(sets, more, b) {
        var j :| 0 <= j < |uses| && uses[j] % sets == b % sets && uses[j] != b && uses[j] == x
                 && (forall i :: j < i < |uses| ==> uses[i] != b);
        assert more[j] == x;
      }
    }
  }

  // The history of a set of a cache against the remainders.
  lemma {:induction false} UsedSinceIsRivals(g: Geometry, uses: seq<nat>, b: nat)
    requires g.Valid()
    ensures b in [0] + OfSet(g, uses, g.Set(b)) <==> b == 0 || b in uses
    ensures b == 0 || b in uses ==> UsedSince([0] + OfSet(g, uses, g.Set(b)), b) == Rivals(g.sets, uses, b)
  {
    hide PowerOfTwo, Rivals, LastUse;
    if |uses| == 0 {
      StartOfSet(g, b);
    } else {
      var front, u := uses[..|uses| - 1], uses[|uses| - 1];
      assert uses == front + [u];
      UsedSinceIsRivals(g, front, b);
      RivalsStep(g.sets, front, u, b);
      var h := [0] + OfSet(g, front, g.Set(b));
      if u == b {
        assert [0] + OfSet(g, uses, g.Set(b)) == h + [b];
        assert (h + [b])[|h|] == b;
        assert UsedSince(h + [b], b) == {};
      } else if g.Set(u) == g.Set(b) {
        assert [0] + OfSet(g, uses, g.Set(b)) == h + [u];
        UseOfAnother(h, u, b);
      } else {
        assert OfSet(g, uses, g.Set(b)) == OfSet(g, front, g.Set(b));
      }
    }
  }

  lemma StartOfSet(g: Geometry, b: nat)
    requires g.Valid()
    ensures [0] + OfSet(g, [], g.Set(b)) == [0]
    ensures b == 0 ==> UsedSince([0], b) == Rivals(g.sets, [], b) == {}
  {
  }

  lemma {:induction false} FarAwayIsFarBack(g: Geometry, uses: seq<nat>, b: nat)
    requires g.Valid()
    ensures FarAway(g, uses, b) <==> FarBack(g.assoc, g.sets, uses, b)
  {
    hide PowerOfTwo, Rivals, UsedSince, OfSet;
    UsedSinceIsRivals(g, uses, b);
  }

  /**
   In arithmetic alone: after a trace, a reference misses if and only if for one of its lines
   b, used after its lines before b, there is no earlier use (line 0 counts as used from the
   start) or at least assoc other lines were used since that leave the same remainder by the
   number of sets.
   */
  lemma {:induction false} MissesInArithmetic(g: Geometry, refs: seq<Ref>, r: Ref)
    requires g.Valid() && Ordinary(g.lineSize, r) && forall i :: 0 <= i < |refs| ==> Ordinary(g.lineSize, refs[i])
    ensures MissesNext(g, refs, r)
       <==> exists i :: 0 <= i < |LinesOf(g.lineSize, r)| &&
              FarBack(g.assoc, g.sets, Lines(g.lineSize, refs) + LinesOf(g.lineSize, r)[..i], LinesOf(g.lineSize, r)[i])
  {
    hide PowerOfTwo, FarBack, FarAway, RefMisses, Run, Ordinary, Blocks, LinesOf, Lines, Trace;
    var bs, t := LinesOf(g.lineSize, r), Lines(g.lineSize, refs);
    BlocksAreLines(g.lineSize, r);
    TraceIsLines(g.lineSize, refs);
    MissesByDistance(g, refs, bs);
    forall i | 0 <= i < |bs| ensures FarAway(g, t + bs[..i], bs[i]) <==> FarBack(g.assoc, g.sets, t + bs[..i], bs[i]) {
      FarAwayIsFarBack(g, t + bs[..i], bs[i]);
    }
  }

  // --- a smaller and a larger cache ---

  // The same lines and sets, the sets of c being front parts of those of d.
  ghost predicate Included(g: Geometry, c: Lists, k: Geometry, d: Lists) {
    && Shape(g, c) && Shape(k, d) && g.sets == k.sets && g.assoc <= k.assoc
    && forall s :: 0 <= s < |c| ==> c[s] == d[s][..g.assoc]
  }

  lemma TouchKeepsIncluded(g: Geometry, c: Lists, k: Geometry, d: Lists, b: Tag)
    requires Included(g, c, k, d)
    ensures Included(g, TouchBlock(g, c, b), k, TouchBlock(k, d, b))
    ensures BlockMisses(k, d, b) ==> BlockMisses(g, c, b)
  {
    TouchKeepsPrefix(d[k.Set(b)], g.assoc, b);
  }

  lemma {:induction false} TouchAllKeepsIncluded(g: Geometry, c: Lists, k: Geometry, d: Lists, bs: seq<Tag>)
    requires Included(g, c, k, d)
    ensures Included(g, TouchAll(g, c, bs), k, TouchAll(k, d, bs))
  {
    if |bs| > 0 {
      var front := bs[..|bs| - 1];
      TouchAllKeepsIncluded(g, c, k, d, front);
      TouchKeepsIncluded(g, TouchAll(g, c, front), k, TouchAll(k, d, front), bs[|bs| - 1]);
    }
  }

  lemma MissesOfLargerMissSmaller(g: Geometry, c: Lists, k: Geometry, d: Lists, bs: seq<Tag>)
    requires Included(g, c, k, d)
    ensures RefMisses(k, d, bs) ==> RefMisses(g, c, bs)
  {
    forall i | 0 <= i < |bs| && BlockMisses(k, TouchAll(k, d, bs[..i]), bs[i])
      ensures BlockMisses(g, TouchAll(g, c, bs[..i]), bs[i])
    {
      TouchAllKeepsIncluded(g, c, k, d, bs[..i]);
      TouchKeepsIncluded(g, TouchAll(g, c, bs[..i]), k, TouchAll(k, d, bs[..i]), bs[i]);
    }
  }

  /**
   With equal lines and sets, the cache of lower associativity always holds front parts of
   the other's sets and never has fewer misses.
   */
  lemma {:induction false} InclusionOverTraces(g: Geometry, k: Geometry, refs: seq<Ref>)
    requires g.Valid() && k.Valid() && g.sets == k.sets && g.lineSize == k.lineSize && g.assoc <= k.assoc
    ensures Included(g, Run(g, refs), k, Run(k, refs))
    ensures Misses(k, refs) <= Misses(g, refs)
  {
    if |refs| > 0 {
      var before, bs := refs[..|refs| - 1], Blocks(g.lineSize, refs[|refs| - 1]);
      InclusionOverTraces(g, k, before);
      TouchAllKeepsIncluded(g, Run(g, before), k, Run(k, before), bs);
      MissesOfLargerMissSmaller(g, Run(g, before), k, Run(k, before), bs);
    }
  }
}
