module Partition {
  // The three-way partition of callgrind's quicksort on sequences: elements equal to the pivot
  // gather at both ends and are swapped into the middle afterwards.

  import opened Bindings

  type Elem = int
  type ElemCmp = Cmp<Elem>

  function Swapped(s: seq<Elem>, i: nat, j: nat): (r: seq<Elem>)
    requires i < |s| && j < |s|
    ensures |r| == |s|
    ensures forall k :: 0 <= k < |s| ==> r[k] == if k == i then s[j] else if k == j then s[i] else s[k]
  {
    s[i := s[j]][j := s[i]]
  }

  lemma SwappedPermutes(s: seq<Elem>, i: nat, j: nat)
    requires i < |s| && j < |s|
    ensures multiset(Swapped(s, i, j)) == multiset(s)
  {
  }

  // --- the pivot ---

  function Med3(s: seq<Elem>, a: nat, b: nat, c: nat, cmp: ElemCmp): (m: nat)
    requires a < |s| && b < |s| && c < |s|
    ensures m == a || m == b || m == c
  {
    if cmp(s[a], s[b]) < 0 then (if cmp(s[b], s[c]) < 0 then b else if cmp(s[a], s[c]) < 0 then c else a)
    else if cmp(s[b], s[c]) > 0 then b else if cmp(s[a], s[c]) > 0 then c else a
  }

  // The middle of a small range, a median of three or of three such medians of larger ones.
  function PivotAt(s: seq<Elem>, cmp: ElemCmp): (m: nat)
    requires |s| >= 7
    ensures m < |s|
  {
    var n := |s|;
    if n == 7 then n / 2
    else if n <= 40 then Med3(s, 0, n / 2, n - 1, cmp)
    else
      var e := n / 8;
      Med3(s, Med3(s, 0, e, 2 * e, cmp), Med3(s, n / 2 - e, n / 2, n / 2 + e, cmp),
           Med3(s, n - 1 - 2 * e, n - 1 - e, n - 1, cmp), cmp)
  }

  // One of three that is neither below both others nor above both.
  ghost predicate IsMedian(cmp: ElemCmp, v: Elem, x: Elem, y: Elem, z: Elem) {
    || (v == x && ((cmp(y, x) <= 0 && cmp(x, z) <= 0) || (cmp(z, x) <= 0 && cmp(x, y) <= 0)))
    || (v == y && ((cmp(x, y) <= 0 && cmp(y, z) <= 0) || (cmp(z, y) <= 0 && cmp(y, x) <= 0)))
    || (v == z && ((cmp(x, z) <= 0 && cmp(z, y) <= 0) || (cmp(y, z) <= 0 && cmp(z, x) <= 0)))
  }

  lemma Med3IsMedian(s: seq<Elem>, a: nat, b: nat, c: nat, cmp: ElemCmp)
    requires Order(cmp) && a < |s| && b < |s| && c < |s|
    ensures IsMedian(cmp, s[Med3(s, a, b, c, cmp)], s[a], s[b], s[c])
  {
  }

  /**
   The pivot is the middle element of seven, up to forty elements the median of the first, the
   middle and the last one, and beyond that the median of the medians of three elements at
   the front, around the middle and at the end, an eighth of the range apart.
   */
  lemma PivotIsMedian(s: seq<Elem>, cmp: ElemCmp)
    requires Order(cmp) && |s| >= 7
    ensures |s| == 7 ==> PivotAt(s, cmp) == 3
    ensures 7 < |s| <= 40 ==> IsMedian(cmp, s[PivotAt(s, cmp)], s[0], s[|s| / 2], s[|s| - 1])
    ensures |s| > 40 ==> var n, e := |s|, |s| / 8;
      exists x, y, z ::
        && IsMedian(cmp, s[PivotAt(s, cmp)], x, y, z)
        && IsMedian(cmp, x, s[0], s[e], s[2 * e])
        && IsMedian(cmp, y, s[n / 2 - e], s[n / 2], s[n / 2 + e])
        && IsMedian(cmp, z, s[n - 1 - 2 * e], s[n - 1 - e], s[n - 1])
  {
    hide Med3, IsMedian, Order;
    var n, e := |s|, |s| / 8;
    if 7 < n <= 40 {
      Med3IsMedian(s, 0, n / 2, n - 1, cmp);
    } else if n > 40 {
      var a, b, c := Med3(s, 0, e, 2 * e, cmp), Med3(s, n / 2 - e, n / 2, n / 2 + e, cmp), Med3(s, n - 1 - 2 * e, n - 1 - e, n - 1, cmp);
      Med3IsMedian(s, 0, e, 2 * e, cmp);
      Med3IsMedian(s, n / 2 - e, n / 2, n / 2 + e, cmp);
      Med3IsMedian(s, n - 1 - 2 * e, n - 1 - e, n - 1, cmp);
      Med3InRange(s, a, b, c, cmp);
      Med3IsMedian(s, a, b, c, cmp);
      assert PivotAt(s, cmp) == Med3(s, a, b, c, cmp);
      assert IsMedian(cmp, s[PivotAt(s, cmp)], s[a], s[b], s[c]);
    }
  }

  lemma Med3InRange(s: seq<Elem>, a: nat, b: nat, c: nat, cmp: ElemCmp)
    requires a < |s| && b < |s| && c < |s|
    ensures Med3(s, a, b, c, cmp) < |s|
  {
  }

  // --- the scans ---

  datatype State = State(s: seq<Elem>, pa: int, pb: int, pc: int, pd: int)

  ghost predicate InRange(st: State) {
    0 <= st.pa <= st.pb <= st.pc + 1 <= st.pd + 1 <= |st.s|
  }

  // From left to right: equal, smaller, not yet seen, greater, equal.
  ghost predicate Split(cmp: ElemCmp, v: Elem, st: State) {
    && InRange(st)
    && (forall k :: 0 <= k < st.pa ==> cmp(st.s[k], v) == 0)
    && (forall k :: st.pa <= k < st.pb ==> cmp(st.s[k], v) < 0)
    && (forall k :: st.pc < k <= st.pd ==> cmp(st.s[k], v) > 0)
    && (forall k :: st.pd < k < |st.s| ==> cmp(st.s[k], v) == 0)
  }

  function SkipLeft(cmp: ElemCmp, v: Elem, st: State): (r: State)
    requires InRange(st) && st.pb <= st.pc && cmp(st.s[st.pb], v) <= 0
    ensures InRange(r) && r.pc - r.pb < st.pc - st.pb
  {
    if cmp(st.s[st.pb], v) == 0 then State(Swapped(st.s, st.pa, st.pb), st.pa + 1, st.pb + 1, st.pc, st.pd)
    else st.(pb := st.pb + 1)
  }

  function SkipRight(cmp: ElemCmp, v: Elem, st: State): (r: State)
    requires InRange(st) && st.pb <= st.pc && cmp(st.s[st.pc], v) >= 0
    ensures InRange(r) && r.pc - r.pb < st.pc - st.pb
  {
    if cmp(st.s[st.pc], v) == 0 then State(Swapped(st.s, st.pc, st.pd), st.pa, st.pb, st.pc - 1, st.pd - 1)
    else st.(pc := st.pc - 1)
  }

  // A greater element on the left goes where a smaller one was on the right.
  function Exchange(st: State): (r: State)
    requires InRange(st) && st.pb < st.pc
    ensures InRange(r) && r.pc - r.pb < st.pc - st.pb
  {
    State(Swapped(st.s, st.pb, st.pc), st.pa, st.pb + 1, st.pc - 1, st.pd)
  }

  function Scan(cmp: ElemCmp, v: Elem, st: State): (r: State)
    requires InRange(st)
    ensures InRange(r) && r.pb == r.pc + 1 && |r.s| == |st.s|
    decreases st.pc - st.pb + 1
  {
    if st.pb > st.pc then st
    else if cmp(st.s[st.pb], v) <= 0 then Scan(cmp, v, SkipLeft(cmp, v, st))
    else if cmp(st.s[st.pc], v) >= 0 then Scan(cmp, v, SkipRight(cmp, v, st))
    else Scan(cmp, v, Exchange(st))
  }

  lemma SkipLeftSplits(cmp: ElemCmp, v: Elem, st: State)
    requires Split(cmp, v, st) && st.pb <= st.pc && cmp(st.s[st.pb], v) <= 0
    ensures Split(cmp, v, SkipLeft(cmp, v, st))
  {
    hide Swapped;
  }

  lemma SkipRightSplits(cmp: ElemCmp, v: Elem, st: State)
    requires Split(cmp, v, st) && st.pb <= st.pc && cmp(st.s[st.pc], v) >= 0
    ensures Split(cmp, v, SkipRight(cmp, v, st))
  {
    hide Swapped;
  }

  lemma ExchangeSplits(cmp: ElemCmp, v: Elem, st: State)
    requires Split(cmp, v, st) && st.pb < st.pc && cmp(st.s[st.pb], v) > 0 && cmp(st.s[st.pc], v) < 0
    ensures Split(cmp, v, Exchange(st))
  {
    hide Swapped;
  }

  lemma {:induction false} ScanSplits(cmp: ElemCmp, v: Elem, st: State)
    requires Split(cmp, v, st)
    ensures Split(cmp, v, Scan(cmp, v, st)) && multiset(Scan(cmp, v, st).s) == multiset(st.s)
    decreases st.pc - st.pb + 1
  {
    hide Split, Swapped;
    assert InRange(st) by { SplitInRange(cmp, v, st); }
    if st.pb > st.pc {
    } else if cmp(st.s[st.pb], v) <= 0 {
      SkipLeftSplits(cmp, v, st);
      SwappedPermutes(st.s, st.pa, st.pb);
      ScanSplits(cmp, v, SkipLeft(cmp, v, st));
    } else if cmp(st.s[st.pc], v) >= 0 {
      SkipRightSplits(cmp, v, st);
      SwappedPermutes(st.s, st.pc, st.pd);
      ScanSplits(cmp, v, SkipRight(cmp, v, st));
    } else {
      ExchangeSplits(cmp, v, st);
      SwappedPermutes(st.s, st.pb, st.pc);
      ScanSplits(cmp, v, Exchange(st));
    }
  }

  lemma SplitInRange(cmp: ElemCmp, v: Elem, st: State)
    requires Split(cmp, v, st)
    ensures InRange(st)
  {
  }

  // --- the equal elements go to the middle ---

  // Swaps the elements from i on with those from j on, k of them, one after the other.
  function SwapBlocks(s: seq<Elem>, i: nat, j: nat, k: nat): (r: seq<Elem>)
    requires i + k <= |s| && j + k <= |s|
    ensures |r| == |s|
  {
    if k == 0 then s else Swapped(SwapBlocks(s, i, j, k - 1), i + k - 1, j + k - 1)
  }

  lemma {:induction false} SwapBlocksPermutes(s: seq<Elem>, i: nat, j: nat, k: nat)
    requires i + k <= |s| && j + k <= |s|
    ensures multiset(SwapBlocks(s, i, j, k)) == multiset(s)
  {
    hide Swapped;
    if k > 0 {
      SwapBlocksPermutes(s, i, j, k - 1);
      SwappedPermutes(SwapBlocks(s, i, j, k - 1), i + k - 1, j + k - 1);
    }
  }

  lemma {:induction false} SwapBlocksElsewhere(s: seq<Elem>, i: nat, j: nat, k: nat, from: nat, to: nat)
    requires i + k <= |s| && j + k <= |s| && from <= to <= |s|
    requires (to <= i || i + k <= from) && (to <= j || j + k <= from)
    ensures SwapBlocks(s, i, j, k)[from..to] == s[from..to]
  {
    if k > 0 {
      SwapBlocksElsewhere(s, i, j, k - 1, from, to);
      SwappedElsewhere(SwapBlocks(s, i, j, k - 1), i + k - 1, j + k - 1, from, to);
    }
  }

  lemma SwappedElsewhere(s: seq<Elem>, i: nat, j: nat, from: nat, to: nat)
    requires i < |s| && j < |s| && from <= to <= |s|
    requires !(from <= i < to) && !(from <= j < to)
    ensures Swapped(s, i, j)[from..to] == s[from..to]
  {
    forall x | from <= x < to ensures Swapped(s, i, j)[x] == s[x] {
    }
  }

  // The signs of a stretch of comparisons with the pivot.
  ghost predicate AllEqual(cmp: ElemCmp, v: Elem, s: seq<Elem>, from: int, to: int)
    requires 0 <= from && to <= |s|
  {
    forall k :: from <= k < to ==> cmp(s[k], v) == 0
  }

  ghost predicate AllLess(cmp: ElemCmp, v: Elem, s: seq<Elem>, from: int, to: int)
    requires 0 <= from && to <= |s|
  {
    forall k :: from <= k < to ==> cmp(s[k], v) < 0
  }

  ghost predicate AllGreater(cmp: ElemCmp, v: Elem, s: seq<Elem>, from: int, to: int)
    requires 0 <= from && to <= |s|
  {
    forall k :: from <= k < to ==> cmp(s[k], v) > 0
  }

  // Not more equal elements at the start than smaller ones: the blocks change places.
  lemma {:induction false} LowerFits(cmp: ElemCmp, v: Elem, s: seq<Elem>, e: nat, l: nat, k: nat)
    requires e + l <= |s| && k <= e <= l && AllEqual(cmp, v, s, 0, e) && AllLess(cmp, v, s, e, e + l)
    ensures var r := SwapBlocks(s, 0, l, k);
      && AllLess(cmp, v, r, 0, k) && AllEqual(cmp, v, r, k, e) && AllLess(cmp, v, r, e, l)
      && AllEqual(cmp, v, r, l, l + k) && AllLess(cmp, v, r, l + k, e + l)
  {
    hide Swapped;
    if k > 0 {
      LowerFits(cmp, v, s, e, l, k - 1);
    }
  }

  // More of them: the first l places keep equal elements, smaller ones stay behind.
  lemma {:induction false} LowerOverlaps(cmp: ElemCmp, v: Elem, s: seq<Elem>, e: nat, l: nat, k: nat)
    requires e + l <= |s| && k <= e && l < e && AllEqual(cmp, v, s, 0, e) && AllLess(cmp, v, s, e, e + l)
    ensures var r := SwapBlocks(s, 0, l, k);
      if k <= e - l then AllEqual(cmp, v, r, 0, e) && AllLess(cmp, v, r, e, e + l)
      else
        && AllEqual(cmp, v, r, 0, e - l) && AllLess(cmp, v, r, e - l, k)
        && AllEqual(cmp, v, r, k, l + k) && AllLess(cmp, v, r, l + k, e + l)
  {
    hide Swapped;
    if k > 0 {
      LowerOverlaps(cmp, v, s, e, l, k - 1);
    }
  }

  // The upper blocks change places however large they are.
  lemma {:induction false} UpperRotates(cmp: ElemCmp, v: Elem, s: seq<Elem>, p: nat, g: nat, t: nat, k: nat)
    requires p + g + t == |s| && k <= t
    requires AllGreater(cmp, v, s, p, p + g) && AllEqual(cmp, v, s, p + g, |s|)
    ensures var r := SwapBlocks(s, p, p + g, k);
      && AllEqual(cmp, v, r, p, p + k) && AllGreater(cmp, v, r, p + k, p + k + g)
      && AllEqual(cmp, v, r, p + k + g, |s|)
  {
    hide Swapped;
    if k > 0 {
      UpperRotates(cmp, v, s, p, g, t, k - 1);
    }
  }
}
