module Quicksort {
  // callgrind's in-place quicksort. It permutes its range for every consistent comparison, and
  // sorts it exactly when no partition meets more elements equal to the pivot at the start than
  // smaller ones, and at least one smaller one.

  import opened Bindings
  import opened Partition

  // --- one level on sequences ---

  function Scanned(cmp: ElemCmp, s: seq<Elem>): (st: State)
    requires |s| >= 7
    ensures InRange(st) && st.pb == st.pc + 1 && |st.s| == |s|
  {
    Scan(cmp, s[PivotAt(s, cmp)], State(s, 0, 0, |s| - 1, |s| - 1))
  }

  // The number of equal elements found at the start, of smaller and of greater ones.
  function EqualAtStart(cmp: ElemCmp, s: seq<Elem>): nat
    requires |s| >= 7
  {
    Scanned(cmp, s).pa
  }

  function Less(cmp: ElemCmp, s: seq<Elem>): nat
    requires |s| >= 7
  {
    Scanned(cmp, s).pb - Scanned(cmp, s).pa
  }

  function Greater(cmp: ElemCmp, s: seq<Elem>): nat
    requires |s| >= 7
  {
    Scanned(cmp, s).pd + 1 - Scanned(cmp, s).pb
  }

  // The sequence before the recursive calls.
  function Arranged(cmp: ElemCmp, s: seq<Elem>): (r: seq<Elem>)
    requires |s| >= 7
    ensures |r| == |s|
  {
    var st, n := Scanned(cmp, s), |s|;
    SwapBlocks(SwapBlocks(st.s, 0, st.pb - st.pa, st.pa), st.pb, st.pd + 1, n - 1 - st.pd)
  }

  ghost predicate InOrder(cmp: ElemCmp, s: seq<Elem>) {
    forall i, j :: 0 <= i < j < |s| ==> cmp(s[i], s[j]) <= 0
  }

  // The lower block is put in the middle as it should be.
  predicate LowerBlockFits(cmp: ElemCmp, s: seq<Elem>)
    requires |s| >= 7
  {
    EqualAtStart(cmp, s) <= Less(cmp, s) || Less(cmp, s) == 0
  }

  // This holds at every level of the recursion.
  ghost predicate AlwaysFits(cmp: ElemCmp, s: seq<Elem>)
    requires Order(cmp)
    decreases |s|
  {
    |s| < 7 ||
    (LowerBlockFits(cmp, s) &&
     (PivotStaysOut(cmp, s);
      && AlwaysFits(cmp, Arranged(cmp, s)[..Less(cmp, s)])
      && AlwaysFits(cmp, Arranged(cmp, s)[|s| - Greater(cmp, s)..])))
  }

  lemma ScannedSplits(cmp: ElemCmp, s: seq<Elem>)
    requires |s| >= 7
    ensures Split(cmp, s[PivotAt(s, cmp)], Scanned(cmp, s)) && multiset(Scanned(cmp, s).s) == multiset(s)
  {
    hide Scan, PivotAt;
    ScanSplits(cmp, s[PivotAt(s, cmp)], State(s, 0, 0, |s| - 1, |s| - 1));
  }

  // The pivot is in neither of the ranges that are sorted next.
  lemma PivotStaysOut(cmp: ElemCmp, s: seq<Elem>)
    requires Order(cmp) && |s| >= 7
    ensures Less(cmp, s) + Greater(cmp, s) < |s|
  {
    hide Scan, PivotAt, Scanned, Order;
    var v, st := s[PivotAt(s, cmp)], Scanned(cmp, s);
    ScannedSplits(cmp, s);
    assert v in multiset(s) && v in st.s;
    var k :| 0 <= k < |st.s| && st.s[k] == v;
    Reflexive(cmp, v);
  }

  lemma ArrangedPermutes(cmp: ElemCmp, s: seq<Elem>)
    requires |s| >= 7
    ensures multiset(Arranged(cmp, s)) == multiset(s)
  {
    hide Scan, PivotAt, Scanned, SwapBlocks;
    var st, n := Scanned(cmp, s), |s|;
    ScannedSplits(cmp, s);
    SwapBlocksPermutes(st.s, 0, st.pb - st.pa, st.pa);
    SwapBlocksPermutes(SwapBlocks(st.s, 0, st.pb - st.pa, st.pa), st.pb, st.pd + 1, n - 1 - st.pd);
  }

  // The upper end is right in any case: equal elements, then greater ones.
  lemma UpperArranged(cmp: ElemCmp, s: seq<Elem>)
    requires |s| >= 7
    ensures var z, v, p := Arranged(cmp, s), s[PivotAt(s, cmp)], Scanned(cmp, s).pb;
      && AllEqual(cmp, v, z, p, |s| - Greater(cmp, s)) && AllGreater(cmp, v, z, |s| - Greater(cmp, s), |s|)
      && z[..p] == SwapBlocks(Scanned(cmp, s).s, 0, Less(cmp, s), EqualAtStart(cmp, s))[..p]
  {
    hide Scan, PivotAt, Scanned, SwapBlocks;
    var st, n, v := Scanned(cmp, s), |s|, s[PivotAt(s, cmp)];
    ScannedSplits(cmp, s);
    var y := SwapBlocks(st.s, 0, st.pb - st.pa, st.pa);
    SwapBlocksElsewhere(st.s, 0, st.pb - st.pa, st.pa, st.pb, n);
    forall k | st.pb <= k < n ensures y[k] == st.s[k] {
      assert y[k] == y[st.pb..n][k - st.pb] && st.s[k] == st.s[st.pb..n][k - st.pb];
    }
    var g, t := Greater(cmp, s), n - 1 - st.pd;
    UpperRotates(cmp, v, y, st.pb, g, t, t);
    SwapBlocksElsewhere(y, st.pb, st.pd + 1, t, 0, st.pb);
    assert y[0..st.pb] == y[..st.pb];
    var z := SwapBlocks(y, st.pb, st.pd + 1, t);
    assert z[0..st.pb] == z[..st.pb];
  }

  // A lower block that fits ends up as smaller elements, then equal ones.
  lemma LowerArranged(cmp: ElemCmp, s: seq<Elem>)
    requires |s| >= 7 && LowerBlockFits(cmp, s)
    ensures var z, v, l := Arranged(cmp, s), s[PivotAt(s, cmp)], Less(cmp, s);
      AllLess(cmp, v, z, 0, l) && AllEqual(cmp, v, z, l, |s| - Greater(cmp, s))
  {
    hide Scan, PivotAt, Scanned, SwapBlocks, Arranged;
    var st, v, e, l := Scanned(cmp, s), s[PivotAt(s, cmp)], EqualAtStart(cmp, s), Less(cmp, s);
    ScannedSplits(cmp, s);
    UpperArranged(cmp, s);
    if e <= l {
      LowerFits(cmp, v, st.s, e, l, e);
    } else {
      LowerOverlaps(cmp, v, st.s, e, l, e);
    }
    var y, z := SwapBlocks(st.s, 0, l, e), Arranged(cmp, s);
    assert forall k :: 0 <= k < e + l ==> z[k] == z[..e + l][k] == y[k];
  }

  // One that does not fit leaves an equal element before a smaller one out of the recursion's reach.
  lemma LowerSpoiled(cmp: ElemCmp, s: seq<Elem>)
    requires |s| >= 7 && !LowerBlockFits(cmp, s)
    ensures var z, v, e, l := Arranged(cmp, s), s[PivotAt(s, cmp)], EqualAtStart(cmp, s), Less(cmp, s);
      0 < l < e && e + l + Greater(cmp, s) <= |s| && cmp(z[0], v) == 0 && cmp(z[e - 1], v) < 0
  {
    hide Scan, PivotAt, Scanned, SwapBlocks, Arranged;
    var st, v, e, l := Scanned(cmp, s), s[PivotAt(s, cmp)], EqualAtStart(cmp, s), Less(cmp, s);
    ScannedSplits(cmp, s);
    UpperArranged(cmp, s);
    LowerOverlaps(cmp, v, st.s, e, l, e);
    var y, z := SwapBlocks(st.s, 0, l, e), Arranged(cmp, s);
    assert forall k :: 0 <= k < e + l ==> z[k] == z[..e + l][k] == y[k];
  }

  // --- the level after the recursive calls ---

  // w is the arranged sequence with its two outer ranges permuted.
  ghost predicate OuterPermuted(cmp: ElemCmp, s: seq<Elem>, w: seq<Elem>)
    requires |s| >= 7
  {
    var z, l, g := Arranged(cmp, s), Less(cmp, s), Greater(cmp, s);
    && |w| == |s| && l + g <= |s|
    && multiset(w[..l]) == multiset(z[..l])
    && w[l..|s| - g] == z[l..|s| - g]
    && multiset(w[|s| - g..]) == multiset(z[|s| - g..])
  }

  lemma OuterPermutes(cmp: ElemCmp, s: seq<Elem>, w: seq<Elem>)
    requires |s| >= 7 && OuterPermuted(cmp, s, w)
    ensures multiset(w) == multiset(s)
  {
    hide Scanned, Arranged, Less, Greater;
    ArrangedPermutes(cmp, s);
    var z, l, h := Arranged(cmp, s), Less(cmp, s), |s| - Greater(cmp, s);
    assert w == w[..l] + w[l..h] + w[h..];
    assert z == z[..l] + z[l..h] + z[h..];
  }

  // A permutation of a range has its signs.
  lemma SignsKept(cmp: ElemCmp, v: Elem, s: seq<Elem>, w: seq<Elem>)
    requires multiset(w) == multiset(s)
    ensures |w| == |s|
    ensures (forall k :: 0 <= k < |s| ==> cmp(s[k], v) < 0) ==> forall k :: 0 <= k < |w| ==> cmp(w[k], v) < 0
    ensures (forall k :: 0 <= k < |s| ==> cmp(s[k], v) > 0) ==> forall k :: 0 <= k < |w| ==> cmp(w[k], v) > 0
    ensures (exists k :: 0 <= k < |s| && cmp(s[k], v) == 0) ==> exists k :: 0 <= k < |w| && cmp(w[k], v) == 0
  {
    assert |w| == |multiset(w)| && |s| == |multiset(s)|;
    forall k | 0 <= k < |w| ensures w[k] in s {
      assert w[k] in multiset(w);
    }
    forall k | 0 <= k < |s| ensures s[k] in w {
      assert s[k] in multiset(s);
    }
  }

  lemma AcrossPivot(cmp: ElemCmp, a: Elem, v: Elem, b: Elem)
    requires Order(cmp) && cmp(a, v) <= 0 && cmp(b, v) >= 0
    ensures cmp(a, b) <= 0
    ensures cmp(a, v) < 0 || cmp(b, v) > 0 ==> cmp(b, a) > 0
  {
    Flip(cmp, b, v);
    Chain(cmp, a, v, b);
    Flip(cmp, a, b);
  }

  // Smaller, equal and greater elements in a row are in order when the outer ones are.
  lemma InOrderByParts(cmp: ElemCmp, v: Elem, w: seq<Elem>, l: nat, h: nat)
    requires Order(cmp) && l <= h <= |w|
    requires AllLess(cmp, v, w, 0, l) && AllEqual(cmp, v, w, l, h) && AllGreater(cmp, v, w, h, |w|)
    ensures InOrder(cmp, w) <==> InOrder(cmp, w[..l]) && InOrder(cmp, w[h..])
  {
    hide Order;
    var lower, upper := w[..l], w[h..];
    if InOrder(cmp, lower) && InOrder(cmp, upper) {
      forall i, j | 0 <= i < j < |w| ensures cmp(w[i], w[j]) <= 0 {
        if j < l {
          assert lower[i] == w[i] && lower[j] == w[j];
        } else if i >= h {
          assert upper[i - h] == w[i] && upper[j - h] == w[j];
        } else {
          AcrossPivot(cmp, w[i], v, w[j]);
        }
      }
    }
    if InOrder(cmp, w) {
      assert forall k :: 0 <= k < |upper| ==> upper[k] == w[h + k];
    }
  }

  lemma PartsKeepSigns(cmp: ElemCmp, v: Elem, z: seq<Elem>, w: seq<Elem>, l: nat, h: nat)
    requires l <= h <= |z| == |w|
    requires AllLess(cmp, v, z, 0, l) && AllEqual(cmp, v, z, l, h) && AllGreater(cmp, v, z, h, |z|)
    requires multiset(w[..l]) == multiset(z[..l]) && w[l..h] == z[l..h] && multiset(w[h..]) == multiset(z[h..])
    ensures AllLess(cmp, v, w, 0, l) && AllEqual(cmp, v, w, l, h) && AllGreater(cmp, v, w, h, |w|)
  {
    SignsKept(cmp, v, z[..l], w[..l]);
    SignsKept(cmp, v, z[h..], w[h..]);
    assert forall k :: 0 <= k < l ==> w[k] == w[..l][k];
    assert forall k :: l <= k < h ==> w[k] == w[l..h][k - l] == z[l..h][k - l] == z[k];
    assert forall k :: h <= k < |w| ==> w[k] == w[h..][k - h];
  }

  /** A level whose lower block fits sorts exactly when both recursive calls sort. */
  lemma SortedByParts(cmp: ElemCmp, s: seq<Elem>, w: seq<Elem>)
    requires Order(cmp) && |s| >= 7 && OuterPermuted(cmp, s, w) && LowerBlockFits(cmp, s)
    ensures InOrder(cmp, w) <==> InOrder(cmp, w[..Less(cmp, s)]) && InOrder(cmp, w[|s| - Greater(cmp, s)..])
  {
    hide Scanned, Arranged, Less, Greater, Order, PivotAt, InOrder, LowerBlockFits;
    var z, v, l, h := Arranged(cmp, s), s[PivotAt(s, cmp)], Less(cmp, s), |s| - Greater(cmp, s);
    LowerArranged(cmp, s);
    UpperArranged(cmp, s);
    PartsKeepSigns(cmp, v, z, w, l, h);
    InOrderByParts(cmp, v, w, l, h);
  }

  lemma NeverSorted(cmp: ElemCmp, s: seq<Elem>, w: seq<Elem>)
    requires Order(cmp) && |s| >= 7 && OuterPermuted(cmp, s, w) && !LowerBlockFits(cmp, s)
    ensures !InOrder(cmp, w)
  {
    hide Scanned, Arranged, Less, Greater, Order, PivotAt;
    var z, v, e, l := Arranged(cmp, s), s[PivotAt(s, cmp)], EqualAtStart(cmp, s), Less(cmp, s);
    var h := |s| - Greater(cmp, s);
    LowerSpoiled(cmp, s);
    SignsKept(cmp, v, z[..l], w[..l]);
    assert z[..l][0] == z[0];
    var k :| 0 <= k < l && cmp(w[..l][k], v) == 0;
    assert w[e - 1] == w[l..h][e - 1 - l] == z[e - 1];
    AcrossPivot(cmp, w[e - 1], v, w[k]);
    assert cmp(w[k], w[e - 1]) > 0;
  }

  // --- no ties ---

  // No two of the elements compare equal.
  ghost predicate NoTies(cmp: ElemCmp, m: multiset<Elem>) {
    forall x, y :: x in m && y in m && cmp(x, y) == 0 ==> x == y && m[x] == 1
  }

  lemma TwiceCounts(s: seq<Elem>, i: nat, j: nat)
    requires i < j < |s| && s[i] == s[j]
    ensures multiset(s)[s[i]] >= 2
  {
    assert s == s[..j] + [s[j]] + s[j + 1..];
    assert s[..j][i] in multiset(s[..j]);
  }

  lemma OccursAgain(s: seq<Elem>, i: nat)
    requires i < |s| && multiset(s)[s[i]] >= 2
    ensures exists j :: 0 <= j < |s| && j != i && s[j] == s[i]
  {
    var x, rest := s[i], s[..i] + s[i + 1..];
    assert s == s[..i] + [x] + s[i + 1..];
    assert multiset(s) == multiset(rest) + multiset{x};
    var k :| 0 <= k < |rest| && rest[k] == x;
    assert s[if k < i then k else k + 1] == x;
  }

  lemma DistinctHasNoTies(cmp: ElemCmp, s: seq<Elem>)
    requires Order(cmp) && forall i, j :: 0 <= i < j < |s| ==> cmp(s[i], s[j]) != 0
    ensures NoTies(cmp, multiset(s))
  {
    hide Order;
    var m := multiset(s);
    forall x, y | x in m && y in m && cmp(x, y) == 0 ensures x == y && m[x] == 1 {
      assert x in s && y in s;
      var i :| 0 <= i < |s| && s[i] == x;
      var j :| 0 <= j < |s| && s[j] == y;
      Flip(cmp, s[i], s[j]);
      assert i == j;
      Reflexive(cmp, x);
      if m[x] >= 2 {
        OccursAgain(s, i);
      }
    }
  }

  lemma AtMostOneEqual(cmp: ElemCmp, s: seq<Elem>)
    requires Order(cmp) && |s| >= 7 && NoTies(cmp, multiset(s))
    ensures EqualAtStart(cmp, s) <= 1
  {
    hide Scanned, PivotAt, Order;
    var st, v := Scanned(cmp, s), s[PivotAt(s, cmp)];
    ScannedSplits(cmp, s);
    if st.pa >= 2 {
      var x, y := st.s[0], st.s[1];
      Flip(cmp, y, v);
      Flip(cmp, x, v);
      Chain(cmp, x, v, y);
      Chain(cmp, y, v, x);
      Flip(cmp, x, y);
      assert x in multiset(st.s) && y in multiset(st.s) && x == y;
      TwiceCounts(st.s, 0, 1);
    }
  }

  lemma {:induction false} NoTiesFits(cmp: ElemCmp, s: seq<Elem>)
    requires Order(cmp) && NoTies(cmp, multiset(s))
    ensures AlwaysFits(cmp, s)
    decreases |s|
  {
    hide Scanned, Arranged, Less, Greater, PivotAt, EqualAtStart, Order;
    if |s| >= 7 {
      AtMostOneEqual(cmp, s);
      FitsWithOne(cmp, s);
      PivotStaysOut(cmp, s);
      ArrangedPermutes(cmp, s);
      var z, l, h := Arranged(cmp, s), Less(cmp, s), |s| - Greater(cmp, s);
      assert z == z[..l] + z[l..] && z == z[..h] + z[h..];
      NoTiesFits(cmp, z[..l]);
      NoTiesFits(cmp, z[h..]);
    }
  }

  lemma FitsWithOne(cmp: ElemCmp, s: seq<Elem>)
    requires |s| >= 7 && EqualAtStart(cmp, s) <= 1
    ensures LowerBlockFits(cmp, s)
  {
  }

  // --- a range that is not sorted ---

  function Difference(a: int, b: int): int {
    a - b
  }

  lemma TiesScanned(s: seq<Elem>, u: seq<Elem>)
    requires s == [1, 1, 0, 1, 2, 2, 2] && u == [1, 1, 1, 0, 2, 2, 2]
    ensures Scan(Difference, 1, State(s, 0, 0, 6, 6)) == State(u, 3, 4, 3, 6)
  {
    hide Scan;
    var s0 := State(s, 0, 0, 6, 6);
    LeftTurn(Difference, 1, s0);
    var s1 := SkipLeft(Difference, 1, s0);
    assert s1 == State(s, 1, 1, 6, 6);
    LeftTurn(Difference, 1, s1);
    var s2 := SkipLeft(Difference, 1, s1);
    assert s2 == State(s, 2, 2, 6, 6);
    LeftTurn(Difference, 1, s2);
    var s3 := SkipLeft(Difference, 1, s2);
    assert s3 == State(s, 2, 3, 6, 6);
    LeftTurn(Difference, 1, s3);
    var s4 := SkipLeft(Difference, 1, s3);
    assert s4 == State(u, 3, 4, 6, 6);
    RightTurn(Difference, 1, s4);
    RightTurn(Difference, 1, State(u, 3, 4, 5, 6));
    RightTurn(Difference, 1, State(u, 3, 4, 4, 6));
    ScanDone(Difference, 1, State(u, 3, 4, 3, 6));
  }

  /** Three elements equal to the pivot before a single smaller one: the result is not in order. */
  lemma NotAlwaysSorted()
    ensures Order(Difference) && !AlwaysFits(Difference, [1, 1, 0, 1, 2, 2, 2])
  {
    hide Scan;
    var s := [1, 1, 0, 1, 2, 2, 2];
    assert PivotAt(s, Difference) == 3;
    TiesScanned(s, [1, 1, 1, 0, 2, 2, 2]);
  }

  lemma LeftTurn(cmp: ElemCmp, v: Elem, st: State)
    requires InRange(st) && st.pb <= st.pc && cmp(st.s[st.pb], v) <= 0
    ensures Scan(cmp, v, SkipLeft(cmp, v, st)) == Scan(cmp, v, st)
  {
  }

  lemma RightTurn(cmp: ElemCmp, v: Elem, st: State)
    requires InRange(st) && st.pb <= st.pc && cmp(st.s[st.pc], v) >= 0 && cmp(st.s[st.pb], v) > 0
    ensures Scan(cmp, v, SkipRight(cmp, v, st)) == Scan(cmp, v, st)
  {
  }

  lemma ExchangeTurn(cmp: ElemCmp, v: Elem, st: State)
    requires InRange(st) && st.pb <= st.pc && cmp(st.s[st.pc], v) < 0 && cmp(st.s[st.pb], v) > 0
    ensures st.pb < st.pc && Scan(cmp, v, Exchange(st)) == Scan(cmp, v, st)
  {
  }

  lemma ScanDone(cmp: ElemCmp, v: Elem, st: State)
    requires InRange(st) && st.pb > st.pc
    ensures Scan(cmp, v, st) == st
  {
  }
}
