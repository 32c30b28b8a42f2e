/** callgrind's quicksort on an array, against the levels described on sequences. */
module QuicksortCode {
  import opened Bindings
  import opened Partition
  import opened Quicksort

  // Only the n elements from lo on have changed places.
  ghost predicate Rearranged(was: seq<Elem>, now: seq<Elem>, lo: nat, n: nat)
    requires lo + n <= |was|
  {
    && |now| == |was| && now[..lo] == was[..lo] && now[lo + n..] == was[lo + n..]
    && multiset(now[lo..lo + n]) == multiset(was[lo..lo + n])
  }

  // The elements of the range are now r, and the others are as they were.
  ghost predicate Became(was: seq<Elem>, now: seq<Elem>, lo: nat, r: seq<Elem>)
    requires lo + |r| <= |was|
  {
    |now| == |was| && now[..lo] == was[..lo] && now[lo + |r|..] == was[lo + |r|..] && now[lo..lo + |r|] == r
  }

  method Swap(a: array<Elem>, lo: nat, n: nat, i: nat, j: nat)
    requires lo + n <= a.Length && i < n && j < n
    modifies a
    ensures Became(old(a[..]), a[..], lo, Swapped(old(a[lo..lo + n]), i, j))
  {
    a[lo + i], a[lo + j] := a[lo + j], a[lo + i];
    assert a[lo..lo + n] == Swapped(old(a[lo..lo + n]), i, j);
  }

  lemma BecameAt(was: seq<Elem>, now: seq<Elem>, lo: nat, r: seq<Elem>)
    requires lo + |r| <= |was| && Became(was, now, lo, r)
    ensures |now| == |was| && now[lo..lo + |r|] == r
    ensures forall k :: 0 <= k < |r| ==> now[lo + k] == r[k]
  {
    forall k | 0 <= k < |r| ensures now[lo + k] == r[k] {
      assert now[lo..lo + |r|][k] == now[lo + k];
    }
  }

  lemma BecameAgain(was: seq<Elem>, mid: seq<Elem>, now: seq<Elem>, lo: nat, s: seq<Elem>, r: seq<Elem>)
    requires |s| == |r| && lo + |s| <= |was| == |mid|
    requires Became(was, mid, lo, s) && Became(mid, now, lo, r)
    ensures Became(was, now, lo, r)
  {
  }

  // One turn of the scan from the left, and one of the scan from the right.
  method SkipLeftAt(a: array<Elem>, lo: nat, n: nat, v: Elem, cmp: ElemCmp, pa: nat, pb: nat, ghost st: State)
    returns (qa: nat, qb: nat)
    requires lo + n <= a.Length && a[lo..lo + n] == st.s && InRange(st) && st.pa == pa && st.pb == pb <= st.pc
    requires cmp(a[lo + pb], v) <= 0 && a[lo + pb] == st.s[pb]
    modifies a
    ensures var r := SkipLeft(cmp, v, st); r.pa == qa && r.pb == qb && Became(old(a[..]), a[..], lo, r.s)
  {
    qa := pa;
    if cmp(a[lo + pb], v) == 0 {
      Swap(a, lo, n, pa, pb);
      qa := pa + 1;
    }
    qb := pb + 1;
  }

  method SkipRightAt(a: array<Elem>, lo: nat, n: nat, v: Elem, cmp: ElemCmp, pc: nat, pd: nat, ghost st: State)
    returns (qc: int, qd: int)
    requires lo + n <= a.Length && a[lo..lo + n] == st.s && InRange(st) && st.pd == pd && st.pb <= st.pc == pc
    requires cmp(a[lo + pc], v) >= 0 && a[lo + pc] == st.s[pc]
    modifies a
    ensures var r := SkipRight(cmp, v, st); r.pc == qc && r.pd == qd && Became(old(a[..]), a[..], lo, r.s)
  {
    qd := pd;
    if cmp(a[lo + pc], v) == 0 {
      Swap(a, lo, n, pc, pd);
      qd := pd - 1;
    }
    qc := pc - 1;
  }

  // The range has become s.
  ghost predicate Showing(was: seq<Elem>, now: seq<Elem>, lo: nat, n: nat, s: seq<Elem>) {
    && |s| == n && lo + n <= |was| == |now| && Became(was, now, lo, s)
    && now[lo..lo + n] == s && (forall k :: 0 <= k < n ==> now[lo + k] == s[k])
  }

  lemma StillShowing(was: seq<Elem>, mid: seq<Elem>, now: seq<Elem>, lo: nat, n: nat, s: seq<Elem>, r: seq<Elem>)
    requires Showing(was, mid, lo, n, s) && |r| == n && lo + n <= |mid| && Became(mid, now, lo, r)
    ensures Showing(was, now, lo, n, r)
  {
    BecameAgain(was, mid, now, lo, s, r);
    BecameAt(was, now, lo, r);
  }

  // The range shows st, and what remains to be scanned leads to the same end as from the start.
  ghost predicate Scanning(was: seq<Elem>, now: seq<Elem>, lo: nat, n: nat, cmp: ElemCmp, v: Elem, st: State, end: State) {
    InRange(st) && Showing(was, now, lo, n, st.s) && Scan(cmp, v, st) == end
  }

  lemma StillScanning(was: seq<Elem>, mid: seq<Elem>, now: seq<Elem>, lo: nat, n: nat,
                      cmp: ElemCmp, v: Elem, st: State, end: State, r: State)
    requires Scanning(was, mid, lo, n, cmp, v, st, end)
    requires InRange(r) && |r.s| == n && Scan(cmp, v, r) == end && lo + n <= |mid| && Became(mid, now, lo, r.s)
    ensures Scanning(was, now, lo, n, cmp, v, r, end)
  {
    hide Scan, Showing;
    StillShowing(was, mid, now, lo, n, st.s, r.s);
  }

  method ScanFromLeft(a: array<Elem>, lo: nat, n: nat, v: Elem, cmp: ElemCmp, pa: nat, pb: nat, pc: int,
                      ghost was: seq<Elem>, ghost st: State, ghost end: State)
    returns (qa: nat, qb: nat, ghost r: State)
    requires lo + n <= a.Length && st == State(st.s, pa, pb, pc, st.pd) && Scanning(was, a[..], lo, n, cmp, v, st, end)
    modifies a
    ensures r == State(r.s, qa, qb, pc, st.pd) && Scanning(was, a[..], lo, n, cmp, v, r, end)
    ensures qb >= pb && (qb <= pc ==> cmp(r.s[qb], v) > 0)
  {
    hide Swapped, Became, Scan;
    qa, qb, r := pa, pb, st;
    while qb <= pc && cmp(a[lo + qb], v) <= 0
      invariant qb >= pb && r == State(r.s, qa, qb, pc, st.pd) && Scanning(was, a[..], lo, n, cmp, v, r, end)
    {
      ghost var mid := a[..];
      LeftTurn(cmp, v, r);
      qa, qb := SkipLeftAt(a, lo, n, v, cmp, qa, qb, r);
      StillScanning(was, mid, a[..], lo, n, cmp, v, r, end, SkipLeft(cmp, v, r));
      r := SkipLeft(cmp, v, r);
    }
  }

  method ScanFromRight(a: array<Elem>, lo: nat, n: nat, v: Elem, cmp: ElemCmp, pb: nat, pc: int, pd: int,
                       ghost was: seq<Elem>, ghost st: State, ghost end: State)
    returns (qc: int, qd: int, ghost r: State)
    requires lo + n <= a.Length && st == State(st.s, st.pa, pb, pc, pd) && Scanning(was, a[..], lo, n, cmp, v, st, end)
    requires pb <= pc ==> cmp(st.s[pb], v) > 0
    modifies a
    ensures r == State(r.s, st.pa, pb, qc, qd) && Scanning(was, a[..], lo, n, cmp, v, r, end)
    ensures qc <= pc && (pb <= qc ==> cmp(r.s[pb], v) > 0 && cmp(r.s[qc], v) < 0)
  {
    hide Swapped, Became, Scan;
    qc, qd, r := pc, pd, st;
    while pb <= qc && cmp(a[lo + qc], v) >= 0
      invariant qc <= pc && r == State(r.s, st.pa, pb, qc, qd) && Scanning(was, a[..], lo, n, cmp, v, r, end)
      invariant pb <= qc ==> cmp(r.s[pb], v) > 0
    {
      ghost var mid := a[..];
      RightTurn(cmp, v, r);
      qc, qd := SkipRightAt(a, lo, n, v, cmp, qc, qd, r);
      StillScanning(was, mid, a[..], lo, n, cmp, v, r, end, SkipRight(cmp, v, r));
      r := SkipRight(cmp, v, r);
    }
  }

  // Both scans have stopped: the two elements they stopped at are exchanged.
  method ExchangeAt(a: array<Elem>, lo: nat, n: nat, v: Elem, cmp: ElemCmp, pb: nat, pc: nat,
                    ghost was: seq<Elem>, ghost st: State, ghost end: State)
    returns (ghost r: State)
    requires lo + n <= a.Length && st.pb == pb <= pc == st.pc && Scanning(was, a[..], lo, n, cmp, v, st, end)
    requires cmp(st.s[pb], v) > 0 && cmp(st.s[pc], v) < 0
    modifies a
    ensures r == State(r.s, st.pa, pb + 1, pc - 1, st.pd) && Scanning(was, a[..], lo, n, cmp, v, r, end)
  {
    hide Swapped, Became, Scan;
    ExchangeTurn(cmp, v, st);
    ghost var mid := a[..];
    Swap(a, lo, n, pb, pc);
    StillScanning(was, mid, a[..], lo, n, cmp, v, st, end, Exchange(st));
    r := Exchange(st);
  }

  method ScanAt(a: array<Elem>, lo: nat, n: nat, v: Elem, cmp: ElemCmp) returns (pa: nat, pb: nat, pc: int, pd: int)
    requires lo + n <= a.Length
    modifies a
    ensures var r := Scan(cmp, v, State(old(a[lo..lo + n]), 0, 0, n - 1, n - 1));
      && pa == r.pa && pb == r.pb && pc == r.pc && pd == r.pd && Became(old(a[..]), a[..], lo, r.s)
  {
    hide Swapped, Became, Scan;
    pa, pb, pc, pd := 0, 0, n - 1, n - 1;
    ghost var was, st := a[..], State(a[lo..lo + n], 0, 0, n - 1, n - 1);
    ghost var end := Scan(cmp, v, st);
    NothingBecame(was, lo, n);
    while true
      invariant st == State(st.s, pa, pb, pc, pd) && Scanning(was, a[..], lo, n, cmp, v, st, end)
      decreases pc - pb + 1
    {
      pa, pb, st := ScanFromLeft(a, lo, n, v, cmp, pa, pb, pc, was, st, end);
      pc, pd, st := ScanFromRight(a, lo, n, v, cmp, pb, pc, pd, was, st, end);
      if pb > pc {
        ScanDone(cmp, v, st);
        break;
      }
      st := ExchangeAt(a, lo, n, v, cmp, pb, pc, was, st, end);
      pb := pb + 1;
      pc := pc - 1;
    }
  }

  lemma NothingBecame(was: seq<Elem>, lo: nat, n: nat)
    requires lo + n <= |was|
    ensures Became(was, was, lo, was[lo..lo + n])
  {
  }

  method SwapBlocksAt(a: array<Elem>, lo: nat, n: nat, i: nat, j: nat, k: nat)
    requires lo + n <= a.Length && i + k <= n && j + k <= n
    modifies a
    ensures Became(old(a[..]), a[..], lo, SwapBlocks(old(a[lo..lo + n]), i, j, k))
  {
    hide Became, Swapped;
    ghost var was, s := a[..], a[lo..lo + n];
    NothingBecame(was, lo, n);
    for r := 0 to k
      invariant Became(was, a[..], lo, SwapBlocks(s, i, j, r))
    {
      ghost var mid, y := a[..], SwapBlocks(s, i, j, r);
      BecameAt(was, mid, lo, y);
      Swap(a, lo, n, i + r, j + r);
      BecameAgain(was, mid, a[..], lo, y, Swapped(y, i + r, j + r));
    }
  }

  lemma BecameRearranges(was: seq<Elem>, now: seq<Elem>, lo: nat, r: seq<Elem>)
    requires lo + |r| <= |was| && Became(was, now, lo, r) && multiset(r) == multiset(was[lo..lo + |r|])
    ensures Rearranged(was, now, lo, |r|)
  {
  }

  lemma RearrangedAgain(was: seq<Elem>, mid: seq<Elem>, now: seq<Elem>, lo: nat, n: nat)
    requires lo + n <= |was| && Rearranged(was, mid, lo, n) && Rearranged(mid, now, lo, n)
    ensures Rearranged(was, now, lo, n)
  {
  }

  // The first pm + 1 elements are in order but for the one at pl, which may belong further down.
  ghost predicate Sifting(cmp: ElemCmp, s: seq<Elem>, pm: nat, pl: nat)
    requires pl <= pm < |s|
  {
    forall i, j :: 0 <= i < j <= pm && j != pl ==> cmp(s[i], s[j]) <= 0
  }

  lemma SiftStarts(cmp: ElemCmp, s: seq<Elem>, pm: nat)
    requires pm < |s| && InOrder(cmp, s[..pm])
    ensures Sifting(cmp, s, pm, pm)
  {
    assert forall k :: 0 <= k < pm ==> s[k] == s[..pm][k];
  }

  lemma SiftedDown(cmp: ElemCmp, s: seq<Elem>, pm: nat, pl: nat)
    requires Order(cmp) && 0 < pl <= pm < |s| && Sifting(cmp, s, pm, pl) && cmp(s[pl - 1], s[pl]) > 0
    ensures Sifting(cmp, Swapped(s, pl, pl - 1), pm, pl - 1)
  {
    hide Order;
    Flip(cmp, s[pl - 1], s[pl]);
  }

  lemma Sifted(cmp: ElemCmp, s: seq<Elem>, pm: nat, pl: nat)
    requires Order(cmp) && pl <= pm < |s| && Sifting(cmp, s, pm, pl) && (pl > 0 ==> cmp(s[pl - 1], s[pl]) <= 0)
    ensures InOrder(cmp, s[..pm + 1])
  {
    hide Order;
    forall i, j | 0 <= i < j <= pm ensures cmp(s[i], s[j]) <= 0 {
      if j == pl && i < pl - 1 {
        Chain(cmp, s[i], s[pl - 1], s[pl]);
      }
    }
  }

  method SwapShowing(a: array<Elem>, lo: nat, n: nat, i: nat, j: nat, ghost was: seq<Elem>, ghost s: seq<Elem>)
    requires lo + n <= a.Length && i < n && j < n && Showing(was, a[..], lo, n, s)
    modifies a
    ensures Showing(was, a[..], lo, n, Swapped(s, i, j))
  {
    hide Swapped, Became;
    ghost var mid := a[..];
    Swap(a, lo, n, i, j);
    StillShowing(was, mid, a[..], lo, n, s, Swapped(s, i, j));
  }

  // The range shows s, in which the element from pm has come down to pl.
  ghost predicate Sunk(cmp: ElemCmp, was: seq<Elem>, now: seq<Elem>, lo: nat, n: nat, s: seq<Elem>, pm: nat, pl: nat)
    requires pl <= pm < n
  {
    Showing(was, now, lo, n, s) && Sifting(cmp, s, pm, pl) && multiset(s) == multiset(was[lo..lo + n])
  }

  lemma SinkStarts(cmp: ElemCmp, was: seq<Elem>, lo: nat, n: nat, pm: nat)
    requires lo + n <= |was| && pm < n && InOrder(cmp, was[lo..lo + n][..pm])
    ensures Sunk(cmp, was, was, lo, n, was[lo..lo + n], pm, pm)
  {
    hide Became, Sifting, InOrder;
    NothingBecame(was, lo, n);
    BecameAt(was, was, lo, was[lo..lo + n]);
    SiftStarts(cmp, was[lo..lo + n], pm);
  }

  lemma SunkDone(cmp: ElemCmp, was: seq<Elem>, now: seq<Elem>, lo: nat, n: nat, s: seq<Elem>, pm: nat, pl: nat)
    requires Order(cmp) && pl <= pm < n && Sunk(cmp, was, now, lo, n, s, pm, pl) && lo + n <= |now|
    requires pl > 0 ==> cmp(now[lo + pl - 1], now[lo + pl]) <= 0
    ensures Rearranged(was, now, lo, n) && InOrder(cmp, now[lo..lo + n][..pm + 1])
  {
    hide Order, Became, Sifting, InOrder, Rearranged;
    Sifted(cmp, s, pm, pl);
    BecameRearranges(was, now, lo, s);
  }

  // One turn of the loop: the element and its larger neighbour are exchanged.
  method SinkOne(a: array<Elem>, lo: nat, n: nat, pm: nat, pl: nat, cmp: ElemCmp, ghost was: seq<Elem>, ghost s: seq<Elem>)
    returns (ghost r: seq<Elem>)
    requires Order(cmp) && lo + n <= a.Length && 0 < pl <= pm < n && Sunk(cmp, was, a[..], lo, n, s, pm, pl)
    requires cmp(a[lo + pl - 1], a[lo + pl]) > 0
    modifies a
    ensures Sunk(cmp, was, a[..], lo, n, r, pm, pl - 1)
  {
    hide Order, Became, Sifting, Swapped;
    SiftedDown(cmp, s, pm, pl);
    SwappedPermutes(s, pl, pl - 1);
    SwapShowing(a, lo, n, pl, pl - 1, was, s);
    r := Swapped(s, pl, pl - 1);
  }

  // The element at pm goes down to its place among the sorted ones before it.
  method Insert(a: array<Elem>, lo: nat, n: nat, pm: nat, cmp: ElemCmp)
    requires Order(cmp) && lo + n <= a.Length && 0 < pm < n && InOrder(cmp, a[lo..lo + n][..pm])
    modifies a
    ensures Rearranged(old(a[..]), a[..], lo, n) && InOrder(cmp, a[lo..lo + n][..pm + 1])
  {
    hide Order, Sifting, InOrder, Rearranged, Showing, Sunk;
    ghost var was, s := a[..], a[lo..lo + n];
    var pl := pm;
    SinkStarts(cmp, was, lo, n, pm);
    while pl > 0 && cmp(a[lo + pl - 1], a[lo + pl]) > 0
      invariant 0 <= pl <= pm && Sunk(cmp, was, a[..], lo, n, s, pm, pl)
    {
      s := SinkOne(a, lo, n, pm, pl, cmp, was, s);
      pl := pl - 1;
    }
    SunkDone(cmp, was, a[..], lo, n, s, pm, pl);
  }

  // Insertion sort, on the smallest ranges.
  method SortSmall(a: array<Elem>, lo: nat, n: nat, cmp: ElemCmp)
    requires Order(cmp) && lo + n <= a.Length
    modifies a
    ensures Rearranged(old(a[..]), a[..], lo, n) && InOrder(cmp, a[lo..lo + n])
  {
    hide Order;
    ghost var was := a[..];
    var pm := 1;
    while pm < n
      invariant 1 <= pm && Rearranged(was, a[..], lo, n)
      invariant InOrder(cmp, a[lo..lo + n][..if pm <= n then pm else n])
    {
      ghost var mid := a[..];
      Insert(a, lo, n, pm, cmp);
      RearrangedAgain(was, mid, a[..], lo, n);
      pm := pm + 1;
    }
    assert a[lo..lo + n][..n] == a[lo..lo + n];
  }

  // Everything up to the recursive calls. l smaller and g greater elements are still to be sorted.
  method PartitionAt(a: array<Elem>, lo: nat, n: nat, cmp: ElemCmp) returns (l: nat, g: nat)
    requires lo + n <= a.Length && n >= 7
    modifies a
    ensures var s := old(a[lo..lo + n]);
      Became(old(a[..]), a[..], lo, Arranged(cmp, s)) && l == Less(cmp, s) && g == Greater(cmp, s)
  {
    hide Became, Scan, PivotAt, SwapBlocks;
    ghost var was, s := a[..], a[lo..lo + n];
    var m := PivotAt(a[lo..lo + n], cmp);
    var v := a[lo + m];
    assert v == s[m];
    var pa, pb, pc, pd := ScanAt(a, lo, n, v, cmp);
    ghost var st := Scanned(cmp, s);
    BecameAt(was, a[..], lo, st.s);
    ghost var mid := a[..];
    SwapBlocksAt(a, lo, n, 0, pb - pa, pa);
    ghost var y := SwapBlocks(st.s, 0, pb - pa, pa);
    BecameAgain(was, mid, a[..], lo, st.s, y);
    BecameAt(was, a[..], lo, y);
    mid := a[..];
    SwapBlocksAt(a, lo, n, pb, pd + 1, n - 1 - pd);
    BecameAgain(was, mid, a[..], lo, y, Arranged(cmp, s));
    l, g := pb - pa, pd + 1 - pb;
  }

  lemma SliceOfSlice(s: seq<Elem>, lo: nat, n: nat, from: nat, to: nat)
    requires lo + n <= |s| && from <= to <= n
    ensures s[lo..lo + n][from..to] == s[lo + from..lo + to]
  {
    var r := s[lo..lo + n];
    assert |r[from..to]| == |s[lo + from..lo + to]|;
    forall i | 0 <= i < to - from ensures r[from..to][i] == s[lo + from..lo + to][i] {
      assert r[from + i] == s[lo + from + i];
    }
  }

  // Rearranging an inner range leaves the rest of the outer one.
  lemma InnerRearranged(was: seq<Elem>, now: seq<Elem>, lo: nat, n: nat, from: nat, to: nat)
    requires lo + n <= |was| && from <= to <= n && Rearranged(was, now, lo + from, to - from)
    ensures |now| == |was| && now[..lo] == was[..lo] && now[lo + n..] == was[lo + n..]
    ensures var p, q := now[lo..lo + n], was[lo..lo + n];
      && p[..from] == q[..from] && p[to..] == q[to..] && multiset(p[from..to]) == multiset(q[from..to])
      && p[from..to] == now[lo + from..lo + to] && q[from..to] == was[lo + from..lo + to]
  {
    var p, q := now[lo..lo + n], was[lo..lo + n];
    SliceOfSlice(now, lo, n, from, to);
    SliceOfSlice(was, lo, n, from, to);
    assert forall i :: 0 <= i < lo + from ==> now[i] == now[..lo + from][i] == was[..lo + from][i] == was[i];
    forall i | lo + to <= i < |now| ensures now[i] == was[i] {
      assert now[lo + to..][i - lo - to] == was[lo + to..][i - lo - to];
    }
    forall i | 0 <= i < n && (i < from || i >= to) ensures p[i] == q[i] {
      assert now[lo + i] == was[lo + i];
    }
  }

  lemma ThreeParts(z: seq<Elem>, x: seq<Elem>, w: seq<Elem>, l: nat, h: nat)
    requires l <= h <= |z| == |x| == |w| && x[l..] == z[l..] && w[..h] == x[..h]
    ensures w[..l] == x[..l] && w[l..h] == z[l..h] && x[h..] == z[h..]
  {
    FrontPart(w, x, h, 0, l);
    FrontPart(w, x, h, l, h);
    BackPart(x, z, l, l, h);
    BackPart(x, z, l, h, |x|);
    WholeSlices(w, l, h);
    WholeSlices(x, l, h);
    WholeSlices(z, l, h);
  }

  // Lists with the same front, or back, have the same slices of it.
  lemma FrontPart(s: seq<Elem>, t: seq<Elem>, h: nat, i: nat, j: nat)
    requires i <= j <= h <= |s| == |t| && s[..h] == t[..h]
    ensures s[i..j] == t[i..j]
  {
    forall k | i <= k < j ensures s[k] == t[k] {
      assert s[..h][k] == t[..h][k];
    }
  }

  lemma BackPart(s: seq<Elem>, t: seq<Elem>, l: nat, i: nat, j: nat)
    requires l <= i <= j <= |s| == |t| && s[l..] == t[l..]
    ensures s[i..j] == t[i..j]
  {
    forall k | i <= k < j ensures s[k] == t[k] {
      assert s[l..][k - l] == t[l..][k - l];
    }
  }

  lemma WholeSlices(s: seq<Elem>, l: nat, h: nat)
    requires l <= h <= |s|
    ensures s[..l] == s[0..l] && s[h..] == s[h..|s|]
  {
  }

  // From the arranged range through the two recursive calls to the end.
  lemma BecameParts(was: seq<Elem>, now: seq<Elem>, lo: nat, r: seq<Elem>)
    requires lo + |r| <= |was| && Became(was, now, lo, r)
    ensures |now| == |was| && now[..lo] == was[..lo] && now[lo + |r|..] == was[lo + |r|..] && now[lo..lo + |r|] == r
  {
  }

  // The first l elements of the range z are rearranged.
  lemma FrontCall(mid: seq<Elem>, one: seq<Elem>, lo: nat, z: seq<Elem>, l: nat)
    requires l <= |z| && lo + |z| <= |mid| && z == mid[lo..lo + |z|] && Rearranged(mid, one, lo, l)
    ensures |one| == |mid| && one[..lo] == mid[..lo] && one[lo + |z|..] == mid[lo + |z|..]
    ensures var x := one[lo..lo + |z|];
      && x[l..] == z[l..] && multiset(x[..l]) == multiset(z[..l])
      && x[..l] == one[lo..lo + l] && z[..l] == mid[lo..lo + l]
  {
    hide Rearranged;
    InnerRearranged(mid, one, lo, |z|, 0, l);
    WholeSlices(z, l, |z|);
    WholeSlices(one[lo..lo + |z|], l, |z|);
  }

  // The elements of the range x from h on are rearranged.
  lemma BackCall(one: seq<Elem>, two: seq<Elem>, lo: nat, x: seq<Elem>, h: nat)
    requires h <= |x| && lo + |x| <= |one| && x == one[lo..lo + |x|] && Rearranged(one, two, lo + h, |x| - h)
    ensures |two| == |one| && two[..lo] == one[..lo] && two[lo + |x|..] == one[lo + |x|..]
    ensures var w := two[lo..lo + |x|];
      && w[..h] == x[..h] && multiset(w[h..]) == multiset(x[h..])
      && w[h..] == two[lo + h..lo + |x|] && x[h..] == one[lo + h..lo + |x|]
  {
    hide Rearranged;
    InnerRearranged(one, two, lo, |x|, h, |x|);
    WholeSlices(x, h, h);
    WholeSlices(two[lo..lo + |x|], h, h);
  }

  // One call, then the other.
  lemma TwoCalls(was: seq<Elem>, mid: seq<Elem>, one: seq<Elem>, two: seq<Elem>, lo: nat, z: seq<Elem>, l: nat, h: nat)
    requires l <= h <= |z| && lo + |z| <= |was| == |one| && Became(was, mid, lo, z)
    requires Rearranged(mid, one, lo, l) && Rearranged(one, two, lo + h, |z| - h)
    ensures |two| == |was| && two[..lo] == was[..lo] && two[lo + |z|..] == was[lo + |z|..]
    ensures var w := two[lo..lo + |z|];
      && w[..l] == one[lo..lo + l] && w[h..] == two[lo + h..lo + |z|]
      && z[..l] == mid[lo..lo + l] && z[h..] == one[lo + h..lo + |z|]
      && w[l..h] == z[l..h] && multiset(w[..l]) == multiset(z[..l]) && multiset(w[h..]) == multiset(z[h..])
  {
    hide Rearranged, Became;
    BecameParts(was, mid, lo, z);
    FrontCall(mid, one, lo, z, l);
    BackCall(one, two, lo, one[lo..lo + |z|], h);
    ThreeParts(z, one[lo..lo + |z|], two[lo..lo + |z|], l, h);
  }

  lemma OuterParts(cmp: ElemCmp, s: seq<Elem>, w: seq<Elem>)
    requires |s| >= 7 && |w| == |s| && Less(cmp, s) + Greater(cmp, s) <= |s|
    requires var z, l, h := Arranged(cmp, s), Less(cmp, s), |s| - Greater(cmp, s);
      multiset(w[..l]) == multiset(z[..l]) && w[l..h] == z[l..h] && multiset(w[h..]) == multiset(z[h..])
    ensures OuterPermuted(cmp, s, w)
  {
    hide Arranged, Less, Greater;
  }

  lemma CallsPermute(cmp: ElemCmp, s: seq<Elem>, was: seq<Elem>, mid: seq<Elem>, one: seq<Elem>, two: seq<Elem>, lo: nat)
    requires |s| >= 7 && lo + |s| <= |was| && s == was[lo..lo + |s|] && Order(cmp)
    requires Became(was, mid, lo, Arranged(cmp, s))
    requires Rearranged(mid, one, lo, Less(cmp, s))
    requires Less(cmp, s) + Greater(cmp, s) <= |s|
    requires |one| == |was| == |two| && Rearranged(one, two, lo + |s| - Greater(cmp, s), Greater(cmp, s))
    ensures Rearranged(was, two, lo, |s|) && OuterPermuted(cmp, s, two[lo..lo + |s|])
    ensures var w, l, h := two[lo..lo + |s|], Less(cmp, s), |s| - Greater(cmp, s);
      && w[..l] == one[lo..lo + l] && w[h..] == two[lo + h..lo + |s|]
      && Arranged(cmp, s)[..l] == mid[lo..lo + l] && Arranged(cmp, s)[h..] == one[lo + h..lo + |s|]
  {
    hide Arranged, Less, Greater, Order, Rearranged, Became, OuterPermuted;
    var l, h := Less(cmp, s), |s| - Greater(cmp, s);
    TwoCalls(was, mid, one, two, lo, Arranged(cmp, s), l, h);
    OuterParts(cmp, s, two[lo..lo + |s|]);
    OuterPermutes(cmp, s, two[lo..lo + |s|]);
    RearrangedMeans(was, two, lo, |s|);
  }

  lemma RearrangedMeans(was: seq<Elem>, now: seq<Elem>, lo: nat, n: nat)
    requires lo + n <= |was| && |now| == |was|
    requires now[..lo] == was[..lo] && now[lo + n..] == was[lo + n..]
    requires multiset(now[lo..lo + n]) == multiset(was[lo..lo + n])
    ensures Rearranged(was, now, lo, n)
  {
  }

  // A range of at most one element is not sorted any further.
  lemma ShortRange(cmp: ElemCmp, s: seq<Elem>)
    requires Order(cmp)
    ensures |s| <= 1 ==> InOrder(cmp, s) && AlwaysFits(cmp, s)
  {
  }

  lemma SmallFits(cmp: ElemCmp, s: seq<Elem>)
    requires Order(cmp) && |s| < 7
    ensures AlwaysFits(cmp, s)
  {
  }

  lemma FitsByLevels(cmp: ElemCmp, s: seq<Elem>)
    requires Order(cmp) && |s| >= 7 && Less(cmp, s) + Greater(cmp, s) <= |s|
    ensures AlwaysFits(cmp, s) <==>
      && LowerBlockFits(cmp, s) && AlwaysFits(cmp, Arranged(cmp, s)[..Less(cmp, s)])
      && AlwaysFits(cmp, Arranged(cmp, s)[|s| - Greater(cmp, s)..])
  {
    hide Arranged, Less, Greater, LowerBlockFits, Order;
  }

  lemma LevelSorts(cmp: ElemCmp, s: seq<Elem>, was: seq<Elem>, mid: seq<Elem>, one: seq<Elem>, two: seq<Elem>, lo: nat)
    requires |s| >= 7 && lo + |s| <= |was| && s == was[lo..lo + |s|] && Order(cmp)
    requires |was| == |mid| == |one| == |two| && Less(cmp, s) + Greater(cmp, s) <= |s|
    requires Became(was, mid, lo, Arranged(cmp, s))
    requires Rearranged(mid, one, lo, Less(cmp, s))
    requires Rearranged(one, two, lo + |s| - Greater(cmp, s), Greater(cmp, s))
    requires InOrder(cmp, one[lo..lo + Less(cmp, s)]) <==> AlwaysFits(cmp, mid[lo..lo + Less(cmp, s)])
    requires var h := |s| - Greater(cmp, s);
      InOrder(cmp, two[lo + h..lo + |s|]) <==> AlwaysFits(cmp, one[lo + h..lo + |s|])
    ensures Rearranged(was, two, lo, |s|)
    ensures InOrder(cmp, two[lo..lo + |s|]) <==> AlwaysFits(cmp, s)
  {
    hide Order, Became, Rearranged, InOrder, AlwaysFits, Arranged, Less, Greater, OuterPermuted, LowerBlockFits;
    CallsPermute(cmp, s, was, mid, one, two, lo);
    FitsByLevels(cmp, s);
    if LowerBlockFits(cmp, s) {
      SortedByParts(cmp, s, two[lo..lo + |s|]);
    } else {
      NeverSorted(cmp, s, two[lo..lo + |s|]);
    }
  }

  lemma NothingRearranged(was: seq<Elem>, lo: nat, n: nat)
    requires lo + n <= |was|
    ensures Rearranged(was, was, lo, n)
  {
  }

  // One of the two recursive calls, left out for a range of at most one element.
  method QsortPart(a: array<Elem>, lo: nat, n: nat, cmp: ElemCmp)
    requires Order(cmp) && lo + n <= a.Length
    modifies a
    ensures Rearranged(old(a[..]), a[..], lo, n)
    ensures InOrder(cmp, a[lo..lo + n]) <==> AlwaysFits(cmp, old(a[lo..lo + n]))
    decreases n, 1
  {
    hide Order, Rearranged, InOrder, AlwaysFits;
    NothingRearranged(a[..], lo, n);
    ShortRange(cmp, a[lo..lo + n]);
    if n > 1 {
      Qsort(a, lo, n, cmp);
    }
  }

  /**
   CLG_(qsort): permutes its range and nothing else, and sorts it if and only if every lower
   block on the way fits.
   */
  method Qsort(a: array<Elem>, lo: nat, n: nat, cmp: ElemCmp)
    requires Order(cmp) && lo + n <= a.Length
    modifies a
    ensures Rearranged(old(a[..]), a[..], lo, n)
    ensures InOrder(cmp, a[lo..lo + n]) <==> AlwaysFits(cmp, old(a[lo..lo + n]))
    decreases n, 0
  {
    hide Order, Became, Rearranged, InOrder, AlwaysFits, Arranged, Less, Greater;
    if n < 7 {
      SortSmall(a, lo, n, cmp);
      SmallFits(cmp, old(a[lo..lo + n]));
      return;
    }
    ghost var was, s := a[..], a[lo..lo + n];
    PivotStaysOut(cmp, s);
    var l, g := PartitionAt(a, lo, n, cmp);
    ghost var mid := a[..];
    QsortPart(a, lo, l, cmp);
    ghost var one := a[..];
    QsortPart(a, lo + n - g, g, cmp);
    LevelSorts(cmp, s, was, mid, one, a[..], lo);
  }

  /** Without ties, the range is always sorted. */
  method QsortDistinct(a: array<Elem>, cmp: ElemCmp)
    requires Order(cmp) && forall i, j :: 0 <= i < j < a.Length ==> cmp(a[i], a[j]) != 0
    modifies a
    ensures multiset(a[..]) == multiset(old(a[..])) && InOrder(cmp, a[..])
  {
    hide Order;
    assert a[0..a.Length] == a[..];
    DistinctHasNoTies(cmp, a[..]);
    NoTiesFits(cmp, a[..]);
    Qsort(a, 0, a.Length, cmp);
    assert a[0..a.Length] == a[..];
  }
}
