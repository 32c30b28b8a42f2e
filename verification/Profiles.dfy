module Profiles {
  // Cachegrind profiles: event counts by file, function and line. Adding a line of counts and
  // merging one profile into another, with the running totals of every event.

  import opened Common
  import opened Bindings

  const ULONG: int := 0x1_0000_0000_0000_0000

  type ULong = x: int | 0 <= x < ULONG

  type Counts = seq<ULong>
  type FileFn = (string, string)
  type Inner = seq<Entry<ULong, Counts>>
  type Outer = seq<Entry<FileFn, Inner>>

  // --- the orders of the two maps ---

  function StrCmp(a: string, b: string): int {
    if |a| == 0 || |b| == 0 then |a| - |b|
    else if a[0] != b[0] then a[0] as int - b[0] as int
    else StrCmp(a[1..], b[1..])
  }

  function CmpFileFn(a: FileFn, b: FileFn): int {
    var r := StrCmp(a.0, b.0);
    if r == 0 then StrCmp(a.1, b.1) else r
  }

  function CmpLine(a: ULong, b: ULong): int {
    if a < b then -1 else if a > b then 1 else 0
  }

  lemma {:induction false} StrCmpFlip(a: string, b: string)
    ensures StrCmp(a, b) < 0 <==> StrCmp(b, a) > 0
    ensures StrCmp(a, b) == 0 <==> a == b
  {
    if |a| > 0 && |b| > 0 {
      StrCmpFlip(a[1..], b[1..]);
      assert a == [a[0]] + a[1..] && b == [b[0]] + b[1..];
    }
  }

  lemma {:induction false} StrCmpChain(a: string, b: string, c: string)
    requires StrCmp(a, b) <= 0 && StrCmp(b, c) <= 0
    ensures StrCmp(a, c) <= 0
  {
    if |a| > 0 && |b| > 0 && |c| > 0 && a[0] == b[0] == c[0] {
      StrCmpChain(a[1..], b[1..], c[1..]);
    }
  }

  /** Both comparison functions are orders, and equal keys are the same. */
  lemma OrdersOfKeys()
    ensures Order(CmpFileFn) && Order(CmpLine)
    ensures forall a, b :: CmpFileFn(a, b) == 0 <==> a == b
    ensures forall a, b :: CmpLine(a, b) == 0 <==> a == b
  {
    forall a: FileFn, b: FileFn
      ensures CmpFileFn(a, b) < 0 <==> CmpFileFn(b, a) > 0
      ensures CmpFileFn(a, b) == 0 <==> a == b
    {
      StrCmpFlip(a.0, b.0);
      StrCmpFlip(b.0, a.0);
      StrCmpFlip(a.1, b.1);
      StrCmpFlip(b.1, a.1);
    }
    forall a: FileFn, b: FileFn, c: FileFn | CmpFileFn(a, b) <= 0 && CmpFileFn(b, c) <= 0
      ensures CmpFileFn(a, c) <= 0
    {
      StrCmpFlip(a.0, b.0);
      StrCmpFlip(b.0, c.0);
      StrCmpFlip(a.0, c.0);
      StrCmpFlip(c.0, a.0);
      if StrCmp(a.0, b.0) <= 0 && StrCmp(b.0, c.0) <= 0 {
        StrCmpChain(a.0, b.0, c.0);
      }
      if StrCmp(a.1, b.1) <= 0 && StrCmp(b.1, c.1) <= 0 {
        StrCmpChain(a.1, b.1, c.1);
      }
      if StrCmp(a.0, c.0) == 0 && StrCmp(b.0, a.0) <= 0 {
        StrCmpFlip(b.0, a.0);
      }
    }
  }

  // String a comes before b: a proper front part of it, or smaller where they first differ.
  ghost predicate Before(a: string, b: string) {
    exists i :: 0 <= i <= |a| && i < |b| && a[..i] == b[..i] && (i == |a| || a[i] < b[i])
  }

  lemma {:induction false} StrCmpIsOrder(a: string, b: string)
    ensures StrCmp(a, b) < 0 <==> Before(a, b)
  {
    if |a| > 0 && |b| > 0 && a[0] == b[0] {
      StrCmpIsOrder(a[1..], b[1..]);
      if Before(a[1..], b[1..]) {
        var i :| 0 <= i <= |a[1..]| && i < |b[1..]| && a[1..][..i] == b[1..][..i] && (i == |a[1..]| || a[1..][i] < b[1..][i]);
        assert a[..i + 1] == [a[0]] + a[1..][..i] && b[..i + 1] == [b[0]] + b[1..][..i];
      }
      if Before(a, b) {
        var i :| 0 <= i <= |a| && i < |b| && a[..i] == b[..i] && (i == |a| || a[i] < b[i]);
        assert a[1..][..i - 1] == a[..i][1..] == b[..i][1..] == b[1..][..i - 1];
      }
    } else {
      FirstDecides(a, b);
      if |b| > 0 { assert a[..0] == b[..0]; }
    }
  }

  lemma FirstDecides(a: string, b: string)
    ensures Before(a, b) ==> |b| > 0 && (|a| > 0 ==> a[0] <= b[0])
  {
    if Before(a, b) {
      var i :| 0 <= i <= |a| && i < |b| && a[..i] == b[..i] && (i == |a| || a[i] < b[i]);
      assert i > 0 ==> a[..i][0] == a[0] && b[..i][0] == b[0];
    }
  }

  /** Keys are in the order of their files and, within a file, of their functions. */
  lemma KeysInOrder(a: FileFn, b: FileFn)
    ensures CmpFileFn(a, b) < 0 <==> Before(a.0, b.0) || (a.0 == b.0 && Before(a.1, b.1))
  {
    StrCmpFlip(a.0, b.0);
    StrCmpIsOrder(a.0, b.0);
    StrCmpIsOrder(a.1, b.1);
  }

  // --- counts ---

  function Plus(a: Counts, b: Counts): (c: Counts)
    requires |a| == |b|
    ensures |c| == |a|
  {
    seq(|a|, i requires 0 <= i < |a| => (a[i] + b[i]) % ULONG)
  }

  function Zeros(n: nat): (c: Counts)
    ensures |c| == n
  {
    seq(n, _ => 0)
  }

  lemma SumsWrap(x: ULong, y: ULong, z: ULong)
    ensures ((x + y) % ULONG + z) % ULONG == (x + (y + z) % ULONG) % ULONG
  {
    var p, q := if x + y < ULONG then x + y else x + y - ULONG, if y + z < ULONG then y + z else y + z - ULONG;
    assert (x + y) % ULONG == p && (y + z) % ULONG == q;
  }

  lemma PlusAssociates(a: Counts, b: Counts, c: Counts)
    requires |a| == |b| == |c|
    ensures Plus(Plus(a, b), c) == Plus(a, Plus(b, c))
  {
    forall i | 0 <= i < |a| ensures Plus(Plus(a, b), c)[i] == Plus(a, Plus(b, c))[i] {
      SumsWrap(a[i], b[i], c[i]);
    }
  }

  lemma PlusZeros(a: Counts)
    ensures Plus(a, Zeros(|a|)) == a
  {
  }

  lemma PlusCommutes(a: Counts, b: Counts)
    requires |a| == |b|
    ensures Plus(a, b) == Plus(b, a)
  {
  }

  lemma PlusLaws(a: Counts, b: Counts, c: Counts)
    requires |a| == |b| == |c|
    ensures Plus(a, b) == Plus(b, a) && Plus(Plus(a, b), c) == Plus(a, Plus(b, c)) && Plus(a, Zeros(|a|)) == a
  {
    hide Plus;
    PlusCommutes(a, b);
    PlusAssociates(a, b, c);
    PlusZeros(a);
  }

  // --- adding a line of counts ---

  // The counts of a line with c added to those that are there.
  function AddedCounts(m: Inner, line: ULong, c: Counts): (r: Counts)
    requires Uniform(m, |c|)
    ensures |r| == |c|
  {
    match Get(CmpLine, m, line)
    case None => c
    case Some(was) => GetUniform(m, |c|, line); Plus(was, c)
  }

  // addCountsToMap
  function AddLine(m: Inner, line: ULong, c: Counts): Inner
    requires Uniform(m, |c|)
  {
    Put(CmpLine, m, line, AddedCounts(m, line, c))
  }

  // Every line has n counts.
  predicate Uniform(m: Inner, n: nat) {
    forall i :: 0 <= i < |m| ==> |m[i].1| == n
  }

  predicate AllUniform(o: Outer, n: nat) {
    forall i :: 0 <= i < |o| ==> Uniform(o[i].1, n)
  }

  lemma {:induction false} GetUniform(m: Inner, n: nat, line: ULong)
    requires Uniform(m, n)
    ensures Get(CmpLine, m, line).Some? ==> |Get(CmpLine, m, line).value| == n
  {
    if |m| > 0 {
      GetUniform(m[1..], n, line);
    }
  }

  lemma {:induction false} GetAllUniform(o: Outer, n: nat, key: FileFn)
    requires AllUniform(o, n)
    ensures Get(CmpFileFn, o, key).Some? ==> Uniform(Get(CmpFileFn, o, key).value, n)
  {
    if |o| > 0 {
      GetAllUniform(o[1..], n, key);
    }
  }

  // The inner map of a key, empty when there is none.
  function Lines(o: Outer, key: FileFn): Inner {
    match Get(CmpFileFn, o, key)
    case None => []
    case Some(m) => m
  }

  // What handle_counts does to the maps.
  function AddCounts(o: Outer, key: FileFn, line: ULong, c: Counts): Outer
    requires AllUniform(o, |c|)
  {
    LinesUniform(o, |c|, key);
    Put(CmpFileFn, o, key, AddLine(Lines(o, key), line, c))
  }

  // --- the totals of every event ---

  function InnerTotal(m: Inner, n: nat): (c: Counts)
    requires Uniform(m, n)
    ensures |c| == n
  {
    if |m| == 0 then Zeros(n) else Plus(m[0].1, InnerTotal(m[1..], n))
  }

  function OuterTotal(o: Outer, n: nat): (c: Counts)
    requires AllUniform(o, n)
    ensures |c| == n
  {
    if |o| == 0 then Zeros(n) else Plus(InnerTotal(o[0].1, n), OuterTotal(o[1..], n))
  }

  // --- one line more in the totals ---

  ghost predicate Ordered(o: Outer) {
    Sorted(CmpFileFn, o) && forall i :: 0 <= i < |o| ==> Sorted(CmpLine, o[i].1)
  }

  lemma AddLineCases(m: Inner, line: ULong, c: Counts)
    requires Uniform(m, |c|) && Sorted(CmpLine, m) && |m| > 0
    ensures m[0].0 > line ==> AddLine(m, line, c) == [(line, c)] + m
    ensures m[0].0 == line ==> AddLine(m, line, c) == [(line, Plus(m[0].1, c))] + m[1..]
    ensures m[0].0 < line ==> AddLine(m, line, c) == [m[0]] + AddLine(m[1..], line, c)
  {
    OrdersOfKeys();
    if m[0].0 > line {
      FirstAbove(CmpLine, m, line);
      GetAbsent(CmpLine, m, line);
    }
  }

  lemma {:induction false} PutUniform(m: Inner, n: nat, line: ULong, c: Counts)
    requires Uniform(m, n) && |c| == n
    ensures Uniform(Put(CmpLine, m, line, c), n)
  {
    if |m| > 0 {
      PutUniform(m[1..], n, line, c);
    }
  }

  lemma AddLineKeeps(m: Inner, line: ULong, c: Counts)
    requires Uniform(m, |c|) && Sorted(CmpLine, m)
    ensures Uniform(AddLine(m, line, c), |c|) && Sorted(CmpLine, AddLine(m, line, c))
  {
    OrdersOfKeys();
    PutSorted(CmpLine, m, line, AddedCounts(m, line, c));
    PutUniform(m, |c|, line, AddedCounts(m, line, c));
  }

  lemma {:induction false} AddLineTotal(m: Inner, line: ULong, c: Counts)
    requires Uniform(m, |c|) && Sorted(CmpLine, m)
    ensures Uniform(AddLine(m, line, c), |c|)
    ensures InnerTotal(AddLine(m, line, c), |c|) == Plus(InnerTotal(m, |c|), c)
  {
    hide Plus, Sorted, AddLine;
    AddLineKeeps(m, line, c);
    if |m| == 0 {
      AddToEmpty(line, c);
      PlusLaws(c, Zeros(|c|), c);
    } else {
      var a, rest := m[0].1, InnerTotal(m[1..], |c|);
      AddLineCases(m, line, c);
      PlusLaws(a, rest, c);
      PlusLaws(a, c, rest);
      PlusLaws(c, rest, c);
      PlusLaws(c, Plus(a, rest), c);
      if m[0].0 > line {
        assert ([(line, c)] + m)[1..] == m;
      } else if m[0].0 == line {
        assert ([(line, Plus(a, c))] + m[1..])[1..] == m[1..];
      } else {
        SortedTail(CmpLine, m);
        AddLineTotal(m[1..], line, c);
        assert ([m[0]] + AddLine(m[1..], line, c))[1..] == AddLine(m[1..], line, c);
      }
    }
  }

  lemma SortedTail<K, V>(cmp: Cmp<K>, es: seq<Entry<K, V>>)
    requires Sorted(cmp, es) && |es| > 0
    ensures Sorted(cmp, es[1..])
  {
  }

  lemma AddToEmpty(line: ULong, c: Counts)
    ensures AddLine([], line, c) == [(line, c)]
  {
  }

  // --- the same for the outer map ---

  lemma {:induction false} PutOuter(o: Outer, n: nat, key: FileFn, m: Inner)
    requires AllUniform(o, n) && Uniform(m, n)
    ensures AllUniform(Put(CmpFileFn, o, key, m), n)
    ensures (forall i :: 0 <= i < |o| ==> Sorted(CmpLine, o[i].1)) && Sorted(CmpLine, m) ==>
      var r := Put(CmpFileFn, o, key, m); forall i :: 0 <= i < |r| ==> Sorted(CmpLine, r[i].1)
  {
    hide Uniform, Sorted;
    if |o| > 0 {
      PutOuter(o[1..], n, key, m);
    }
  }

  lemma {:induction false} LinesSorted(o: Outer, key: FileFn)
    requires forall i :: 0 <= i < |o| ==> Sorted(CmpLine, o[i].1)
    ensures Sorted(CmpLine, Lines(o, key))
  {
    hide Sorted;
    if |o| > 0 {
      LinesSorted(o[1..], key);
    } else {
      NothingSorted();
    }
  }

  lemma NothingSorted()
    ensures Sorted<ULong, Counts>(CmpLine, [])
  {
  }

  lemma AddCountsKeeps(o: Outer, key: FileFn, line: ULong, c: Counts)
    requires AllUniform(o, |c|) && Ordered(o)
    ensures AllUniform(AddCounts(o, key, line, c), |c|) && Ordered(AddCounts(o, key, line, c))
  {
    hide Order, Sorted, Uniform;
    OrdersOfKeys();
    GetAllUniform(o, |c|, key);
    LinesSorted(o, key);
    LinesUniform(o, |c|, key);
    AddLineKeeps(Lines(o, key), line, c);
    var m := AddLine(Lines(o, key), line, c);
    PutSorted(CmpFileFn, o, key, m);
    PutOuter(o, |c|, key, m);
  }

  lemma LinesUniform(o: Outer, n: nat, key: FileFn)
    requires AllUniform(o, n)
    ensures Uniform(Lines(o, key), n)
  {
    GetAllUniform(o, n, key);
  }
}
