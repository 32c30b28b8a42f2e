module ProfileMerge {
  // Merging profiles: the merged map is the pointwise sum of both, and the running totals stay
  // the column sums of the counts.

  import opened Common
  import opened Bindings
  import opened Profiles

  // --- totals of the outer map ---

  // Replacing the lines of a key by lines whose total is x more makes the total x more.
  lemma {:induction false} PutTotal(o: Outer, n: nat, key: FileFn, m: Inner, x: Counts)
    requires AllUniform(o, n) && Uniform(m, n) && Sorted(CmpFileFn, o) && |x| == n
    requires InnerTotal(m, n) == Plus(InnerTotal(LinesOf(o, n, key), n), x)
    ensures AllUniform(Put(CmpFileFn, o, key, m), n)
    ensures OuterTotal(Put(CmpFileFn, o, key, m), n) == Plus(OuterTotal(o, n), x)
  {
    hide Plus, Sorted, Order, Uniform, InnerTotal;
    OrdersOfKeys();
    PutOuter(o, n, key, m);
    if |o| == 0 {
      NoLines(n);
      PlusLaws(Zeros(n), x, x);
      PlusLaws(x, Zeros(n), x);
    } else {
      var a, rest, z := InnerTotal(o[0].1, n), OuterTotal(o[1..], n), Zeros(n);
      SortedTail(CmpFileFn, o);
      PlusLaws(a, rest, x);
      PlusLaws(a, x, rest);
      PlusLaws(rest, x, x);
      PlusLaws(Plus(a, rest), x, z);
      PlusLaws(x, z, z);
      PlusLaws(z, x, x);
      if CmpFileFn(o[0].0, key) > 0 {
        FirstAbove(CmpFileFn, o, key);
        GetAbsent(CmpFileFn, o, key);
        NoLines(n);
        assert ([(key, m)] + o)[1..] == o;
      } else if CmpFileFn(o[0].0, key) == 0 {
        assert ([(o[0].0, m)] + o[1..])[1..] == o[1..];
      } else {
        PutTotal(o[1..], n, key, m, x);
        var r := Put(CmpFileFn, o[1..], key, m);
        assert ([o[0]] + r)[1..] == r;
      }
    }
  }

  function LinesOf(o: Outer, n: nat, key: FileFn): (m: Inner)
    requires AllUniform(o, n)
    ensures Uniform(m, n)
  {
    LinesUniform(o, n, key);
    Lines(o, key)
  }

  lemma NoLines(n: nat)
    ensures Uniform([], n) && InnerTotal([], n) == Zeros(n)
  {
  }

  /** A line of counts more in the maps is those counts more in the total. */
  lemma AddCountsTotal(o: Outer, key: FileFn, line: ULong, c: Counts)
    requires AllUniform(o, |c|) && Ordered(o)
    ensures AllUniform(AddCounts(o, key, line, c), |c|)
    ensures OuterTotal(AddCounts(o, key, line, c), |c|) == Plus(OuterTotal(o, |c|), c)
  {
    LinesUniform(o, |c|, key);
    LinesSorted(o, key);
    AddLineKeeps(Lines(o, key), line, c);
    AddLineTotal(Lines(o, key), line, c);
    PutTotal(o, |c|, key, AddLine(Lines(o, key), line, c), c);
  }

  // --- merging ---

  function MergeInner(d: Inner, s: Inner, n: nat): (r: Inner)
    requires Uniform(d, n) && Uniform(s, n)
    ensures Uniform(r, n)
    decreases |s|
  {
    if |s| == 0 then d
    else
      PutUniform(d, n, s[0].0, AddedCounts(d, s[0].0, s[0].1));
      MergeInner(AddLine(d, s[0].0, s[0].1), s[1..], n)
  }

  // A key that is new is bound to a copy of the lines, one that is known has them added.
  function MergedLines(o: Outer, key: FileFn, m: Inner, n: nat): (r: Inner)
    requires AllUniform(o, n) && Uniform(m, n)
    ensures Uniform(r, n)
  {
    match Get(CmpFileFn, o, key)
    case None => m
    case Some(d) => GetAllUniform(o, n, key); MergeInner(d, m, n)
  }

  function MergeOuter(d: Outer, s: Outer, n: nat): (r: Outer)
    requires AllUniform(d, n) && AllUniform(s, n)
    ensures AllUniform(r, n)
    decreases |s|
  {
    if |s| == 0 then d
    else
      var m := MergedLines(d, s[0].0, s[0].1, n);
      PutOuter(d, n, s[0].0, m);
      MergeOuter(Put(CmpFileFn, d, s[0].0, m), s[1..], n)
  }

  // --- what is where ---

  function At(o: Outer, key: FileFn, line: ULong): Option<Counts> {
    Get(CmpLine, Lines(o, key), line)
  }

  ghost function PlusAt(a: Option<Counts>, b: Option<Counts>, n: nat): Option<Counts>
    requires (a.Some? ==> |a.value| == n) && (b.Some? ==> |b.value| == n)
  {
    if a.None? then b else if b.None? then a else Some(Plus(a.value, b.value))
  }

  lemma {:induction false} MergeInnerAt(d: Inner, s: Inner, n: nat, line: ULong)
    requires Uniform(d, n) && Uniform(s, n) && Sorted(CmpLine, d) && Sorted(CmpLine, s)
    ensures Sorted(CmpLine, MergeInner(d, s, n))
    ensures (Get(CmpLine, d, line).Some? ==> |Get(CmpLine, d, line).value| == n)
         && (Get(CmpLine, s, line).Some? ==> |Get(CmpLine, s, line).value| == n)
    ensures Get(CmpLine, MergeInner(d, s, n), line) == PlusAt(Get(CmpLine, d, line), Get(CmpLine, s, line), n)
    decreases |s|
  {
    hide Plus, Put, Order;
    OrdersOfKeys();
    GetUniform(d, n, line);
    GetUniform(s, n, line);
    if |s| > 0 {
      var c := AddedCounts(d, s[0].0, s[0].1);
      AddLineKeeps(d, s[0].0, s[0].1);
      GetPut(CmpLine, d, s[0].0, c, line);
      SortedTail(CmpLine, s);
      MergeInnerAt(AddLine(d, s[0].0, s[0].1), s[1..], n, line);
      if s[0].0 == line {
        assert forall i :: 0 <= i < |s| - 1 ==> CmpLine(s[0].0, s[1..][i].0) < 0;
        GetAbsent(CmpLine, s[1..], line);
      }
    }
  }

  lemma MergedLinesAt(o: Outer, key: FileFn, m: Inner, n: nat, line: ULong)
    requires AllUniform(o, n) && Uniform(m, n) && Ordered(o) && Sorted(CmpLine, m)
    ensures Sorted(CmpLine, MergedLines(o, key, m, n))
    ensures (At(o, key, line).Some? ==> |At(o, key, line).value| == n)
         && (Get(CmpLine, m, line).Some? ==> |Get(CmpLine, m, line).value| == n)
    ensures Get(CmpLine, MergedLines(o, key, m, n), line) == PlusAt(At(o, key, line), Get(CmpLine, m, line), n)
  {
    LinesSorted(o, key);
    LinesUniform(o, n, key);
    GetUniform(m, n, line);
    GetUniform(Lines(o, key), n, line);
    if Get(CmpFileFn, o, key).Some? {
      MergeInnerAt(Lines(o, key), m, n, line);
    }
  }

  lemma PutAt(o: Outer, key: FileFn, m: Inner, k: FileFn)
    ensures Lines(Put(CmpFileFn, o, key, m), k) == if k == key then m else Lines(o, k)
  {
    OrdersOfKeys();
    GetPut(CmpFileFn, o, key, m, k);
  }

  /** The merged map is the sum of both at every file, function and line. */
  lemma {:induction false} MergeIsSum(d: Outer, s: Outer, n: nat, key: FileFn, line: ULong)
    requires AllUniform(d, n) && AllUniform(s, n) && Ordered(d) && Ordered(s)
    ensures Ordered(MergeOuter(d, s, n))
    ensures (At(d, key, line).Some? ==> |At(d, key, line).value| == n)
         && (At(s, key, line).Some? ==> |At(s, key, line).value| == n)
    ensures At(MergeOuter(d, s, n), key, line) == PlusAt(At(d, key, line), At(s, key, line), n)
    decreases |s|
  {
    hide Plus, Put, Order, Uniform, MergedLines, MergeInner, PlusAt, Sorted;
    AtUniform(d, n, key, line);
    AtUniform(s, n, key, line);
    if |s| == 0 {
      PlusNothing(At(d, key, line), n);
    } else {
      var k, m := s[0].0, MergedLines(d, s[0].0, s[0].1, n);
      MergedLinesAt(d, k, s[0].1, n, line);
      PutKeepsOrdered(d, n, k, m);
      PutAt(d, k, m, key);
      SortedTail(CmpFileFn, s);
      MergeIsSum(Put(CmpFileFn, d, k, m), s[1..], n, key, line);
      OtherKeys(s, key);
      PlusNothing(At(Put(CmpFileFn, d, k, m), key, line), n);
    }
  }

  lemma AtUniform(o: Outer, n: nat, key: FileFn, line: ULong)
    requires AllUniform(o, n)
    ensures At(o, key, line).Some? ==> |At(o, key, line).value| == n
  {
    LinesUniform(o, n, key);
    GetUniform(Lines(o, key), n, line);
  }

  lemma PlusNothing(a: Option<Counts>, n: nat)
    requires a.Some? ==> |a.value| == n
    ensures PlusAt(a, None, n) == a
  {
  }

  lemma PutKeepsOrdered(o: Outer, n: nat, key: FileFn, m: Inner)
    requires AllUniform(o, n) && Uniform(m, n) && Ordered(o) && Sorted(CmpLine, m)
    ensures Ordered(Put(CmpFileFn, o, key, m)) && AllUniform(Put(CmpFileFn, o, key, m), n)
  {
    OrdersOfKeys();
    PutSorted(CmpFileFn, o, key, m);
    PutOuter(o, n, key, m);
  }

  lemma OtherKeys(s: Outer, key: FileFn)
    requires Sorted(CmpFileFn, s) && |s| > 0
    ensures if s[0].0 == key then Lines(s, key) == s[0].1 && Lines(s[1..], key) == []
            else Lines(s, key) == Lines(s[1..], key)
  {
    OrdersOfKeys();
    if s[0].0 == key {
      assert forall i :: 0 <= i < |s| - 1 ==> CmpFileFn(s[0].0, s[1..][i].0) < 0;
      GetAbsent(CmpFileFn, s[1..], key);
    }
  }

  // --- totals ---

  lemma {:induction false} MergeInnerTotal(d: Inner, s: Inner, n: nat)
    requires Uniform(d, n) && Uniform(s, n) && Sorted(CmpLine, d)
    ensures Sorted(CmpLine, MergeInner(d, s, n))
    ensures InnerTotal(MergeInner(d, s, n), n) == Plus(InnerTotal(d, n), InnerTotal(s, n))
    decreases |s|
  {
    hide Plus, Put, AddLine;
    var t, z := InnerTotal(d, n), Zeros(n);
    PlusLaws(t, z, z);
    if |s| > 0 {
      AddLineKeeps(d, s[0].0, s[0].1);
      AddLineTotal(d, s[0].0, s[0].1);
      MergeInnerTotal(AddLine(d, s[0].0, s[0].1), s[1..], n);
      PlusLaws(t, s[0].1, InnerTotal(s[1..], n));
    }
  }

  /** The total of the merged map is the sum of the totals. */
  lemma {:induction false} MergeTotal(d: Outer, s: Outer, n: nat)
    requires AllUniform(d, n) && AllUniform(s, n) && Ordered(d) && Ordered(s)
    ensures OuterTotal(MergeOuter(d, s, n), n) == Plus(OuterTotal(d, n), OuterTotal(s, n))
    decreases |s|
  {
    hide Plus, Put, InnerTotal, Order, Uniform, MergeInner;
    var t, z := OuterTotal(d, n), Zeros(n);
    PlusLaws(t, z, z);
    if |s| > 0 {
      var k, m := s[0].0, MergedLines(d, s[0].0, s[0].1, n);
      var x := InnerTotal(s[0].1, n);
      MergedLinesAt(d, k, s[0].1, n, 0);
      LinesSorted(d, k);
      NoLines(n);
      PlusLaws(z, x, x);
      PlusLaws(x, z, z);
      if Get(CmpFileFn, d, k).Some? {
        MergeInnerTotal(LinesOf(d, n, k), s[0].1, n);
      }
      PutTotal(d, n, k, m, x);
      PutKeepsOrdered(d, n, k, m);
      SortedTail(CmpFileFn, s);
      MergeTotal(Put(CmpFileFn, d, k, m), s[1..], n);
      PlusLaws(t, x, OuterTotal(s[1..], n));
    }
  }
}
