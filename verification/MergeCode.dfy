/**
 Merging one profile into another in place. Inner maps are objects and count vectors are arrays:
 the merge adds into the vectors of the destination and copies whatever it takes over, so that
 the two profiles never share memory.
 */
module MergeCode {
  import opened Common
  import opened Bindings
  import opened Profiles
  import opened ProfileMerge
  import opened ProfileText
  import opened ProfileFiles

  type Vector = array<ULong>
  type CountLines = seq<Entry<ULong, Vector>>

  // An inner map, from line numbers to count vectors.
  class CountMap {
    var lines: CountLines

    constructor (lines: CountLines)
      ensures this.lines == lines
    {
      this.lines := lines;
    }
  }

  // --- count vectors ---

  // dopy_Counts
  method DopyCounts(cts: Vector) returns (c: Vector)
    ensures fresh(c) && c[..] == cts[..]
  {
    c := new ULong[cts.Length](i requires 0 <= i < cts.Length reads cts => cts[i]);
    assert c[..] == cts[..];
  }

  // addCounts, on counts of the same number of events
  method AddCountsTo(counts1: Vector, counts2: Vector)
    requires counts1.Length == counts2.Length && counts1 != counts2
    modifies counts1
    ensures counts1[..] == Plus(old(counts1[..]), old(counts2[..]))
  {
    for i := 0 to counts1.Length
      invariant forall k :: 0 <= k < counts1.Length ==>
        counts1[k] == if k < i then (old(counts1[k]) + counts2[k]) % ULONG else old(counts1[k])
    {
      counts1[i] := (counts1[i] + counts2[i]) % ULONG;
    }
  }

  // --- what the objects show ---

  ghost function Vectors(lines: CountLines): set<Vector> {
    set i | 0 <= i < |lines| :: lines[i].1
  }

  // No vector is bound twice.
  ghost predicate Apart(lines: CountLines) {
    forall i, j :: 0 <= i < j < |lines| ==> lines[i].1 != lines[j].1
  }

  ghost predicate SameKeys<K, V, W>(es: seq<Entry<K, V>>, fs: seq<Entry<K, W>>) {
    |es| == |fs| && forall i :: 0 <= i < |es| ==> es[i].0 == fs[i].0
  }

  ghost predicate ShowsInner(lines: CountLines, m: Inner)
    reads Vectors(lines)
  {
    SameKeys(lines, m) && forall i :: 0 <= i < |lines| ==> lines[i].1[..] == m[i].1
  }

  type Maps = seq<Entry<FileFn, CountMap>>

  ghost function MapObjects(o: Maps): set<object> {
    set i | 0 <= i < |o| :: o[i].1
  }

  ghost function VectorObjects(o: Maps): set<object>
    reads MapObjects(o)
  {
    set i, v | 0 <= i < |o| && v in Vectors(o[i].1.lines) :: v
  }

  // The memory of an outer map.
  ghost function Memory(o: Maps): set<object>
    reads MapObjects(o)
  {
    MapObjects(o) + VectorObjects(o)
  }

  // No inner map is bound twice, and none shares a vector with another.
  ghost predicate AllApart(o: Maps)
    reads MapObjects(o)
  {
    && (forall i :: 0 <= i < |o| ==> Apart(o[i].1.lines))
    && forall i, j :: 0 <= i < j < |o| ==> o[i].1 != o[j].1 && Vectors(o[i].1.lines) !! Vectors(o[j].1.lines)
  }

  ghost predicate ShowsOuter(o: Maps, p: Outer)
    reads Memory(o)
  {
    SameKeys(o, p) && forall i :: 0 <= i < |o| ==> ShowsInner(o[i].1.lines, p[i].1)
  }

  // --- finding a key and making a place for one ---

  // The place of a key, if it is there.
  ghost function Place<K, V>(cmp: Cmp<K>, es: seq<Entry<K, V>>, k: K): (i: nat)
    ensures i <= |es|
  {
    if |es| == 0 || cmp(es[0].0, k) == 0 then 0 else 1 + Place(cmp, es[1..], k)
  }

  lemma {:induction false} GetAtPlace<K, V>(cmp: Cmp<K>, es: seq<Entry<K, V>>, k: K)
    ensures var i := Place(cmp, es, k); Get(cmp, es, k) == if i < |es| then Some(es[i].1) else None
  {
    if |es| > 0 && cmp(es[0].0, k) != 0 {
      GetAtPlace(cmp, es[1..], k);
    }
  }

  lemma {:induction false} PutAtPlace<K(!new), V>(cmp: Cmp<K>, es: seq<Entry<K, V>>, k: K, v: V)
    requires Get(cmp, es, k).Some? && Order(cmp) && Sorted(cmp, es)
    ensures var i := Place(cmp, es, k); i < |es| && Put(cmp, es, k, v) == es[i := (es[i].0, v)]
  {
    hide Order;
    if cmp(es[0].0, k) > 0 {
      FirstAbove(cmp, es, k);
      GetAbsent(cmp, es, k);
    } else if cmp(es[0].0, k) < 0 {
      SortedTail(cmp, es);
      PutAtPlace(cmp, es[1..], k, v);
      var j := Place(cmp, es[1..], k);
      assert [es[0]] + es[1..][j := (es[1..][j].0, v)] == es[j + 1 := (es[j + 1].0, v)];
    }
  }

  lemma {:induction false} SamePlace<K, V, W>(cmp: Cmp<K>, es: seq<Entry<K, V>>, fs: seq<Entry<K, W>>, k: K)
    requires SameKeys(es, fs)
    ensures Place(cmp, es, k) == Place(cmp, fs, k)
  {
    if |es| > 0 {
      SamePlace(cmp, es[1..], fs[1..], k);
    }
  }

  // Lists with the same keys find a key at the same place, where its value is replaced.
  lemma FoundBoth<K(!new), V, W>(cmp: Cmp<K>, es: seq<Entry<K, V>>, fs: seq<Entry<K, W>>, k: K, w: W) returns (i: nat)
    requires SameKeys(es, fs) && Get(cmp, es, k).Some? && Order(cmp) && Sorted(cmp, fs)
    ensures i < |es| && Get(cmp, es, k) == Some(es[i].1) && Get(cmp, fs, k) == Some(fs[i].1)
    ensures Put(cmp, fs, k, w) == fs[i := (fs[i].0, w)]
  {
    hide Put, Get, Place, Order, Sorted;
    SamePlace(cmp, es, fs, k);
    GetAtPlace(cmp, es, k);
    GetAtPlace(cmp, fs, k);
    PutAtPlace(cmp, fs, k, w);
    i := Place(cmp, es, k);
  }

  // The place of a key that is not there: before the first larger one.
  ghost function Gap<K, V>(cmp: Cmp<K>, es: seq<Entry<K, V>>, k: K): (i: nat)
    ensures i <= |es|
  {
    if |es| == 0 || cmp(es[0].0, k) > 0 then 0 else 1 + Gap(cmp, es[1..], k)
  }

  lemma {:induction false} PutAtGap<K, V>(cmp: Cmp<K>, es: seq<Entry<K, V>>, k: K, v: V)
    requires Get(cmp, es, k).None?
    ensures var i := Gap(cmp, es, k); Put(cmp, es, k, v) == es[..i] + [(k, v)] + es[i..]
  {
    if |es| > 0 && cmp(es[0].0, k) <= 0 {
      PutAtGap(cmp, es[1..], k, v);
      var j := Gap(cmp, es[1..], k);
      assert [es[0]] + (es[1..][..j] + [(k, v)] + es[1..][j..]) == es[..j + 1] + [(k, v)] + es[j + 1..];
    }
  }

  lemma {:induction false} SameGap<K, V, W>(cmp: Cmp<K>, es: seq<Entry<K, V>>, fs: seq<Entry<K, W>>, k: K)
    requires SameKeys(es, fs)
    ensures Get(cmp, es, k).None? <==> Get(cmp, fs, k).None?
    ensures Gap(cmp, es, k) == Gap(cmp, fs, k)
  {
    if |es| > 0 {
      SameGap(cmp, es[1..], fs[1..], k);
    }
  }

  // Lists with the same keys lack a key together, and it is bound at the same place.
  lemma MissedBoth<K, V, W>(cmp: Cmp<K>, es: seq<Entry<K, V>>, fs: seq<Entry<K, W>>, k: K, v: V, w: W) returns (i: nat)
    requires SameKeys(es, fs) && Get(cmp, es, k).None?
    ensures Get(cmp, fs, k).None? && i <= |es|
    ensures Put(cmp, es, k, v) == es[..i] + [(k, v)] + es[i..] && Put(cmp, fs, k, w) == fs[..i] + [(k, w)] + fs[i..]
  {
    hide Put, Get, Gap;
    SameGap(cmp, es, fs, k);
    PutAtGap(cmp, es, k, v);
    PutAtGap(cmp, fs, k, w);
    i := Gap(cmp, es, k);
  }

  // A new vector bound at place i.
  lemma InsertShows(lines: CountLines, d: Inner, i: nat, k: ULong, v: Vector)
    requires ShowsInner(lines, d) && Apart(lines) && i <= |lines| && v !in Vectors(lines)
    ensures var r := lines[..i] + [(k, v)] + lines[i..];
      ShowsInner(r, d[..i] + [(k, v[..])] + d[i..]) && Apart(r) && Vectors(r) == Vectors(lines) + {v}
  {
    var r := lines[..i] + [(k, v)] + lines[i..];
    assert forall j :: 0 <= j < |r| ==> r[j] == if j < i then lines[j] else if j == i then (k, v) else lines[j - 1];
    forall x | x in Vectors(lines) ensures x in Vectors(r) {
      var j :| 0 <= j < |lines| && x == lines[j].1;
      assert r[if j < i then j else j + 1].1 == x;
    }
    assert r[i].1 == v;
  }

  // --- copying and merging inner maps ---

  // dopy_InnerMap
  method DopyInnerMap(innerMap: CountMap, ghost m: Inner) returns (c: CountMap)
    requires ShowsInner(innerMap.lines, m)
    ensures fresh(c) && fresh(Vectors(c.lines)) && Apart(c.lines) && ShowsInner(c.lines, m)
  {
    var lines: CountLines := [];
    for i := 0 to |innerMap.lines|
      invariant |lines| == i && Apart(lines) && fresh(Vectors(lines))
      invariant forall j :: 0 <= j < i ==> lines[j].0 == m[j].0 && lines[j].1[..] == m[j].1
    {
      var (line, counts) := innerMap.lines[i];
      var copy := DopyCounts(counts);
      assert forall j :: 0 <= j < i ==> lines[j].1 in Vectors(lines);
      lines := lines + [(line, copy)];
    }
    c := new CountMap(lines);
  }

  // The counts of a line that is known grow in place.
  method AddAt(lines: CountLines, diVal: Vector, siVal: Vector, ghost d: Inner, ghost i: nat)
    requires ShowsInner(lines, d) && Apart(lines) && i < |lines| && lines[i].1 == diVal
    requires siVal.Length == diVal.Length && siVal !in Vectors(lines)
    modifies diVal
    ensures ShowsInner(lines, d[i := (d[i].0, Plus(d[i].1, siVal[..]))])
  {
    assert diVal in Vectors(lines);
    AddCountsTo(diVal, siVal);
  }

  // One turn of the inner loop: a line that is new is bound to a copy, the counts of another
  // are added.
  method MergeLine(doVal: CountMap, siKey: ULong, siVal: Vector, ghost d: Inner, ghost n: nat)
    requires ShowsInner(doVal.lines, d) && Apart(doVal.lines) && Uniform(d, n) && Sorted(CmpLine, d)
    requires siVal.Length == n && siVal !in Vectors(doVal.lines)
    modifies doVal, Vectors(doVal.lines)
    ensures ShowsInner(doVal.lines, AddLine(d, siKey, siVal[..])) && Apart(doVal.lines)
    ensures fresh(Vectors(doVal.lines) - old(Vectors(doVal.lines)))
  {
    hide Order, Sorted, Plus, ShowsInner, Apart, Put, Get, Vectors;
    OrdersOfKeys();
    ghost var c := siVal[..];
    KeysShown(doVal.lines, d);
    VectorsAllocated(doVal.lines);
    match Get(CmpLine, doVal.lines, siKey) {
      case None =>
        var copy := DopyCounts(siVal);
        ghost var i := MissedBoth(CmpLine, doVal.lines, d, siKey, copy, c);
        InsertShows(doVal.lines, d, i, siKey, copy);
        doVal.lines := Put(CmpLine, doVal.lines, siKey, copy);
      case Some(diVal) =>
        GetUniform(d, n, siKey);
        ghost var i := FoundBoth(CmpLine, doVal.lines, d, siKey, AddedCounts(d, siKey, c));
        ShownAt(doVal.lines, d, i);
        AddAt(doVal.lines, diVal, siVal, d, i);
    }
  }

  lemma KeysShown(lines: CountLines, d: Inner)
    requires ShowsInner(lines, d)
    ensures SameKeys(lines, d)
  {
  }

  lemma ShownAt(lines: CountLines, d: Inner, i: nat)
    requires ShowsInner(lines, d) && i < |lines|
    ensures i < |d| && lines[i].1[..] == d[i].1 && lines[i].1 in Vectors(lines)
  {
  }

  lemma VectorsAllocated(lines: CountLines)
    ensures forall v :: v in Vectors(lines) ==> allocated(v)
  {
  }

  // The merge of two inner maps: every line of the source in turn.
  method MergeInnerMaps(doVal: CountMap, soVal: CountMap, ghost d: Inner, ghost m: Inner, ghost n: nat)
    requires ShowsInner(doVal.lines, d) && Apart(doVal.lines) && Uniform(d, n) && Sorted(CmpLine, d)
    requires ShowsInner(soVal.lines, m) && Uniform(m, n)
    requires doVal != soVal && Vectors(doVal.lines) !! Vectors(soVal.lines)
    modifies doVal, Vectors(doVal.lines)
    ensures ShowsInner(doVal.lines, MergeInner(d, m, n)) && Apart(doVal.lines)
    ensures fresh(Vectors(doVal.lines) - old(Vectors(doVal.lines)))
  {
    hide Sorted, Plus, Apart, AddLine;
    ghost var target, now := MergeInner(d, m, n), d;
    var lines := soVal.lines;
    VectorsAllocated(lines);
    var j := 0;
    while j < |lines|
      invariant 0 <= j <= |lines| == |m| && soVal.lines == lines && ShowsInner(lines, m)
      invariant ShowsInner(doVal.lines, now) && Apart(doVal.lines) && Uniform(now, n) && Sorted(CmpLine, now)
      invariant fresh(Vectors(doVal.lines) - old(Vectors(doVal.lines)))
      invariant Uniform(m[j..], n) && MergeInner(now, m[j..], n) == target
    {
      var (siKey, siVal) := lines[j];
      ShownAt(lines, m, j);
      assert m[j..][0] == m[j] && m[j..][1..] == m[j + 1..];
      AddLineKeeps(now, siKey, siVal[..]);
      MergeLine(doVal, siKey, siVal, now, n);
      now := AddLine(now, siKey, m[j].1);
      j := j + 1;
    }
  }

  // --- merging the outer maps ---

  lemma MemoryAllocated(o: Maps)
    ensures forall x :: x in Memory(o) ==> allocated(x)
  {
  }

  lemma OuterShownAt(o: Maps, p: Outer, i: nat)
    requires ShowsOuter(o, p) && i < |o|
    ensures i < |p| && ShowsInner(o[i].1.lines, p[i].1) && o[i].1 in MapObjects(o)
    ensures forall v :: v in Vectors(o[i].1.lines) ==> v in Memory(o)
  {
  }

  // An outer map with a new inner map bound at place i.
  function Inserted(o: Maps, i: nat, k: FileFn, c: CountMap): (r: Maps)
    requires i <= |o|
    ensures |r| == |o| + 1
    ensures forall j :: 0 <= j < |r| ==> r[j] == if j < i then o[j] else if j == i then (k, c) else o[j - 1]
  {
    o[..i] + [(k, c)] + o[i..]
  }

  ghost predicate Outside(c: CountMap, o: Maps)
    reads c, MapObjects(o)
  {
    c !in MapObjects(o) && forall v :: v in Vectors(c.lines) ==> v !in Memory(o)
  }

  lemma InMemory(o: Maps, j: nat)
    requires j < |o|
    ensures o[j].1 in MapObjects(o) && o[j].1 in Memory(o)
    ensures forall v :: v in Vectors(o[j].1.lines) ==> v in Memory(o)
  {
  }

  lemma InsertShowsOuter(o: Maps, p: Outer, i: nat, k: FileFn, c: CountMap, m: Inner)
    requires ShowsOuter(o, p) && i <= |o| && ShowsInner(c.lines, m)
    ensures ShowsOuter(Inserted(o, i, k, c), p[..i] + [(k, m)] + p[i..])
  {
    hide ShowsInner;
    var r, q := Inserted(o, i, k, c), p[..i] + [(k, m)] + p[i..];
    forall j | 0 <= j < |r| ensures r[j].0 == q[j].0 && ShowsInner(r[j].1.lines, q[j].1) {
      if j != i {
        var l := if j < i then j else j - 1;
        assert r[j] == o[l] && q[j] == p[l] && ShowsInner(o[l].1.lines, p[l].1);
      }
    }
  }

  lemma InsertApart(o: Maps, i: nat, k: FileFn, c: CountMap)
    requires AllApart(o) && i <= |o| && Apart(c.lines) && Outside(c, o)
    ensures AllApart(Inserted(o, i, k, c))
  {
    hide Apart, Vectors, Memory, MapObjects;
    var r := Inserted(o, i, k, c);
    forall j | 0 <= j < |r|
      ensures Apart(r[j].1.lines)
      ensures j != i ==> r[j].1 != c && Vectors(c.lines) !! Vectors(r[j].1.lines)
    {
      if j != i {
        var l := if j < i then j else j - 1;
        assert r[j] == o[l] && Apart(o[l].1.lines);
        InMemory(o, l);
      }
    }
    forall a, b | 0 <= a < b < |r| ensures r[a].1 != r[b].1 && Vectors(r[a].1.lines) !! Vectors(r[b].1.lines) {
      if a != i && b != i {
        assert r[a] == o[if a < i then a else a - 1] && r[b] == o[if b < i then b else b - 1];
      }
    }
  }

  lemma InsertMemory(o: Maps, i: nat, k: FileFn, c: CountMap, x: object)
    requires i <= |o| && x in Memory(Inserted(o, i, k, c))
    ensures x in Memory(o) || x == c || x in Vectors(c.lines)
  {
    hide Vectors;
    var j := MemoryParts(Inserted(o, i, k, c), x);
    if j != i { InMemory(o, if j < i then j else j - 1); }
  }

  lemma Separated(o: Maps, i: nat, j: nat)
    requires AllApart(o) && i < |o| && j < |o| && i != j
    ensures o[i].1 != o[j].1 && Vectors(o[i].1.lines) !! Vectors(o[j].1.lines)
  {
    assert i < j ==> o[i].1 != o[j].1;
  }

  // The lines of a key that is known are merged in place.
  method MergeAt(o: Maps, doVal: CountMap, soVal: CountMap, ghost d: Outer, ghost m: Inner, ghost i: nat, ghost n: nat)
    requires ShowsOuter(o, d) && AllApart(o) && i < |o| && o[i].1 == doVal
    requires Uniform(d[i].1, n) && Sorted(CmpLine, d[i].1)
    requires ShowsInner(soVal.lines, m) && Uniform(m, n) && Outside(soVal, o)
    modifies doVal, Vectors(doVal.lines)
    ensures ShowsOuter(o, d[i := (d[i].0, MergeInner(d[i].1, m, n))]) && AllApart(o)
    ensures fresh(Memory(o) - old(Memory(o)))
  {
    hide Sorted, Uniform, MergeInner, ShowsInner, Apart, Memory, MapObjects;
    ghost var was := doVal.lines;
    forall j | 0 <= j < |o|
      ensures o[j].1 in MapObjects(o) && o[j].1 in Memory(o)
      ensures forall v :: v in Vectors(o[j].1.lines) ==> v in Memory(o) && allocated(v)
      ensures j != i ==> o[j].1 != doVal && Vectors(doVal.lines) !! Vectors(o[j].1.lines)
    {
      InMemory(o, j);
      VectorsAllocated(o[j].1.lines);
      if j != i { Separated(o, i, j); }
    }
    MergeInnerMaps(doVal, soVal, d[i].1, m, n);
    forall j | 0 <= j < |o| && j != i
      ensures o[j].1.lines == old(o[j].1.lines) && ShowsInner(o[j].1.lines, d[j].1)
      ensures Vectors(doVal.lines) !! Vectors(o[j].1.lines)
    {
      assert old(ShowsInner(o[j].1.lines, d[j].1));
    }
    forall x | x in Memory(o) && x !in old(Memory(o)) ensures fresh(x) {
      var j := MemoryParts(o, x);
    }
  }

  lemma MemoryParts(o: Maps, x: object) returns (j: nat)
    requires x in Memory(o)
    ensures j < |o| && (x == o[j].1 || x in Vectors(o[j].1.lines))
  {
    if x in MapObjects(o) {
      j :| 0 <= j < |o| && o[j].1 == x;
    } else {
      var v: Vector;
      j, v :| 0 <= j < |o| && v in Vectors(o[j].1.lines) && v == x;
    }
  }

  // One turn of the outer loop: a key that is new is bound to a copy of the lines, those of
  // another are merged.
  method MergeKey(o: Maps, soKey: FileFn, soVal: CountMap, ghost d: Outer, ghost m: Inner, ghost n: nat) returns (r: Maps)
    requires ShowsOuter(o, d) && AllApart(o) && AllUniform(d, n) && Ordered(d)
    requires ShowsInner(soVal.lines, m) && Uniform(m, n) && Outside(soVal, o)
    modifies Memory(o)
    ensures ShowsOuter(r, Put(CmpFileFn, d, soKey, MergedLines(d, soKey, m, n))) && AllApart(r)
    ensures fresh(Memory(r) - old(Memory(o)))
  {
    hide Order, Sorted, Uniform, MergeInner, ShowsInner, Apart, Put, Get, Vectors;
    OrdersOfKeys();
    MemoryAllocated(o);
    match Get(CmpFileFn, o, soKey) {
      case None =>
        var copy := DopyInnerMap(soVal, m);
        ghost var i := MissedBoth(CmpFileFn, o, d, soKey, copy, m);
        InsertShowsOuter(o, d, i, soKey, copy, m);
        InsertApart(o, i, soKey, copy);
        r := Put(CmpFileFn, o, soKey, copy);
        forall x | x in Memory(r) && x !in old(Memory(o)) ensures fresh(x) {
          InsertMemory(o, i, soKey, copy, x);
        }
      case Some(doVal) =>
        ghost var i := FoundBoth(CmpFileFn, o, d, soKey, MergedLines(d, soKey, m, n));
        InMemory(o, i);
        MergeAt(o, doVal, soVal, d, m, i, n);
        r := o;
    }
  }

  lemma StepOrdered(d: Outer, key: FileFn, m: Inner, n: nat)
    requires AllUniform(d, n) && Ordered(d) && Uniform(m, n) && Sorted(CmpLine, m)
    ensures var r := Put(CmpFileFn, d, key, MergedLines(d, key, m, n)); AllUniform(r, n) && Ordered(r)
  {
    hide MergedLines, Put, AllUniform, Ordered;
    MergedLinesAt(d, key, m, n, 0);
    PutKeepsOrdered(d, n, key, MergedLines(d, key, m, n));
  }

  // The outer loop: every key of the source in turn.
  method MergeMaps(o: Maps, so: Maps, ghost d: Outer, ghost s: Outer, ghost n: nat) returns (r: Maps)
    requires ShowsOuter(o, d) && AllApart(o) && AllUniform(d, n) && Ordered(d)
    requires ShowsOuter(so, s) && AllApart(so) && AllUniform(s, n) && Ordered(s) && Memory(o) !! Memory(so)
    modifies Memory(o)
    ensures ShowsOuter(r, MergeOuter(d, s, n)) && AllApart(r) && fresh(Memory(r) - old(Memory(o)))
    ensures ShowsOuter(so, s) && AllApart(so) && Memory(so) == old(Memory(so)) && Memory(r) !! Memory(so)
  {
    hide Sorted, Uniform, MergedLines, ShowsInner, Apart, AllApart, Put;
    ghost var target, now := MergeOuter(d, s, n), d;
    MemoryAllocated(so);
    r := o;
    var i := 0;
    while i < |so|
      invariant 0 <= i <= |so| == |s| && ShowsOuter(so, s) && AllApart(so)
      invariant ShowsOuter(r, now) && AllApart(r) && AllUniform(now, n) && Ordered(now)
      invariant fresh(Memory(r) - old(Memory(o)))
      invariant Memory(so) == old(Memory(so)) && Memory(r) !! Memory(so)
      invariant AllUniform(s[i..], n) && MergeOuter(now, s[i..], n) == target
    {
      var (soKey, soVal) := so[i];
      OuterShownAt(so, s, i);
      InMemory(so, i);
      assert s[i..][0] == s[i] && s[i..][1..] == s[i + 1..];
      StepOrdered(now, soKey, s[i].1, n);
      r := MergeKey(r, soKey, soVal, now, s[i].1, n);
      now := Put(CmpFileFn, now, soKey, MergedLines(now, soKey, s[i].1, n));
      i := i + 1;
    }
  }

  // --- a profile ---

  // The running totals are added, apart from the maps.
  method AddSummaries(counts1: Vector, counts2: Vector, o: Maps, so: Maps, ghost d: Outer, ghost s: Outer)
    requires counts1.Length == counts2.Length && counts1 != counts2
    requires ShowsOuter(o, d) && AllApart(o) && ShowsOuter(so, s) && AllApart(so)
    requires counts1 !in Memory(o) && counts1 !in Memory(so)
    modifies counts1
    ensures counts1[..] == Plus(old(counts1[..]), old(counts2[..]))
    ensures ShowsOuter(o, d) && AllApart(o) && ShowsOuter(so, s) && AllApart(so)
    ensures Memory(o) == old(Memory(o)) && Memory(so) == old(Memory(so))
  {
    hide ShowsOuter, AllApart;
    MapsInMemory(o);
    MapsInMemory(so);
    AddCountsTo(counts1, counts2);
  }

  lemma MapsInMemory(o: Maps)
    ensures MapObjects(o) <= Memory(o)
  {
  }

  lemma NotMap(o: Maps, p: CacheProfFile)
    ensures p !in MapObjects(o)
  {
  }

  lemma NotMemory(o: Maps, p: CacheProfFile)
    ensures p !in Memory(o)
  {
  }

  class CacheProfFile {
    var desc: seq<string>
    var cmd: string
    var events: string
    var nEvents: nat
    var outerMap: Maps
    var summary: Vector
    ghost var profile: Profile

    ghost function Repr(): set<object>
      reads this, MapObjects(outerMap)
    {
      {this, summary} + Memory(outerMap)
    }

    // The objects show the profile, and nothing is bound twice.
    ghost predicate Valid()
      reads this, summary, Memory(outerMap)
    {
      && profile == Profile(desc, cmd, events, nEvents, profile.outer, summary[..])
      && ShowsOuter(outerMap, profile.outer) && AllApart(outerMap) && summary !in Memory(outerMap)
    }

    constructor (desc: seq<string>, cmd: string, events: string, nEvents: nat, outerMap: Maps, summary: Vector, ghost outer: Outer)
      requires ShowsOuter(outerMap, outer) && AllApart(outerMap) && summary !in Memory(outerMap)
      ensures Valid() && profile == Profile(desc, cmd, events, nEvents, outer, summary[..])
      ensures Repr() == {this, summary} + Memory(outerMap)
    {
      this.desc, this.cmd, this.events, this.nEvents := desc, cmd, events, nEvents;
      this.outerMap, this.summary := outerMap, summary;
      profile := Profile(desc, cmd, events, nEvents, outer, summary[..]);
    }

    /**
     merge_CacheProfInfo: refuses other events. Else this profile becomes the sum of both, which
     can be printed again. The other profile still shows what it did, and shares nothing with
     this one, not even what was taken over from it.
     */
    method MergeFrom(src: CacheProfFile) returns (ok: bool)
      requires Valid() && src.Valid() && Repr() !! src.Repr()
      requires Printable(profile) && Printable(src.profile)
      modifies Repr()
      ensures Valid() && src.Valid() && Repr() !! src.Repr() && fresh(Repr() - old(Repr()))
      ensures src.profile == old(src.profile) && src.Repr() == old(src.Repr())
      ensures ok <==> old(events) == src.events
      ensures !ok ==> profile == old(profile)
      ensures ok ==> Printable(profile)
      ensures ok ==> Mergeable(old(profile), src.profile) && profile == MergedProfile(old(profile), src.profile)
    {
      hide AllUniform, Profiles.Ordered, Plus, MergeOuter, AllApart, ShowsOuter, Printable, VectorObjects;
      if events != src.events {
        return false;
      }
      MergedPrintable(profile, src.profile);
      MemoryAllocated(src.outerMap);
      NotMemory(outerMap, this);
      NotMemory(outerMap, src);
      ghost var sum := MergedProfile(profile, src.profile);
      var merged := MergeMaps(outerMap, src.outerMap, profile.outer, src.profile.outer, nEvents);
      assert summary !in Memory(merged) && src.summary !in Memory(merged);
      AddSummaries(summary, src.summary, merged, src.outerMap, sum.outer, src.profile.outer);
      NotMemory(merged, src);
      NotMemory(src.outerMap, this);
      assert ({this, summary} + Memory(merged)) !! src.Repr();
      assert fresh(Memory(merged) - old(Memory(outerMap)));
      Become(merged, sum);
      ok := true;
    }

    // The outer map is the merged one.
    method Become(o: Maps, ghost p: Profile)
      requires p == Profile(desc, cmd, events, nEvents, p.outer, summary[..])
      requires ShowsOuter(o, p.outer) && AllApart(o) && summary !in Memory(o)
      modifies this`outerMap, this`profile
      ensures Valid() && profile == p && outerMap == o && Memory(outerMap) == old(Memory(o))
    {
      hide ShowsOuter, AllApart;
      NotMap(o, this);
      outerMap, profile := o, p;
    }
  }
}
