/**
 The three-level lookup table that holds a timestamp for every memory granule.
 */
module LookupTables {
  import opened Common
  import opened ShadowMap
  import opened RmsCompression

  const LK_SIZE: nat := 0x1_0000
  const ILT_SIZE: nat := 0x4000
  // Addresses covered by the table.
  const ADDRESSES: nat := 0x4000_0000_0000

  // Bytes per granule.
  predicate Resolution(r: nat) {
    r == 1 || r == 2 || r == 4 || r == 8 || r == 16
  }

  // Granules in a segment.
  function SegmentSize(res: nat): (s: nat)
    requires Resolution(res)
    ensures s > 0 && s * res == 0x1_0000
  {
    0x1_0000 / res
  }

  // With s granules in a segment: the segment of a granule, counted through the whole
  // table, the granule's place in it, and the granules that the table covers.
  function Chunk(g: nat, s: nat): nat
    requires s > 0
  {
    g / s
  }

  function Offset(g: nat, s: nat): (j: nat)
    requires s > 0
    ensures j < s
  {
    g % s
  }

  predicate InTable(g: nat, s: nat)
    requires s > 0
  {
    Chunk(g, s) < LK_SIZE * ILT_SIZE
  }

  // --- addresses, granules and slots ---

  lemma {:induction false} SlotDecomposition(addr: nat, res: nat, s: nat)
    requires res > 0 && s > 0 && s * res == 0x1_0000
    ensures addr / res / s == addr / 0x1_0000
    ensures addr / res % s == (addr % 0x1_0000) / res
  {
    var c, r := addr / 0x1_0000, addr % 0x1_0000;
    var j, b := r / res, r % res;
    QuotientBelow(r, s, res);
    GranuleOf(c, s, j, res);
    assert addr == (c * s + j) * res + b;
    Quotient(c * s + j, b, res);
    Quotient(c, j, s);
  }

  lemma QuotientBelow(r: nat, s: nat, res: nat)
    requires res > 0 && r < s * res
    ensures r / res < s
  {
    var q := r / res;
    assert r == q * res + r % res;
    if q >= s { TimesMonotone(s, q, res); }
  }

  lemma GranuleOf(c: nat, s: nat, j: nat, res: nat)
    requires s * res == 0x1_0000
    ensures (c * s + j) * res == c * 0x1_0000 + j * res
  {
    assert (c * s) * res == c * (s * res);
  }

  lemma SameChunk(x: nat, g: nat, s: nat)
    requires s > 0
    ensures Chunk(x, s) == Chunk(g, s) <==> x in Segment(g, s)
    ensures Chunk(x, s) == Chunk(g, s) && Offset(x, s) == Offset(g, s) ==> x == g
  {
    assert x == (x / s) * s + x % s && g == (g / s) * s + g % s;
  }

  // The indices computed from an address are those of its granule's slot.
  lemma {:induction false} SlotOfAddress(addr: nat, res: nat)
    requires Resolution(res) && addr < ADDRESSES
    ensures var g := addr / res; var s := SegmentSize(res);
      && InTable(g, s)
      && addr / 0x4000_0000 == Chunk(g, s) / ILT_SIZE < LK_SIZE
      && (addr / 0x1_0000) % ILT_SIZE == Chunk(g, s) % ILT_SIZE
      && (addr % 0x1_0000) / res == Offset(g, s)
  {
    SlotDecomposition(addr, res, SegmentSize(res));
  }

  // The three indices are the same for two addresses just when these are in one granule.
  lemma {:induction false} SlotsDiffer(a: nat, b: nat, res: nat)
    requires Resolution(res) && a < ADDRESSES && b < ADDRESSES
    ensures a / 0x4000_0000 == b / 0x4000_0000 && (a / 0x1_0000) % ILT_SIZE == (b / 0x1_0000) % ILT_SIZE
         && (a % 0x1_0000) / res == (b % 0x1_0000) / res
       <==> a / res == b / res
  {
    var s := SegmentSize(res);
    SlotOfAddress(a, res);
    SlotOfAddress(b, res);
    SameChunk(a / res, b / res, s);
    var c, d := Chunk(a / res, s), Chunk(b / res, s);
    assert c == (c / ILT_SIZE) * ILT_SIZE + c % ILT_SIZE && d == (d / ILT_SIZE) * ILT_SIZE + d % ILT_SIZE;
  }

  // --- tables as values ---

  // First-level slots that are not NULL, and in each the second-level slots.
  type Table = map<nat, map<nat, seq<nat>>>

  ghost predicate WellFormed(t: Table, s: nat) {
    && s > 0
    && forall i, k :: i in t && k in t[i] ==> k < ILT_SIZE && |t[i][k]| == s
  }

  predicate HasChunk(t: Table, c: nat) {
    c / ILT_SIZE in t && c % ILT_SIZE in t[c / ILT_SIZE]
  }

  function ChunkOf(t: Table, c: nat): seq<nat>
    requires HasChunk(t, c)
  {
    t[c / ILT_SIZE][c % ILT_SIZE]
  }

  function WithChunk(t: Table, c: nat, segment: seq<nat>): Table {
    var second: map<nat, seq<nat>> := if c / ILT_SIZE in t then t[c / ILT_SIZE] else map[];
    t[c / ILT_SIZE := second[c % ILT_SIZE := segment]]
  }

  lemma WithChunkChunks(t: Table, c: nat, segment: seq<nat>, s: nat, d: nat)
    requires WellFormed(t, s) && |segment| == s
    ensures WellFormed(WithChunk(t, c, segment), s)
    ensures HasChunk(WithChunk(t, c, segment), d) <==> HasChunk(t, d) || d == c
    ensures HasChunk(WithChunk(t, c, segment), d) ==>
      ChunkOf(WithChunk(t, c, segment), d) == if d == c then segment else ChunkOf(t, d)
  {
  }

  lemma ChunkLength(t: Table, c: nat, s: nat)
    requires WellFormed(t, s)
    ensures HasChunk(t, c) ==> |ChunkOf(t, c)| == s
  {
  }

  // The word of granule g, which is zero in a segment that is not allocated.
  ghost function Word(t: Table, s: nat, g: nat): nat
    requires WellFormed(t, s)
  {
    if HasChunk(t, Chunk(g, s)) then ChunkOf(t, Chunk(g, s))[Offset(g, s)] else 0
  }

  ghost function Contents(t: Table, s: nat): Shadow
    requires WellFormed(t, s)
  {
    map g: nat | g < LK_SIZE * ILT_SIZE * s && InTable(g, s) && HasChunk(t, Chunk(g, s)) :: Word(t, s, g)
  }

  lemma {:induction false} ContentsAt(t: Table, s: nat, g: nat)
    requires WellFormed(t, s)
    ensures g in Contents(t, s) <==> InTable(g, s) && HasChunk(t, Chunk(g, s))
    ensures InTable(g, s) ==> Cell(Contents(t, s), g) == Word(t, s, g)
  {
    hide InTable, HasChunk, ChunkOf, Chunk, Offset;
    if InTable(g, s) {
      TableBound(g, s);
    }
  }

  lemma {:induction false} TableBound(g: nat, s: nat)
    requires s > 0 && InTable(g, s)
    ensures g < LK_SIZE * ILT_SIZE * s
  {
    var k := LK_SIZE * ILT_SIZE;
    TimesMonotone(g / s, k - 1, s);
    assert (k - 1) * s + s == k * s;
  }

  // Writing a word into its segment, allocated if need be, stores it in the contents.
  lemma {:induction false} ContentsAfter(t: Table, s: nat, g: nat, segment: seq<nat>, ts: nat)
    requires WellFormed(t, s) && InTable(g, s) && |segment| == s
    requires segment == (if HasChunk(t, Chunk(g, s)) then ChunkOf(t, Chunk(g, s)) else Zeros(s))[Offset(g, s) := ts]
    ensures WellFormed(WithChunk(t, Chunk(g, s), segment), s)
    ensures Contents(WithChunk(t, Chunk(g, s), segment), s) == Stored(Contents(t, s), g, ts, s)
  {
    hide WithChunk, HasChunk, ChunkOf, Contents, Segment, InTable, Chunk;
    var n := WithChunk(t, Chunk(g, s), segment);
    WithChunkChunks(t, Chunk(g, s), segment, s, 0);
    ChunkLength(t, Chunk(g, s), s);
    forall x: nat
      ensures x in Contents(n, s) <==> x in Stored(Contents(t, s), g, ts, s)
      ensures Cell(Contents(n, s), x) == Cell(Stored(Contents(t, s), g, ts, s), x)
    {
      SameChunk(x, g, s);
      WithChunkChunks(t, Chunk(g, s), segment, s, Chunk(x, s));
      ContentsAt(t, s, x);
      ContentsAt(n, s, x);
      InTableIsByChunk(x, g, s);
      if InTable(x, s) {
        assert Word(n, s, x) == if x == g then ts else Word(t, s, x);
      }
    }
    SameCells(Contents(n, s), Stored(Contents(t, s), g, ts, s));
  }

  lemma InTableIsByChunk(x: nat, g: nat, s: nat)
    requires s > 0 && InTable(g, s)
    ensures Chunk(x, s) == Chunk(g, s) ==> InTable(x, s)
  {
  }

  function Zeros(n: nat): (z: seq<nat>)
    ensures |z| == n && forall i :: 0 <= i < n ==> z[i] == 0
  {
    seq(n, _ => 0)
  }

  // --- renumbering a table in place ---

  function NewSegment(ids: seq<nat>, segment: seq<nat>): (r: seq<nat>)
    ensures |r| == |segment|
  {
    seq(|segment|, j requires 0 <= j < |segment| => NewWord(ids, segment[j]))
  }

  /** One pass over a segment: every word by a descending search among the identifiers. */
  method CompressSegment(segment: seq<nat>, ids: seq<nat>) returns (r: seq<nat>)
    ensures r == NewSegment(ids, segment)
  {
    r := segment;
    var j := 0;
    while j < |segment|
      invariant 0 <= j <= |segment| && |r| == |segment|
      invariant forall x :: 0 <= x < |segment| ==> r[x] == if x < j then NewWord(ids, segment[x]) else segment[x]
    {
      var rid := segment[j];
      if rid != 0 {
        var k := |ids| - 1;
        while k >= 0 && ids[k] > rid
          invariant -1 <= k < |ids|
          invariant forall x :: k < x < |ids| ==> ids[x] > rid
        {
          k := k - 1;
        }
        r := r[j := k + 1];
      }
      j := j + 1;
    }
  }

  // The chunks before n are renumbered, the others as they were.
  ghost predicate RenumberedUpTo(was: Table, now: Table, ids: seq<nat>, n: nat) {
    && (forall i :: i in was <==> i in now)
    && forall i, k :: i in was ==>
      && (k in was[i] <==> k in now[i])
      && (k in was[i] ==> now[i][k] == if i * ILT_SIZE + k < n then NewSegment(ids, was[i][k]) else was[i][k])
  }

  // One chunk more.
  lemma {:induction false} RenumberedStep(was: Table, now: Table, ids: seq<nat>, s: nat, i: nat, q: nat)
    requires WellFormed(was, s) && WellFormed(now, s) && i in now && q < ILT_SIZE
    requires RenumberedUpTo(was, now, ids, i * ILT_SIZE + q)
    ensures q !in now[i] ==> RenumberedUpTo(was, now, ids, i * ILT_SIZE + q + 1)
    ensures q in now[i] ==> i in was && q in was[i] && now[i][q] == was[i][q]
    ensures q in now[i] ==> var n := Put(now, i, q, NewSegment(ids, now[i][q]));
      WellFormed(n, s) && i in n && RenumberedUpTo(was, n, ids, i * ILT_SIZE + q + 1)
  {
    hide NewSegment;
  }

  lemma RenumberedNone(t: Table, ids: seq<nat>, s: nat)
    requires WellFormed(t, s)
    ensures RenumberedUpTo(t, t, ids, 0)
  {
  }

  lemma RenumberedSkip(was: Table, now: Table, ids: seq<nat>, s: nat, i: nat)
    requires WellFormed(was, s) && i !in now
    requires RenumberedUpTo(was, now, ids, i * ILT_SIZE)
    ensures RenumberedUpTo(was, now, ids, (i + 1) * ILT_SIZE)
  {
    hide NewSegment;
  }

  function Put(t: Table, i: nat, q: nat, segment: seq<nat>): Table
    requires i in t
  {
    var second: map<nat, seq<nat>> := t[i];
    t[i := second[q := segment]]
  }

  lemma RenumberedContents(was: Table, now: Table, ids: seq<nat>, s: nat)
    requires WellFormed(was, s) && RenumberedUpTo(was, now, ids, LK_SIZE * ILT_SIZE)
    ensures WellFormed(now, s)
    ensures Contents(now, s) == Compressed(ids, Contents(was, s))
  {
    hide InTable, Chunk, NewSegment, NewWord;
    forall x: nat
      ensures x in Contents(now, s) <==> x in Compressed(ids, Contents(was, s))
      ensures Cell(Contents(now, s), x) == Cell(Compressed(ids, Contents(was, s)), x)
    {
      RenumberedPoint(was, now, ids, s, x);
    }
    SameCells(Contents(now, s), Compressed(ids, Contents(was, s)));
  }

  lemma RenumberedPoint(was: Table, now: Table, ids: seq<nat>, s: nat, x: nat)
    requires WellFormed(was, s) && RenumberedUpTo(was, now, ids, LK_SIZE * ILT_SIZE)
    ensures WellFormed(now, s)
    ensures x in Contents(now, s) <==> x in Compressed(ids, Contents(was, s))
    ensures Cell(Contents(now, s), x) == Cell(Compressed(ids, Contents(was, s)), x)
  {
    hide Contents, Chunk;
    ContentsAt(was, s, x);
    ContentsAt(now, s, x);
  }

  class LookupTable {
    const resolution: nat
    var table: Table

    ghost predicate Valid()
      reads this
    {
      Resolution(resolution) && WellFormed(table, SegmentSize(resolution))
    }

    ghost function Shadow(): ShadowMap.Shadow
      requires Valid()
      reads this
    {
      Contents(table, SegmentSize(resolution))
    }

    constructor (resolution: nat)
      requires Resolution(resolution)
      ensures Valid() && this.resolution == resolution && Shadow() == map[]
    {
      this.resolution := resolution;
      table := map[];
    }

    /** Stores ts for an address and returns the timestamp it replaces. */
    method Insert(addr: nat, ts: nat) returns (prev: nat)
      requires Valid() && addr < ADDRESSES
      modifies this
      ensures Valid()
      ensures prev == Cell(old(Shadow()), addr / resolution)
      ensures Shadow() == Stored(old(Shadow()), addr / resolution, ts, SegmentSize(resolution))
    {
      var i := addr / 0x4000_0000;
      var k := (addr / 0x1_0000) % 0x4000;
      var j := (addr % 0x1_0000) / resolution;
      ghost var s := SegmentSize(resolution);
      SlotOfAddress(addr, resolution);
      ContentsAt(table, s, addr / resolution);
      if i !in table {
        table := table[i := map[]];
      }
      var segment: seq<nat>;
      if k !in table[i] {
        segment := Zeros(0x1_0000 / resolution);
        prev := 0;
      } else {
        segment := table[i][k];
        prev := segment[j];
      }
      segment := segment[j := ts];
      table := table[i := table[i][k := segment]];
      assert table == WithChunk(old(table), Chunk(addr / resolution, s), segment);
      ContentsAfter(old(table), s, addr / resolution, segment, ts);
    }

    method Lookup(addr: nat) returns (ts: nat)
      requires Valid() && addr < ADDRESSES
      ensures ts == Cell(Shadow(), addr / resolution)
    {
      var i := addr / 0x4000_0000;
      var k := (addr / 0x1_0000) % 0x4000;
      var j := (addr % 0x1_0000) / resolution;
      SlotOfAddress(addr, resolution);
      ContentsAt(table, SegmentSize(resolution), addr / resolution);
      if i !in table || k !in table[i] {
        return 0;
      }
      return table[i][k][j];
    }
  
    /** Renumbers every word of the table after the activation identifiers ran out. */
    method CompressRms(ids: seq<nat>)
      requires Valid()
      modifies this
      ensures Valid() && Shadow() == Compressed(ids, old(Shadow()))
    {
      hide RenumberedUpTo, WellFormed, Contents, Compressed, NewSegment, Put;
      RenumberedNone(table, ids, SegmentSize(resolution));
      var i := 0;
      while i < LK_SIZE
        invariant 0 <= i <= LK_SIZE
        invariant WellFormed(table, SegmentSize(resolution))
        invariant RenumberedUpTo(old(table), table, ids, i * ILT_SIZE)
      {
        if i in table {
          var q: nat := 0;
          while q < ILT_SIZE
            invariant 0 <= q <= ILT_SIZE && i in table
            invariant WellFormed(table, SegmentSize(resolution))
            invariant RenumberedUpTo(old(table), table, ids, i * ILT_SIZE + q)
          {
            RenumberedStep(old(table), table, ids, SegmentSize(resolution), i, q);
            if q in table[i] {
              var segment := CompressSegment(table[i][q], ids);
              table := Put(table, i, q, segment);
            }
            q := q + 1;
          }
        } else {
          RenumberedSkip(old(table), table, ids, SegmentSize(resolution), i);
        }
        i := i + 1;
      }
      RenumberedContents(old(table), table, ids, SegmentSize(resolution));
    }
  }
}
