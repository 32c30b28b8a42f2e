/**
 callgrind's index of call arcs: a hash table of chained nodes that grows in place, with the
 last arc of each source and of each target remembered. One triple, one node.
 */
module CallArcs {
  import opened Common

  const N_JCC_INITIAL_ENTRIES := 4437

  // The cost centre of a basic block in a context. jccLists heads the arcs of each jump.
  class Bbcc {
    const addr: nat
    const cjmpCount: nat
    var lruFromJcc: Jcc?
    var lruToJcc: Jcc?
    var jccLists: seq<Jcc?>
    ghost var arcs: seq<seq<Jcc>>

    constructor (addr: nat, cjmpCount: nat)
      ensures lruFromJcc == null && lruToJcc == null && this.cjmpCount == cjmpCount
      ensures |jccLists| == |arcs| == cjmpCount + 1
      ensures forall j :: 0 <= j <= cjmpCount ==> jccLists[j] == null && arcs[j] == []
    {
      this.addr, this.cjmpCount := addr, cjmpCount;
      lruFromJcc, lruToJcc := null, null;
      jccLists, arcs := seq(cjmpCount + 1, _ => null), seq(cjmpCount + 1, _ => []);
    }
  }

  class Jcc {
    const from: Bbcc
    const jmp: nat
    const to: Bbcc
    var nextHash: Jcc?
    var nextFrom: Jcc?

    constructor (from: Bbcc, jmp: nat, to: Bbcc)
      ensures this.from == from && this.jmp == jmp && this.to == to
    {
      this.from, this.jmp, this.to := from, jmp, to;
      nextHash, nextFrom := null, null;
    }
  }

  predicate Is(n: Jcc, from: Bbcc, jmp: nat, to: Bbcc) {
    n.from == from && n.jmp == jmp && n.to == to
  }

  // jcc_hash_idx: 32 bits of the sum of the addresses.
  function HashIdx(from: Bbcc, jmp: nat, to: Bbcc, size: nat): (i: nat)
    requires size > 0
    ensures i < size
  {
    (from.addr + 7 * to.addr + 13 * jmp) % 0x1_0000_0000 % size
  }

  function IdxOf(n: Jcc, size: nat): (i: nat)
    requires size > 0
    ensures i < size
  {
    HashIdx(n.from, n.jmp, n.to, size)
  }

  // --- chains ---

  function First(l: seq<Jcc>): Jcc? {
    if |l| == 0 then null else l[0]
  }

  function Next(l: seq<Jcc>, k: nat): Jcc? {
    if k + 1 < |l| then l[k + 1] else null
  }

  predicate SameArc(n: Jcc, m: Jcc) {
    n.from == m.from && n.jmp == m.jmp && n.to == m.to
  }

  // Every node of a bucket belongs there, and no two nodes stand for the same triple.
  ghost predicate Placed(buckets: seq<seq<Jcc>>) {
    && (forall i, k :: 0 <= i < |buckets| && 0 <= k < |buckets[i]| ==> IdxOf(buckets[i][k], |buckets|) == i)
    && (forall i, k, m :: 0 <= i < |buckets| && 0 <= k < m < |buckets[i]| ==>
      !SameArc(buckets[i][k], buckets[i][m]))
  }

  ghost predicate Within(buckets: seq<seq<Jcc>>, nodes: set<Jcc>) {
    forall i, k :: 0 <= i < |buckets| && 0 <= k < |buckets[i]| ==> buckets[i][k] in nodes
  }

  ghost predicate InSome(buckets: seq<seq<Jcc>>, n: Jcc) {
    exists i :: 0 <= i < |buckets| && n in buckets[i]
  }

  ghost predicate Covers(buckets: seq<seq<Jcc>>, nodes: set<Jcc>) {
    Within(buckets, nodes) && forall n :: n in nodes ==> InSome(buckets, n)
  }

  // The heads and the links in memory are those of the buckets.
  ghost predicate Chained(table: seq<Jcc?>, buckets: seq<seq<Jcc>>, nodes: set<Jcc>)
    requires Within(buckets, nodes) && |table| == |buckets|
    reads nodes`nextHash
  {
    && (forall i :: 0 <= i < |table| ==> table[i] == First(buckets[i]))
    && (forall i, k :: 0 <= i < |buckets| && 0 <= k < |buckets[i]| ==> buckets[i][k].nextHash == Next(buckets[i], k))
  }

  function Pushed(buckets: seq<seq<Jcc>>, c: Jcc): (r: seq<seq<Jcc>>)
    requires |buckets| > 0
    ensures |r| == |buckets|
  {
    var i := IdxOf(c, |buckets|);
    buckets[i := [c] + buckets[i]]
  }

  lemma PushedPlaced(buckets: seq<seq<Jcc>>, nodes: set<Jcc>, c: Jcc)
    requires |buckets| > 0 && Placed(buckets) && Covers(buckets, nodes)
    requires forall n :: n in nodes ==> !SameArc(c, n)
    ensures Placed(Pushed(buckets, c)) && Covers(Pushed(buckets, c), nodes + {c})
  {
    hide IdxOf;
    var i, r := IdxOf(c, |buckets|), Pushed(buckets, c);
    forall n | n in nodes + {c} ensures InSome(r, n) {
      if n == c {
        assert r[i][0] == c;
      } else {
        var j :| 0 <= j < |buckets| && n in buckets[j];
        assert n in r[j];
      }
    }
  }

  /** Two nodes for the same triple are the same node. */
  lemma OneNodeEach(buckets: seq<seq<Jcc>>, nodes: set<Jcc>, m: Jcc, n: Jcc)
    requires |buckets| > 0 && Placed(buckets) && Covers(buckets, nodes) && m in nodes && n in nodes && SameArc(m, n)
    ensures m == n
  {
    assert InSome(buckets, m) && InSome(buckets, n);
    var i :| 0 <= i < |buckets| && m in buckets[i];
    var j :| 0 <= j < |buckets| && n in buckets[j];
    var k :| 0 <= k < |buckets[i]| && buckets[i][k] == m;
    var l :| 0 <= l < |buckets[j]| && buckets[j][l] == n;
    assert IdxOf(buckets[i][k], |buckets|) == IdxOf(buckets[j][l], |buckets|);
  }

  // --- growing ---

  // c moves to the front of its bucket.
  method Push(c: Jcc, table: array<Jcc?>, ghost buckets: seq<seq<Jcc>>, ghost nodes: set<Jcc>)
    requires table.Length == |buckets| > 0 && Placed(buckets) && Covers(buckets, nodes)
    requires Chained(table[..], buckets, nodes)
    requires forall n :: n in nodes ==> !SameArc(c, n)
    modifies table, c`nextHash
    ensures Placed(Pushed(buckets, c)) && Covers(Pushed(buckets, c), nodes + {c})
    ensures Chained(table[..], Pushed(buckets, c), nodes + {c})
  {
    hide IdxOf, Pushed, Placed;
    PushedPlaced(buckets, nodes, c);
    assert c !in nodes;
    var i := IdxOf(c, table.Length);
    ghost var was := table[..];
    c.nextHash := table[i];
    table[i] := c;
    PushedChained(was, table[..], buckets, nodes, c);
  }

  lemma PushedChained(was: seq<Jcc?>, now: seq<Jcc?>, buckets: seq<seq<Jcc>>, nodes: set<Jcc>, c: Jcc)
    requires |was| == |now| == |buckets| > 0 && Within(buckets, nodes) && Within(Pushed(buckets, c), nodes + {c})
    requires forall j :: 0 <= j < |was| ==> was[j] == First(buckets[j])
    requires forall j, k :: 0 <= j < |buckets| && 0 <= k < |buckets[j]| ==> buckets[j][k].nextHash == Next(buckets[j], k)
    requires var i := IdxOf(c, |was|); now == was[i := c] && c.nextHash == was[i]
    ensures Chained(now, Pushed(buckets, c), nodes + {c})
  {
    hide IdxOf;
    var i := IdxOf(c, |buckets|);
    var r: seq<seq<Jcc>> := Pushed(buckets, c);
    forall j, k | 0 <= j < |r| && 0 <= k < |r[j]| ensures r[j][k].nextHash == Next(r[j], k) {
      if j == i && k > 0 {
        assert r[j][k] == buckets[j][k - 1];
      }
    }
  }

  // The place (a, b) comes before (i, k) in the order of the buckets.
  predicate Before(a: int, b: int, i: int, k: int) {
    a < i || (a == i && b < k)
  }

  // The nodes before (i, k) have been moved; the links of the others are still the old ones.
  ghost predicate Moving(buckets: seq<seq<Jcc>>, nodes: set<Jcc>, moved: set<Jcc>, i: int, k: int)
    requires Within(buckets, nodes)
    reads nodes`nextHash
  {
    && moved <= nodes
    && (forall a, b :: 0 <= a < |buckets| && 0 <= b < |buckets[a]| ==> (buckets[a][b] in moved <==> Before(a, b, i, k)))
    && (forall a, b :: 0 <= a < |buckets| && 0 <= b < |buckets[a]| && !Before(a, b, i, k) ==>
      buckets[a][b].nextHash == Next(buckets[a], b))
  }

  lemma PlacesDiffer(buckets: seq<seq<Jcc>>, a: int, b: int, i: int, k: int)
    requires Placed(buckets) && 0 <= a < |buckets| && 0 <= b < |buckets[a]| && 0 <= i < |buckets| && 0 <= k < |buckets[i]|
    requires a != i || b != k
    ensures buckets[a][b] != buckets[i][k]
  {
    assert IdxOf(buckets[a][b], |buckets|) == a && IdxOf(buckets[i][k], |buckets|) == i;
  }

  method MoveOne(c: Jcc, newTable: array<Jcc?>, ghost nb: seq<seq<Jcc>>, ghost moved: set<Jcc>,
                 ghost buckets: seq<seq<Jcc>>, ghost nodes: set<Jcc>, ghost i: nat, ghost k: nat)
    returns (next: Jcc?)
    requires |buckets| > 0 && Placed(buckets) && Covers(buckets, nodes)
    requires i < |buckets| && k < |buckets[i]| && buckets[i][k] == c && Moving(buckets, nodes, moved, i, k)
    requires newTable.Length == |nb| > 0 && Placed(nb) && Covers(nb, moved) && Chained(newTable[..], nb, moved)
    modifies newTable, c`nextHash
    ensures next == Next(buckets[i], k) && Moving(buckets, nodes, moved + {c}, i, k + 1)
    ensures Placed(Pushed(nb, c)) && Covers(Pushed(nb, c), moved + {c})
    ensures Chained(newTable[..], Pushed(nb, c), moved + {c})
  {
    hide IdxOf, Placed, Pushed, Chained;
    next := c.nextHash;
    forall n | n in moved ensures !SameArc(c, n) {
      if SameArc(c, n) {
        OneNodeEach(buckets, nodes, c, n);
      }
    }
    forall a, b | 0 <= a < |buckets| && 0 <= b < |buckets[a]| && (a != i || b != k) ensures buckets[a][b] != c {
      PlacesDiffer(buckets, a, b, i, k);
    }
    Push(c, newTable, nb, moved);
  }

  lemma NothingMoved(table: seq<Jcc?>, buckets: seq<seq<Jcc>>, nodes: set<Jcc>)
    requires Within(buckets, nodes) && |table| == |buckets| && Chained(table, buckets, nodes)
    ensures Moving(buckets, nodes, {}, 0, 0)
  {
  }

  lemma Heads(table: seq<Jcc?>, buckets: seq<seq<Jcc>>, nodes: set<Jcc>)
    requires Within(buckets, nodes) && |table| == |buckets| && Chained(table, buckets, nodes)
    ensures forall i :: 0 <= i < |table| ==> table[i] == First(buckets[i])
  {
  }

  ghost function NoBuckets(n: nat): (b: seq<seq<Jcc>>)
    ensures |b| == n && forall i :: 0 <= i < n ==> b[i] == []
  {
    seq(n, _ => [])
  }

  lemma EmptyTable(table: seq<Jcc?>)
    requires forall i :: 0 <= i < |table| ==> table[i] == null
    ensures Placed(NoBuckets(|table|)) && Covers(NoBuckets(|table|), {}) && Within(NoBuckets(|table|), {})
    ensures Chained(table, NoBuckets(|table|), {})
  {
  }

  lemma CoversWithin(buckets: seq<seq<Jcc>>, nodes: set<Jcc>)
    requires Covers(buckets, nodes)
    ensures Within(buckets, nodes)
  {
  }

  // The inner loop of the resizing: all nodes of one bucket.
  method MoveBucket(head: Jcc?, newTable: array<Jcc?>, ghost nb0: seq<seq<Jcc>>, ghost moved0: set<Jcc>,
                    ghost buckets: seq<seq<Jcc>>, ghost nodes: set<Jcc>, ghost i: nat)
    returns (ghost nb: seq<seq<Jcc>>, ghost moved: set<Jcc>)
    requires |buckets| > 0 && Placed(buckets) && Covers(buckets, nodes)
    requires i < |buckets| && head == First(buckets[i]) && Moving(buckets, nodes, moved0, i, 0)
    requires newTable.Length == |nb0| > 0 && Placed(nb0) && Covers(nb0, moved0) && Chained(newTable[..], nb0, moved0)
    modifies newTable, nodes`nextHash
    ensures Moving(buckets, nodes, moved, i + 1, 0)
    ensures newTable.Length == |nb| && Placed(nb) && Covers(nb, moved) && Within(nb, moved)
    ensures Chained(newTable[..], nb, moved)
  {
    hide IdxOf, Pushed, Placed, Moving, Chained, InSome;
    nb, moved := nb0, moved0;
    var curr := head;
    ghost var k := 0;
    while curr != null
      invariant k <= |buckets[i]| && Moving(buckets, nodes, moved, i, k)
      invariant curr == if k < |buckets[i]| then buckets[i][k] else null
      invariant newTable.Length == |nb| && Placed(nb) && Covers(nb, moved) && Chained(newTable[..], nb, moved)
      decreases |buckets[i]| - k
    {
      var c := curr;
      curr := MoveOne(c, newTable, nb, moved, buckets, nodes, i, k);
      nb, moved, k := Pushed(nb, c), moved + {c}, k + 1;
    }
    NextBucket(buckets, nodes, moved, i);
  }

  lemma AllMoved(buckets: seq<seq<Jcc>>, nodes: set<Jcc>, moved: set<Jcc>)
    requires Covers(buckets, nodes) && Moving(buckets, nodes, moved, |buckets|, 0)
    ensures moved == nodes
  {
    forall n | n in nodes ensures n in moved {
      assert InSome(buckets, n);
      var a :| 0 <= a < |buckets| && n in buckets[a];
      var b :| 0 <= b < |buckets[a]| && buckets[a][b] == n;
    }
  }

  // The same places are before the end of a bucket and the start of the next one.
  lemma NextBucket(buckets: seq<seq<Jcc>>, nodes: set<Jcc>, moved: set<Jcc>, i: nat)
    requires i < |buckets| && Within(buckets, nodes) && Moving(buckets, nodes, moved, i, |buckets[i]|)
    ensures Moving(buckets, nodes, moved, i + 1, 0)
  {
  }

  // The list of each jump of b holds exactly the arcs from there, each of them once.
  ghost predicate Listed(b: Bbcc, nodes: set<Jcc>)
    reads b`jccLists, b`arcs, nodes`nextFrom
  {
    && |b.jccLists| == |b.arcs| == b.cjmpCount + 1 && ArcsOf(b, b.arcs, nodes)
    && (forall j :: 0 <= j < |b.arcs| ==> b.jccLists[j] == First(b.arcs[j]) && Linked(b.arcs[j]))
  }

  // The lists of a source hold its arcs, each once and in the list of its jump.
  ghost predicate ArcsOf(b: Bbcc, arcs: seq<seq<Jcc>>, nodes: set<Jcc>) {
    && (forall j, k :: 0 <= j < |arcs| && 0 <= k < |arcs[j]| ==>
      arcs[j][k] in nodes && arcs[j][k].from == b && arcs[j][k].jmp == j)
    && (forall j, k, m :: 0 <= j < |arcs| && 0 <= k < m < |arcs[j]| ==> arcs[j][k] != arcs[j][m])
    && (forall n :: n in nodes && n.from == b ==> n.jmp < |arcs| && n in arcs[n.jmp])
  }

  // A list is linked in memory.
  ghost predicate Linked(l: seq<Jcc>)
    reads l`nextFrom
  {
    forall k :: 0 <= k < |l| ==> l[k].nextFrom == Next(l, k)
  }

  lemma ArcsWith(b: Bbcc, arcs: seq<seq<Jcc>>, nodes: set<Jcc>, c: Jcc)
    requires ArcsOf(b, arcs, nodes) && c !in nodes && c.from == b && c.jmp < |arcs|
    ensures ArcsOf(b, arcs[c.jmp := [c] + arcs[c.jmp]], nodes + {c})
  {
    var now := arcs[c.jmp := [c] + arcs[c.jmp]];
    forall n | n in nodes + {c} && n.from == b ensures n.jmp < |now| && n in now[n.jmp] {
      if n == c {
        assert now[c.jmp][0] == c;
      } else {
        assert n in arcs[n.jmp];
      }
    }
  }

  ghost predicate Remembers(b: Bbcc, nodes: set<Jcc>)
    reads b`lruToJcc, b`lruFromJcc
  {
    && (b.lruToJcc != null ==> b.lruToJcc in nodes && b.lruToJcc.to == b)
    && (b.lruFromJcc != null ==> b.lruFromJcc in nodes && b.lruFromJcc.from == b)
  }

  ghost predicate Between(bbccs: set<Bbcc>, nodes: set<Jcc>) {
    forall n :: n in nodes ==> n.from in bbccs && n.to in bbccs
  }

  ghost predicate AllFit(bbccs: set<Bbcc>, nodes: set<Jcc>)
    reads bbccs`jccLists, bbccs`arcs, bbccs`lruToJcc, bbccs`lruFromJcc, nodes`nextFrom
  {
    forall b :: b in bbccs ==> Listed(b, nodes) && Remembers(b, nodes)
  }

  ghost predicate Unused(b: Bbcc)
    reads b
  {
    && b.lruFromJcc == null && b.lruToJcc == null && |b.jccLists| == |b.arcs| == b.cjmpCount + 1
    && forall j :: 0 <= j < |b.arcs| ==> b.jccLists[j] == null && b.arcs[j] == []
  }

  lemma ListedStill(b: Bbcc, nodes: set<Jcc>, c: Jcc)
    requires Listed(b, nodes) && c.from != b
    ensures Listed(b, nodes + {c})
  {
  }

  lemma BetweenStill(bbccs: set<Bbcc>, nodes: set<Jcc>, c: Jcc)
    requires Between(bbccs, nodes) && c.from in bbccs && c.to in bbccs
    ensures Between(bbccs, nodes + {c})
  {
  }

  lemma RememberedFit(b: Bbcc, bbccs: set<Bbcc>, nodes: set<Jcc>)
    requires AllFit(bbccs, nodes) && b in bbccs
    ensures Remembers(b, nodes)
  {
  }

  // The arcs of a source with one more, the first one in the list of its jump.
  function ListedFirst(arcs: seq<seq<Jcc>>, c: Jcc): seq<seq<Jcc>>
    requires c.jmp < |arcs|
  {
    arcs[c.jmp := [c] + arcs[c.jmp]]
  }

  // The arc becomes the first one in the list of its jump.
  method LinkFrom(c: Jcc, ghost nodes: set<Jcc>)
    requires Listed(c.from, nodes) && c.jmp <= c.from.cjmpCount && c !in nodes
    modifies c`nextFrom, c.from`jccLists, c.from`arcs
    ensures Listed(c.from, nodes + {c})
    ensures c.jmp < |old(c.from.arcs)| && c.from.arcs == ListedFirst(old(c.from.arcs), c)
  {
    hide ArcsOf;
    var from, jmp := c.from, c.jmp;
    ArcsWith(from, from.arcs, nodes, c);
    ListsWithin(from, from.arcs, nodes);
    c.nextFrom := from.jccLists[jmp];
    from.jccLists := from.jccLists[jmp := c];
    from.arcs := from.arcs[jmp := [c] + from.arcs[jmp]];
  }

  lemma ListsWithin(b: Bbcc, arcs: seq<seq<Jcc>>, nodes: set<Jcc>)
    requires ArcsOf(b, arcs, nodes)
    ensures forall j, k :: 0 <= j < |arcs| && 0 <= k < |arcs[j]| ==> arcs[j][k] in nodes
  {
  }

  method LinkAmong(c: Jcc, ghost bbccs: set<Bbcc>, ghost nodes: set<Jcc>)
    requires AllFit(bbccs, nodes) && c.from in bbccs && c.jmp <= c.from.cjmpCount && c !in nodes
    modifies c`nextFrom, c.from`jccLists, c.from`arcs
    ensures AllFit(bbccs, nodes + {c})
    ensures c.jmp < |old(c.from.arcs)| && c.from.arcs == ListedFirst(old(c.from.arcs), c)
  {
    hide Listed;
    LinkFrom(c, nodes);
    forall b | b in bbccs && b != c.from ensures Listed(b, nodes + {c}) {
      ListedStill(b, nodes, c);
    }
  }

  method Remember(c: Jcc, ghost bbccs: set<Bbcc>, ghost nodes: set<Jcc>)
    requires AllFit(bbccs, nodes) && c in nodes
    modifies c.from`lruFromJcc, c.to`lruToJcc
    ensures AllFit(bbccs, nodes)
    ensures c.from.lruFromJcc == c && c.to.lruToJcc == c
  {
    hide Listed;
    c.from.lruFromJcc := c;
    c.to.lruToJcc := c;
  }

  // The size of the table before entry number n goes in: larger once it is more than 80 percent full.
  function GrownSize(size: nat, n: nat): nat
    requires size > 0
  {
    if 10 * n / size > 8 then 2 * size + 3 else size
  }

  lemma EightOrLess(n: nat, size: nat)
    requires size > 0
    ensures n / size <= 8 <==> n < 9 * size
  {
    var q := n / size;
    assert n == q * size + n % size;
    if q <= 8 { TimesMonotone(q, 8, size); } else { TimesMonotone(9, q, size); }
  }

  // One entry more fits after the table has grown once, if not before.
  lemma StillFits(entries: nat, size: nat)
    requires size > 0 && 10 * entries / size <= 8
    ensures 10 * (entries + 1) / GrownSize(size, entries + 1) <= 8
  {
    EightOrLess(10 * entries, size);
    EightOrLess(10 * (entries + 1), size);
    EightOrLess(10 * (entries + 1), 2 * size + 3);
  }

  class JccHash {
    var table: array<Jcc?>
    var entries: nat
    ghost var buckets: seq<seq<Jcc>>
    ghost var nodes: set<Jcc>
    ghost var bbccs: set<Bbcc>

    ghost predicate Indexed()
      reads this, table, nodes
    {
      && table.Length == |buckets| > 0 && Placed(buckets) && Covers(buckets, nodes)
      && Chained(table[..], buckets, nodes)
    }

    // The table is right and not too full, every source lists its arcs, and the remembered arcs fit.
    ghost predicate Valid()
      reads this, table, nodes, bbccs
    {
      Indexed() && entries == |nodes| && Between(bbccs, nodes) && AllFit(bbccs, nodes)
      && 10 * entries / table.Length <= 8
    }

    // Sources and targets that have no arcs yet.
    constructor (bbccs: set<Bbcc>)
      requires forall b :: b in bbccs ==> Unused(b)
      ensures Valid() && nodes == {} && fresh(table) && this.bbccs == bbccs
    {
      this.bbccs := bbccs;
      table := new Jcc?[N_JCC_INITIAL_ENTRIES](_ => null);
      entries, buckets, nodes := 0, NoBuckets(N_JCC_INITIAL_ENTRIES), {};
    }

    /** resize_jcc_table: every node moves to its bucket in a table twice as large. */
    method Resize()
      requires Indexed()
      modifies this`table, this`buckets, nodes`nextHash
      ensures Indexed() && fresh(table)
      ensures table.Length == 2 * old(table.Length) + 3
    {
      hide IdxOf, Pushed, Placed, Covers, Moving, Chained, InSome;
      CoversWithin(buckets, nodes);
      var oldTable := table;
      ghost var bs := buckets;
      Heads(table[..], bs, nodes);
      var newSize := 2 * table.Length + 3;
      var newTable := new Jcc?[newSize](_ => null);
      ghost var nb: seq<seq<Jcc>>, moved: set<Jcc> := NoBuckets(newSize), {};
      NothingMoved(oldTable[..], bs, nodes);
      EmptyTable(newTable[..]);
      var i := 0;
      while i < oldTable.Length
        invariant Within(bs, nodes) && 0 <= i <= oldTable.Length && Moving(bs, nodes, moved, i, 0)
        invariant forall j :: 0 <= j < oldTable.Length ==> oldTable[j] == First(bs[j])
        invariant newTable.Length == |nb| && Placed(nb) && Covers(nb, moved) && Within(nb, moved)
        invariant Chained(newTable[..], nb, moved)
      {
        nb, moved := MoveBucket(oldTable[i], newTable, nb, moved, bs, nodes, i);
        i := i + 1;
      }
      AllMoved(bs, nodes, moved);
      table, buckets := newTable, nb;
    }

    // The search of get_jcc in the chain of a bucket.
    method Find(from: Bbcc, jmp: nat, to: Bbcc) returns (jcc: Jcc?)
      requires Indexed()
      ensures jcc != null ==> jcc in nodes && Is(jcc, from, jmp, to)
      ensures jcc == null ==> forall n :: n in nodes ==> !Is(n, from, jmp, to)
    {
      var idx := HashIdx(from, jmp, to, table.Length);
      jcc := table[idx];
      ghost var k := 0;
      while jcc != null && !Is(jcc, from, jmp, to)
        invariant 0 <= k <= |buckets[idx]|
        invariant jcc == if k < |buckets[idx]| then buckets[idx][k] else null
        invariant forall m :: 0 <= m < k ==> !Is(buckets[idx][m], from, jmp, to)
        decreases |buckets[idx]| - k
      {
        jcc := jcc.nextHash;
        k := k + 1;
      }
      if jcc == null {
        NotInBucket(from, jmp, to);
      }
    }

    lemma NotInBucket(from: Bbcc, jmp: nat, to: Bbcc)
      requires Indexed()
      requires forall n :: n in buckets[HashIdx(from, jmp, to, |buckets|)] ==> !Is(n, from, jmp, to)
      ensures forall n :: n in nodes ==> !Is(n, from, jmp, to)
    {
      forall n | n in nodes ensures !Is(n, from, jmp, to) {
        assert InSome(buckets, n);
        var i :| 0 <= i < |buckets| && n in buckets[i];
        var k :| 0 <= k < |buckets[i]| && buckets[i][k] == n;
        assert IdxOf(buckets[i][k], |buckets|) == i;
      }
    }

    // One entry more, in a larger table once it is more than 80 percent full.
    method Grow()
      requires Valid()
      modifies this`entries, this`table, this`buckets, nodes`nextHash
      ensures Indexed() && AllFit(bbccs, nodes) && entries == old(entries) + 1
      ensures table == old(table) || fresh(table)
      ensures table.Length == GrownSize(old(table.Length), entries) && 10 * entries / table.Length <= 8
    {
      hide IdxOf, Placed, Covers, Chained, AllFit, Between;
      StillFits(entries, table.Length);
      entries := entries + 1;
      if 10 * entries / table.Length > 8 {
        Resize();
      }
    }

    // The new node goes into the list of its source and into the table.
    method Enter(jcc: Jcc)
      requires Indexed() && AllFit(bbccs, nodes) && jcc !in nodes
      requires jcc.from in bbccs && jcc.jmp <= jcc.from.cjmpCount
      requires forall n :: n in nodes ==> !SameArc(jcc, n)
      modifies this`buckets, this`nodes, table, jcc, jcc.from`jccLists, jcc.from`arcs
      ensures Indexed() && AllFit(bbccs, nodes) && nodes == old(nodes) + {jcc}
      ensures jcc.jmp < |old(jcc.from.arcs)| && jcc.from.arcs == ListedFirst(old(jcc.from.arcs), jcc)
    {
      hide IdxOf, Placed, Covers, Chained, AllFit, Between, Pushed;
      ghost var more := nodes + {jcc};
      LinkAmong(jcc, bbccs, nodes);
      Push(jcc, table, buckets, nodes);
      buckets, nodes := Pushed(buckets, jcc), more;
    }

    // new_jcc: a node for an arc that has none.
    method NewJcc(from: Bbcc, jmp: nat, to: Bbcc) returns (jcc: Jcc)
      requires Valid() && from in bbccs && to in bbccs && jmp <= from.cjmpCount
      requires forall n :: n in nodes ==> !Is(n, from, jmp, to)
      modifies this, table, from`jccLists, from`arcs, nodes`nextHash
      ensures Valid() && bbccs == old(bbccs) && (table == old(table) || fresh(table))
      ensures fresh(jcc) && Is(jcc, from, jmp, to) && nodes == old(nodes) + {jcc}
      ensures table.Length == GrownSize(old(table.Length), |nodes|)
      ensures jmp < |old(from.arcs)| && from.arcs == ListedFirst(old(from.arcs), jcc)
    {
      hide AllFit, Between, Indexed;
      Grow();
      jcc := AddJcc(from, jmp, to);
    }

    // The part of new_jcc after the table has grown.
    method AddJcc(from: Bbcc, jmp: nat, to: Bbcc) returns (jcc: Jcc)
      requires Indexed() && entries == |nodes| + 1 && Between(bbccs, nodes) && AllFit(bbccs, nodes)
      requires 10 * entries / table.Length <= 8
      requires from in bbccs && to in bbccs && jmp <= from.cjmpCount
      requires forall n :: n in nodes ==> !Is(n, from, jmp, to)
      modifies this`buckets, this`nodes, table, from`jccLists, from`arcs
      ensures Valid()
      ensures fresh(jcc) && Is(jcc, from, jmp, to) && nodes == old(nodes) + {jcc}
      ensures jmp < |old(from.arcs)| && from.arcs == ListedFirst(old(from.arcs), jcc)
    {
      hide AllFit, Between, Indexed;
      jcc := new Jcc(from, jmp, to);
      BetweenStill(bbccs, nodes, jcc);
      Enter(jcc);
    }

    /** get_jcc: the node of the triple, which is made at its first call only. */
    method GetJcc(from: Bbcc, jmp: nat, to: Bbcc) returns (jcc: Jcc)
      requires Valid() && from in bbccs && to in bbccs && jmp <= from.cjmpCount
      modifies this, table, from, to, nodes`nextHash
      ensures Valid() && bbccs == old(bbccs) && (table == old(table) || fresh(table))
      ensures Is(jcc, from, jmp, to) && (jcc in old(nodes) || fresh(jcc)) && nodes == old(nodes) + {jcc}
      ensures var l, m := old(to.lruToJcc), old(from.lruFromJcc);
        if (l != null && l.from == from && l.jmp == jmp) || (m != null && m.to == to && m.jmp == jmp)
        then to.lruToJcc == l && from.lruFromJcc == m
        else to.lruToJcc == from.lruFromJcc == jcc
    {
      hide IdxOf, Placed, Covers, Chained, AllFit, Between;
      RememberedFit(from, bbccs, nodes);
      RememberedFit(to, bbccs, nodes);
      var lru := to.lruToJcc;
      if lru != null && lru.from == from && lru.jmp == jmp {
        return lru;
      }
      lru := from.lruFromJcc;
      if lru != null && lru.to == to && lru.jmp == jmp {
        return lru;
      }
      var found := Find(from, jmp, to);
      if found == null {
        jcc := NewJcc(from, jmp, to);
      } else {
        jcc := found;
      }
      Remember(jcc, bbccs, nodes);
    }

    /**
     Over any sequence of calls, equal triples are given the same node and different triples
     different ones, whatever was remembered, however the addresses collide and however often
     the table grew.
     */
    method GetAll(calls: seq<(Bbcc, nat, Bbcc)>) returns (js: seq<Jcc>)
      requires Valid()
      requires forall c :: c in calls ==> c.0 in bbccs && c.2 in bbccs && c.1 <= c.0.cjmpCount
      modifies this, table, bbccs, nodes`nextHash
      ensures Valid() && |js| == |calls|
      ensures forall i, j :: 0 <= i < |js| && 0 <= j < |js| ==> (js[i] == js[j] <==> calls[i] == calls[j])
    {
      hide IdxOf, Placed, Covers, Chained, AllFit, Between;
      js := [];
      while |js| < |calls|
        invariant Valid() && |js| <= |calls| && bbccs == old(bbccs) && (table == old(table) || fresh(table))
        invariant old(nodes) <= nodes && fresh(nodes - old(nodes))
        invariant forall i :: 0 <= i < |js| ==> js[i] in nodes && Is(js[i], calls[i].0, calls[i].1, calls[i].2)
      {
        var (from, jmp, to) := calls[|js|];
        var jcc := GetJcc(from, jmp, to);
        js := js + [jcc];
      }
      forall i, j | 0 <= i < |js| && 0 <= j < |js| ensures js[i] == js[j] <==> calls[i] == calls[j] {
        if calls[i] == calls[j] {
          OneNodeEach(buckets, nodes, js[i], js[j]);
        }
      }
    }
  }
}
