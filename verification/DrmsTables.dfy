module DrmsTables {
  // Renumbering the global and the private shadow memories, segment by segment.

  import opened ShadowMap
  import opened LookupTables
  import opened DrmsCompression
  import opened DrmsOverflow

  // --- words of the global shadow memory: a timestamp and the syscall flag ---

  const SYSCALL_BIT: nat := 0x8000_0000

  function TS(x: nat): nat {
    x % SYSCALL_BIT
  }

  predicate SyscallFlag(x: nat) {
    x / SYSCALL_BIT % 2 == 1
  }

  function SetSyscall(x: nat): nat {
    if SyscallFlag(x) then x else x + SYSCALL_BIT
  }

  function Timestamps(m: Shadow): Shadow {
    map g | g in m :: TS(m[g])
  }

  function SyscallCells(m: Shadow): set<nat> {
    set g | g in m && SyscallFlag(m[g])
  }

  // --- one segment ---

  // The new word of a private cell; the global segment is empty where it is not allocated.
  function NewLocalChunk(ids: set<nat>, global: seq<nat>, local: seq<nat>): (r: seq<nat>)
    ensures |r| == |local|
  {
    seq(|local|, k requires 0 <= k < |local| => NewLocal(ids, local[k], if k < |global| then TS(global[k]) else 0))
  }

  function NewGlobalWord(ids: set<nat>, word: nat): nat {
    var v := 3 * Rank(ids, TS(word)) + 1;
    if SyscallFlag(word) then SetSyscall(v) else v
  }

  function NewGlobalChunk(ids: set<nat>, global: seq<nat>): (r: seq<nat>)
    ensures |r| == |global|
  {
    seq(|global|, k requires 0 <= k < |global| => NewGlobalWord(ids, global[k]))
  }

  lemma RankOfZero(active: seq<nat>, ids: set<nat>)
    requires ActiveList(active, ids)
    ensures Rank(ids, 0) == 0
  {
    IndexIsRank(active, ids, 0, 0);
  }

  /** The index of the greatest identifier that a timestamp reaches, found from `init` among the first `size`. */
  method FindRank(active: seq<nat>, ghost ids: set<nat>, init: nat, size: nat, ts: nat) returns (r: nat)
    requires ActiveList(active, ids) && init < size <= |active| && active[init] <= ts
    requires size < |active| ==> ts < active[size]
    ensures r == Rank(ids, ts) && r < size && active[r] <= ts
    ensures r + 1 < |active| ==> ts < active[r + 1]
  {
    r := BinarySearch(active, init, size, ts);
    IndexIsRank(active, ids, r, ts);
  }

  /** The new timestamp of one private cell, case by case. */
  method CompressCell(active: seq<nat>, ghost ids: set<nat>, ts: nat, gts: nat, lts: nat) returns (v: nat)
    requires ActiveList(active, ids) && ts < |active| && ts == Rank(ids, gts)
    requires active[ts] <= gts && (ts + 1 < |active| ==> gts < active[ts + 1])
    ensures v == NewLocal(ids, lts, gts)
  {
    if lts < active[ts] {
      var n := FindRank(active, ids, 0, ts, lts);
      return 3 * n;
    } else if ts + 1 < |active| && lts >= active[ts + 1] {
      var n := FindRank(active, ids, ts, |active|, lts);
      return 3 * n;
    }
    IndexIsRank(active, ids, ts, lts);
    if lts < gts {
      return 3 * ts;
    } else if lts == gts {
      return 3 * ts + 1;
    } else {
      return 3 * ts + 2;
    }
  }

  // Cells before k are renumbered in every private segment.
  ghost predicate LocalsUpTo(ids: set<nat>, global: seq<nat>, was: seq<seq<nat>>, now: seq<seq<nat>>, k: nat) {
    && |now| == |was|
    && forall t :: 0 <= t < |was| ==> LocalUpTo(NewLocalChunk(ids, global, was[t]), was[t], now[t], k)
  }

  ghost predicate LocalUpTo(goal: seq<nat>, was: seq<nat>, now: seq<nat>, k: nat) {
    && |now| == |was| == |goal|
    && forall x :: 0 <= x < |was| ==> now[x] == if x < k then goal[x] else was[x]
  }

  /** The cells at index k of one segment of the global memory and of the private memories. */
  method CompressCells(active: seq<nat>, ghost ids: set<nat>, global: seq<nat>, was: seq<seq<nat>>, now: seq<seq<nat>>, k: nat)
    returns (word: nat, next: seq<seq<nat>>)
    requires ActiveList(active, ids) && LocalsUpTo(ids, global, was, now, k)
    ensures LocalsUpTo(ids, global, was, next, k + 1)
    ensures k < |global| ==> word == NewGlobalWord(ids, global[k])
  {
    hide NewLocal, Rank;
    RankOfZero(active, ids);
    var gts, ts := 0, 0;
    if k < |global| {
      gts := TS(global[k]);
      if gts > 0 {
        ts := FindRank(active, ids, 0, |active|, gts);
      }
    }
    next := now;
    for t := 0 to |now|
      invariant |next| == |was|
      invariant forall u :: 0 <= u < |was| ==>
        LocalUpTo(NewLocalChunk(ids, global, was[u]), was[u], next[u], if u < t then k + 1 else k)
    {
      if k < |next[t]| {
        var v := CompressCell(active, ids, ts, gts, next[t][k]);
        next := next[t := next[t][k := v]];
      }
    }
    word := 0;
    if k < |global| {
      word := 3 * ts + 1;
      if SyscallFlag(global[k]) {
        word := SetSyscall(word);
      }
    }
  }

  /** The loop over the cells of one segment. */
  method CompressChunk(active: seq<nat>, ghost ids: set<nat>, global: seq<nat>, locals: seq<seq<nat>>, size: nat)
    returns (global': seq<nat>, locals': seq<seq<nat>>)
    requires ActiveList(active, ids)
    requires |global| <= size && forall t :: 0 <= t < |locals| ==> |locals[t]| <= size
    ensures global' == NewGlobalChunk(ids, global)
    ensures |locals'| == |locals| && forall t :: 0 <= t < |locals| ==> locals'[t] == NewLocalChunk(ids, global, locals[t])
  {
    hide NewLocal, Rank, NewGlobalWord;
    global', locals' := global, locals;
    for k := 0 to size
      invariant |global'| == |global|
      invariant forall x :: 0 <= x < |global| ==> global'[x] == if x < k then NewGlobalWord(ids, global[x]) else global[x]
      invariant LocalsUpTo(ids, global, locals, locals', k)
    {
      var word;
      word, locals' := CompressCells(active, ids, global, locals, locals', k);
      if k < |global| {
        global' := global'[k := word];
      }
    }
  }

  // --- whole tables ---

  // The segment with indices i and k, empty where it is not allocated.
  function ChunkAt(t: Table, i: nat, k: nat): seq<nat> {
    if i in t && k in t[i] then t[i][k] else []
  }

  // The segments before n are renumbered.
  ghost predicate LocalTableUpTo(ids: set<nat>, global: Table, was: Table, now: Table, n: nat) {
    && (forall i :: i in was <==> i in now)
    && forall i, k :: i in was ==>
      && (k in was[i] <==> k in now[i])
      && (k in was[i] ==>
            now[i][k] == if i * ILT_SIZE + k < n then NewLocalChunk(ids, ChunkAt(global, i, k), was[i][k]) else was[i][k])
  }

  ghost predicate GlobalTableUpTo(ids: set<nat>, was: Table, now: Table, n: nat) {
    && (forall i :: i in was <==> i in now)
    && forall i, k :: i in was ==>
      && (k in was[i] <==> k in now[i])
      && (k in was[i] ==> now[i][k] == if i * ILT_SIZE + k < n then NewGlobalChunk(ids, was[i][k]) else was[i][k])
  }

  // Writing back the segment with indices i and k, unless it is not allocated.
  function Replaced(t: Table, i: nat, k: nat, segment: seq<nat>): Table {
    if i in t && k in t[i] then Put(t, i, k, segment) else t
  }

  lemma {:induction false} LocalTableStep(ids: set<nat>, global: Table, was: Table, now: Table, s: nat, i: nat, k: nat)
    requires WellFormed(was, s) && WellFormed(now, s) && k < ILT_SIZE
    requires LocalTableUpTo(ids, global, was, now, i * ILT_SIZE + k)
    ensures ChunkAt(now, i, k) == ChunkAt(was, i, k)
    ensures var n := Replaced(now, i, k, NewLocalChunk(ids, ChunkAt(global, i, k), ChunkAt(now, i, k)));
      WellFormed(n, s) && LocalTableUpTo(ids, global, was, n, i * ILT_SIZE + k + 1)
  {
    hide NewLocalChunk;
  }

  lemma GlobalTableStep(ids: set<nat>, was: Table, now: Table, s: nat, i: nat, k: nat)
    requires WellFormed(was, s) && WellFormed(now, s) && k < ILT_SIZE
    requires GlobalTableUpTo(ids, was, now, i * ILT_SIZE + k)
    ensures ChunkAt(now, i, k) == ChunkAt(was, i, k) && |ChunkAt(was, i, k)| <= s
    ensures var n := Replaced(now, i, k, NewGlobalChunk(ids, ChunkAt(now, i, k)));
      WellFormed(n, s) && GlobalTableUpTo(ids, was, n, i * ILT_SIZE + k + 1)
  {
    hide NewGlobalChunk;
  }

  lemma ChunkAtSize(t: Table, s: nat, i: nat, k: nat)
    requires WellFormed(t, s)
    ensures |ChunkAt(t, i, k)| <= s
  {
  }

  lemma TablesAsBefore(ids: set<nat>, global: Table, t: Table, s: nat)
    requires WellFormed(t, s)
    ensures LocalTableUpTo(ids, global, t, t, 0) && GlobalTableUpTo(ids, t, t, 0)
  {
  }

  ghost predicate AllLocalsUpTo(ids: set<nat>, global: Table, was: seq<Table>, now: seq<Table>, s: nat, n: nat) {
    && |now| == |was|
    && forall t :: 0 <= t < |was| ==>
      WellFormed(was[t], s) && WellFormed(now[t], s) && LocalTableUpTo(ids, global, was[t], now[t], n)
  }

  /** The segment with the same indices in every table. */
  method CompressTablesAt(active: seq<nat>, ghost ids: set<nat>, ghost gwas: Table, gnow: Table,
                          ghost was: seq<Table>, now: seq<Table>, s: nat, i: nat, k: nat)
    returns (global: Table, locals: seq<Table>)
    requires ActiveList(active, ids) && k < ILT_SIZE
    requires WellFormed(gwas, s) && WellFormed(gnow, s) && GlobalTableUpTo(ids, gwas, gnow, i * ILT_SIZE + k)
    requires AllLocalsUpTo(ids, gwas, was, now, s, i * ILT_SIZE + k)
    ensures WellFormed(global, s) && GlobalTableUpTo(ids, gwas, global, i * ILT_SIZE + k + 1)
    ensures AllLocalsUpTo(ids, gwas, was, locals, s, i * ILT_SIZE + k + 1)
  {
    hide WellFormed, LocalTableUpTo, GlobalTableUpTo, ActiveList, NewLocalChunk, NewGlobalChunk, ChunkAt, Replaced;
    var chunks: seq<seq<nat>> := seq(|now|, t requires 0 <= t < |now| => ChunkAt(now[t], i, k));
    GlobalTableStep(ids, gwas, gnow, s, i, k);
    forall t | 0 <= t < |now| ensures |chunks[t]| <= s { ChunkAtSize(now[t], s, i, k); }
    var g, ls := CompressChunk(active, ids, ChunkAt(gnow, i, k), chunks, s);
    global := Replaced(gnow, i, k, g);
    locals := now;
    for t := 0 to |now|
      invariant |locals| == |now|
      invariant forall u :: t <= u < |now| ==> locals[u] == now[u]
      invariant forall u :: 0 <= u < t ==>
        WellFormed(locals[u], s) && LocalTableUpTo(ids, gwas, was[u], locals[u], i * ILT_SIZE + k + 1)
    {
      LocalTableStep(ids, gwas, was[t], now[t], s, i, k);
      locals := locals[t := Replaced(now[t], i, k, ls[t])];
    }
  }

  /** LK_compress_drms: renumbers the global table and all private ones. */
  method CompressTables(active: seq<nat>, ghost ids: set<nat>, gwas: Table, was: seq<Table>, s: nat)
    returns (global: Table, locals: seq<Table>)
    requires ActiveList(active, ids) && WellFormed(gwas, s)
    requires forall t :: 0 <= t < |was| ==> WellFormed(was[t], s)
    ensures WellFormed(global, s) && GlobalTableUpTo(ids, gwas, global, LK_SIZE * ILT_SIZE)
    ensures AllLocalsUpTo(ids, gwas, was, locals, s, LK_SIZE * ILT_SIZE)
  {
    hide WellFormed, LocalTableUpTo, GlobalTableUpTo, ActiveList;
    global, locals := gwas, was;
    TablesAsBefore(ids, gwas, gwas, s);
    forall t | 0 <= t < |was| ensures LocalTableUpTo(ids, gwas, was[t], was[t], 0) {
      TablesAsBefore(ids, gwas, was[t], s);
    }
    for i := 0 to LK_SIZE
      invariant WellFormed(global, s) && GlobalTableUpTo(ids, gwas, global, i * ILT_SIZE)
      invariant AllLocalsUpTo(ids, gwas, was, locals, s, i * ILT_SIZE)
    {
      for j := 0 to ILT_SIZE
        invariant WellFormed(global, s) && GlobalTableUpTo(ids, gwas, global, i * ILT_SIZE + j)
        invariant AllLocalsUpTo(ids, gwas, was, locals, s, i * ILT_SIZE + j)
      {
        global, locals := CompressTablesAt(active, ids, gwas, global, was, locals, s, i, j);
      }
    }
  }

  // --- what the renumbered tables hold ---

  lemma ChunkAtIsChunkOf(t: Table, c: nat)
    ensures ChunkAt(t, c / ILT_SIZE, c % ILT_SIZE) == if HasChunk(t, c) then ChunkOf(t, c) else []
  {
  }

  lemma {:induction false} LocalPoint(ids: set<nat>, global: Table, was: Table, now: Table, s: nat, x: nat)
    requires WellFormed(was, s) && WellFormed(now, s) && WellFormed(global, s)
    requires LocalTableUpTo(ids, global, was, now, LK_SIZE * ILT_SIZE)
    ensures x in Contents(now, s) <==> x in Contents(was, s)
    ensures Cell(Contents(now, s), x)
         == Cell(CompressedLocal(ids, Timestamps(Contents(global, s)), Contents(was, s)), x)
  {
    hide Contents, Chunk, NewLocal, Offset;
    ContentsAt(was, s, x);
    ContentsAt(now, s, x);
    ContentsAt(global, s, x);
    if InTable(x, s) && HasChunk(was, Chunk(x, s)) {
      var c := Chunk(x, s);
      var g := ChunkAt(global, c / ILT_SIZE, c % ILT_SIZE);
      ChunkAtIsChunkOf(global, c);
      assert ChunkOf(now, c) == NewLocalChunk(ids, g, ChunkOf(was, c));
      assert Cell(Timestamps(Contents(global, s)), x) == if Offset(x, s) < |g| then TS(g[Offset(x, s)]) else 0;
    }
  }

  lemma {:induction false} LocalContents(ids: set<nat>, global: Table, was: Table, now: Table, s: nat)
    requires WellFormed(was, s) && WellFormed(now, s) && WellFormed(global, s)
    requires LocalTableUpTo(ids, global, was, now, LK_SIZE * ILT_SIZE)
    ensures Contents(now, s) == CompressedLocal(ids, Timestamps(Contents(global, s)), Contents(was, s))
  {
    hide WellFormed, LocalTableUpTo, Contents, Timestamps, NewLocal;
    var goal := CompressedLocal(ids, Timestamps(Contents(global, s)), Contents(was, s));
    forall x: nat
      ensures x in Contents(now, s) <==> x in goal
      ensures Cell(Contents(now, s), x) == Cell(goal, x)
    {
      LocalPoint(ids, global, was, now, s, x);
    }
    SameCells(Contents(now, s), goal);
  }

  lemma NewGlobalWordParts(ids: set<nat>, word: nat)
    requires word < 2 * SYSCALL_BIT && 3 * |ids| + 1 < SYSCALL_BIT
    ensures var v := NewGlobalWord(ids, word);
      v < 2 * SYSCALL_BIT && TS(v) == 3 * Rank(ids, TS(word)) + 1 && (SyscallFlag(v) <==> SyscallFlag(word))
  {
    RankMonotone(ids, TS(word), TS(word));
  }

  lemma GlobalPoint(ids: set<nat>, was: Table, now: Table, s: nat, x: nat)
    requires WellFormed(was, s) && WellFormed(now, s)
    requires GlobalTableUpTo(ids, was, now, LK_SIZE * ILT_SIZE)
    ensures x in Contents(now, s) <==> x in Contents(was, s)
    ensures x in Contents(was, s) ==> Contents(now, s)[x] == NewGlobalWord(ids, Contents(was, s)[x])
  {
    hide Contents, Chunk, NewGlobalWord, Offset;
    ContentsAt(was, s, x);
    ContentsAt(now, s, x);
  }

  // The renumbered global memory, as timestamps and syscall flags.
  lemma {:induction false} GlobalContents(ids: set<nat>, was: Table, now: Table, s: nat)
    requires WellFormed(was, s) && WellFormed(now, s)
    requires GlobalTableUpTo(ids, was, now, LK_SIZE * ILT_SIZE) && 3 * |ids| + 1 < SYSCALL_BIT
    requires forall g :: g in Contents(was, s) ==> Contents(was, s)[g] < 2 * SYSCALL_BIT
    ensures Timestamps(Contents(now, s)) == CompressedGlobal(ids, Timestamps(Contents(was, s)))
    ensures SyscallCells(Contents(now, s)) == SyscallCells(Contents(was, s))
    ensures forall g :: g in Contents(now, s) ==> Contents(now, s)[g] < 2 * SYSCALL_BIT
  {
    hide WellFormed, GlobalTableUpTo, Contents, NewGlobalWord, Rank, TS, SyscallFlag;
    var m, n := Contents(was, s), Contents(now, s);
    forall x: nat
      ensures x in n <==> x in m
      ensures x in m ==>
        n[x] < 2 * SYSCALL_BIT && TS(n[x]) == 3 * Rank(ids, TS(m[x])) + 1 && (SyscallFlag(n[x]) <==> SyscallFlag(m[x]))
    {
      GlobalPoint(ids, was, now, s, x);
      if x in m { NewGlobalWordParts(ids, m[x]); }
    }
  }
}
