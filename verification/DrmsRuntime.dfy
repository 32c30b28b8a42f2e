/**
 The profiler of all threads under the dynamic metric, as it updates call stacks, private
 and global shadow memories and the global counter in place.
 */
module DrmsRuntimes {
  import opened Common
  import opened ActivationStack
  import opened ActivationWords
  import opened ShadowMap
  import opened LookupTables
  import opened Granules
  import opened DrmsHistory
  import opened DrmsCompression
  import opened DrmsOverflow
  import opened DrmsTables
  import opened Drms
  import opened DrmsExact

  const MAX_COUNT_VAL: nat := 0x8000_0000
  const MAX_THREADS: nat := 500

  // What function_exit records.
  datatype Tuple = Tuple(inputSize: nat, cumulSyscall: nat, cumulThread: nat, selfSyscall: nat, selfThread: nat)

  // --- words ---

  function InducedWords(s: seq<Activation>, kernel: bool): (r: seq<Activation>)
    requires |s| > 0
    ensures |r| == |s|
  {
    var t := |s| - 1;
    var size := (s[t].inputSize + 1) % UINT;
    s[t := if kernel
           then s[t].(inputSize := size, selfSyscall := s[t].selfSyscall + 1, cumulSyscall := s[t].cumulSyscall + 1)
           else s[t].(inputSize := size, selfThread := s[t].selfThread + 1, cumulThread := s[t].cumulThread + 1)]
  }

  function CountedWords(s: seq<Activation>, prev: nat, written: nat, kernel: bool): (r: seq<Activation>)
    requires |s| > 0
    ensures |r| == |s|
  {
    if prev < written then InducedWords(s, kernel)
    else if prev < s[|s| - 1].id then CreditWords(s, prev)
    else s
  }

  lemma {:induction false} CountedFollows(s: seq<Activation>, r: seq<Activation>, prev: nat, written: nat, kernel: bool)
    requires StackWords(s, r) && |s| > 0
    ensures StackWords(CountedWords(s, prev, written, kernel), Counted(r, prev, written, kernel))
  {
    hide InducedWords, Induced;
    assert s[|s| - 1].id == r[|r| - 1].id;
    InducedFollows(s, r, kernel);
    if prev >= written && prev < s[|s| - 1].id { CreditFollows(s, r, prev); }
  }

  lemma InducedFollows(s: seq<Activation>, r: seq<Activation>, kernel: bool)
    requires StackWords(s, r) && |s| > 0
    ensures StackWords(InducedWords(s, kernel), Induced(r, kernel))
  {
  }

  lemma RenumberedFollows(ids: set<nat>, s: seq<Activation>, r: seq<Activation>)
    requires StackWords(s, r)
    ensures StackWords(Renumbered(ids, s), Renumbered(ids, r))
  {
  }

  // --- state ---

  class ThreadData {
    const shadow: LookupTable
    var stack: seq<Activation>
    // routine_info->fn->skip of every stacked activation
    var skipped: seq<bool>
    var skip: nat

    constructor (resolution: nat)
      requires Resolution(resolution)
      ensures fresh(shadow) && shadow.Valid() && shadow.resolution == resolution && shadow.Shadow() == map[]
      ensures stack == [] && skipped == [] && skip == 0
    {
      shadow := new LookupTable(resolution);
      stack, skipped, skip := [], [], 0;
    }

    /** The part of trace_access_drms that counts a read. */
    method CountRead(oldTs: nat, wts: nat)
      requires |stack| > 0 && stack[0].id > 0
      modifies this`stack
      ensures stack == CountedWords(old(stack), oldTs, TS(wts), SyscallFlag(wts))
    {
      var top := |stack| - 1;
      if oldTs < TS(wts) {
        stack := InducedWords(stack, SyscallFlag(wts));
      } else if oldTs < stack[top].id {
        stack := BumpWord(stack, top, 1);
        if oldTs > 0 && oldTs >= stack[0].id {
          var k := GetActivationByAid(stack, oldTs);
          stack := BumpWord(stack, k, -1);
        }
      }
    }

    /** The part of function_exit that pops the activation and adds its counts to the caller's. */
    method FoldIntoParent()
      requires |stack| > 0
      modifies this`stack
      ensures stack == FoldWords(old(stack))
    {
      var top := |stack| - 1;
      if top > 0 {
        var parent, child := stack[top - 1], stack[top];
        stack := stack[top - 1 := parent.(
          inputSize := (parent.inputSize + child.inputSize) % UINT,
          cumulSyscall := parent.cumulSyscall + child.cumulSyscall,
          cumulThread := parent.cumulThread + child.cumulThread)];
      }
      stack := stack[..top];
    }

    lemma Showing(resolution: nat, th: Thread)
      requires shadow.Valid() && shadow.resolution == resolution && |stack| < MAX_DEPTH
      requires ShowsStack(stack, skipped, skip, th.frames, th.hidden)
      requires shadow.Shadow() == th.shadow
      ensures Shows(resolution, th)
    {
    }

    lemma Shown(resolution: nat, th: Thread)
      requires Shows(resolution, th)
      ensures shadow.Valid() && shadow.resolution == resolution && |stack| < MAX_DEPTH
      ensures ShowsStack(stack, skipped, skip, th.frames, th.hidden)
      ensures shadow.Shadow() == th.shadow
    {
    }

    ghost predicate Shows(resolution: nat, th: Thread)
      reads this, shadow
    {
      && shadow.Valid() && shadow.resolution == resolution
      && |stack| < MAX_DEPTH
      && ShowsStack(stack, skipped, skip, th.frames, th.hidden)
      && shadow.Shadow() == th.shadow
    }
  }

  // Thread t has data.
  predicate Live(threads: seq<ThreadData?>, t: nat) {
    0 < t <= |threads| && threads[t - 1] != null
  }

  // No two threads share data, and nobody shares the global shadow memory.
  ghost predicate Separate(threads: seq<ThreadData?>, global: LookupTable) {
    && |threads| == MAX_THREADS
    && (forall t :: Live(threads, t) ==> threads[t - 1].shadow != global)
    && forall t, u :: Live(threads, t) && Live(threads, u) && t != u ==>
      threads[t - 1] != threads[u - 1] && threads[t - 1].shadow != threads[u - 1].shadow
  }

  // The global shadow memory holds 32-bit words.
  ghost predicate ShowsGlobal(m: Shadow, c: Config) {
    && (forall g :: g in m ==> m[g] < 2 * SYSCALL_BIT)
    && Timestamps(m) == c.global
    && SyscallCells(m) == c.io
  }

  // --- what one access does to the fields ---

  // Every cell of the global memory, allocated or not.
  lemma GlobalRead(m: Shadow, g: nat)
    ensures TS(Cell(m, g)) == Cell(Timestamps(m), g)
    ensures SyscallFlag(Cell(m, g)) <==> g in SyscallCells(m)
    ensures g in Timestamps(m) <==> g in m
  {
  }

  lemma GlobalStoredAt(m: Shadow, g: nat, v: nat, segment: nat, x: nat)
    requires segment > 0
    ensures var n := Stored(m, g, v, segment);
      && (x in Timestamps(n) <==> x in Stored(Timestamps(m), g, TS(v), segment))
      && Cell(Timestamps(n), x) == Cell(Stored(Timestamps(m), g, TS(v), segment), x)
      && (x in SyscallCells(n) <==> if x == g then SyscallFlag(v) else x in SyscallCells(m))
      && (x in n ==> n[x] == if x == g then v else Cell(m, x))
  {
    hide TS, SyscallFlag, Segment, Timestamps, SyscallCells;
    GlobalRead(Stored(m, g, v, segment), x);
    GlobalRead(m, x);
  }

  lemma FlagWord(ts: nat, kernel: bool)
    requires 0 < ts < SYSCALL_BIT
    ensures var v := if kernel then SetSyscall(ts) else ts;
      TS(v) == ts && SyscallFlag(v) == kernel && v < 2 * SYSCALL_BIT
  {
  }

  lemma CellsBelow(m: Shadow)
    requires forall x :: x in m ==> m[x] < 2 * SYSCALL_BIT
    ensures forall x :: Cell(m, x) < 2 * SYSCALL_BIT
  {
  }

  lemma {:induction false} GlobalStored(m: Shadow, g: nat, ts: nat, segment: nat, kernel: bool)
    requires segment > 0 && 0 < ts < SYSCALL_BIT
    requires forall x :: x in m ==> m[x] < 2 * SYSCALL_BIT
    ensures var n := Stored(m, g, if kernel then SetSyscall(ts) else ts, segment);
      && (forall x :: x in n ==> n[x] < 2 * SYSCALL_BIT)
      && Timestamps(n) == Stored(Timestamps(m), g, ts, segment)
      && SyscallCells(n) == (if kernel then SyscallCells(m) + {g} else SyscallCells(m) - {g})
  {
    hide Stored, Timestamps, SyscallCells, TS, SyscallFlag, SetSyscall, Cell;
    var v := if kernel then SetSyscall(ts) else ts;
    var n := Stored(m, g, v, segment);
    FlagWord(ts, kernel);
    CellsBelow(m);
    forall x: nat
      ensures x in Timestamps(n) <==> x in Stored(Timestamps(m), g, ts, segment)
      ensures Cell(Timestamps(n), x) == Cell(Stored(Timestamps(m), g, ts, segment), x)
    {
      GlobalStoredAt(m, g, v, segment, x);
    }
    SameCells(Timestamps(n), Stored(Timestamps(m), g, ts, segment));
    forall x: nat
      ensures x in SyscallCells(n) <==> if x == g then kernel else x in SyscallCells(m)
      ensures x in n ==> n[x] < 2 * SYSCALL_BIT
    {
      GlobalStoredAt(m, g, v, segment, x);
    }
  }

  lemma {:induction false} TouchedShows(stack: seq<Activation>, skipped: seq<bool>, skip: nat, mem: Shadow, gm: Shadow, c: Config,
                     g: nat, read: bool, write: bool, w: Params)
    requires Inv(c, w) && Tracked(c) && w.limit <= SYSCALL_BIT
    requires ShowsStack(stack, skipped, skip, c.threads[c.current].frames, c.threads[c.current].hidden)
    requires mem == c.threads[c.current].shadow && ShowsGlobal(gm, c)
    ensures w.Valid() && |stack| > 0 && stack[0].id > 0
    ensures var n := Step(c, Touch(g, read, write), w);
      && Inv(n, w) && n.counter == c.counter && n.current == c.current
      && n.threads.Keys == c.threads.Keys
      && (forall t :: t in c.threads && t != c.current ==> n.threads[t] == c.threads[t])
      && ShowsStack(
           if read then CountedWords(stack, Cell(mem, g), TS(Cell(gm, g)), SyscallFlag(Cell(gm, g))) else stack,
           skipped, skip, n.threads[c.current].frames, n.threads[c.current].hidden)
      && n.threads[c.current].shadow == Stored(mem, g, c.counter, w.segment)
      && ShowsGlobal(if write then Stored(gm, g, c.counter, w.segment) else gm, n)
  {
    hide Inv, Stored, Cell, Counted, CountedWords, TS, SyscallFlag, ShowsGlobal, Timestamps, SyscallCells;
    CurrentKnown(c, w);
    TouchedKeeps(c, g, read, write, w);
    var th := c.threads[c.current];
    StackParts(stack, skipped, skip, th.frames, th.hidden);
    GlobalRead(gm, g);
    ShowsGlobalParts(gm, c);
    FirstIdPositive(c, w, c.current);
    if read {
      CountedFollows(stack, th.frames, Cell(mem, g), Cell(c.global, g), g in c.io);
      TopShows(CountedWords(stack, Cell(mem, g), Cell(c.global, g), g in c.io), skipped,
               Counted(th.frames, Cell(mem, g), Cell(c.global, g), g in c.io));
    }
    GlobalTouched(gm, c, g, read, write, w);
  }

  lemma {:induction false} GlobalTouched(gm: Shadow, c: Config, g: nat, read: bool, write: bool, w: Params)
    requires ShowsGlobal(gm, c) && w.Valid() && 0 < c.counter < SYSCALL_BIT && Tracked(c)
    ensures ShowsGlobal(if write then Stored(gm, g, c.counter, w.segment) else gm, Touched(c, g, read, write, w))
  {
    hide Stored, SyscallCells, Timestamps;
    GlobalStored(gm, g, c.counter, w.segment, false);
  }

  lemma ShowsGlobalParts(m: Shadow, c: Config)
    requires ShowsGlobal(m, c)
    ensures Timestamps(m) == c.global && SyscallCells(m) == c.io
  {
  }

  lemma FirstIdPositive(c: Config, w: Params, t: nat)
    requires Inv(c, w) && t in c.threads
    ensures |c.threads[t].frames| > 0 ==> c.threads[t].frames[0].id > 0
  {
    assert Sound(c.threads[t], c);
  }

  // --- what an overflow finds and leaves ---

  // Thread numbers with data, in increasing order: all of them, or those up to j.
  ghost predicate LiveList(live: seq<nat>, threads: seq<ThreadData?>) {
    && (forall x :: 0 <= x < |live| ==> Live(threads, live[x]))
    && (forall x, y :: 0 <= x < y < |live| ==> live[x] < live[y])
    && forall t :: Live(threads, t) ==> t in live
  }

  ghost predicate LiveUpTo(live: seq<nat>, threads: seq<ThreadData?>, j: nat) {
    && (forall x :: 0 <= x < |live| ==> Live(threads, live[x]) && live[x] <= j)
    && (forall x, y :: 0 <= x < y < |live| ==> live[x] < live[y])
    && forall t: nat :: Live(threads, t) && t <= j ==> t in live
  }

  lemma NobodyYet(threads: seq<ThreadData?>)
    ensures LiveUpTo([], threads, 0)
  {
  }

  lemma LiveStep(live: seq<nat>, threads: seq<ThreadData?>, j: nat)
    requires j < |threads| && LiveUpTo(live, threads, j)
    ensures LiveUpTo(if threads[j] != null then live + [j + 1] else live, threads, j + 1)
  {
    if threads[j] != null {
      var more := live + [j + 1];
      forall t: nat | Live(threads, t) && t <= j + 1 ensures t in more {
        if t <= j { assert t in live; } else { assert more[|live|] == t; }
      }
    }
  }

  lemma LiveAll(live: seq<nat>, threads: seq<ThreadData?>)
    requires LiveUpTo(live, threads, |threads|)
    ensures LiveList(live, threads)
  {
  }

  // The stacks of all threads, nobody being inside a skipped function.
  ghost predicate AllStacks(stacks: seq<seq<Activation>>, live: seq<nat>, ts: map<nat, Thread>) {
    && |stacks| == |live|
    && (forall x :: 0 <= x < |live| ==> live[x] in ts && StackWords(stacks[x], ts[live[x]].frames))
    && (forall x, y :: 0 <= x < y < |live| ==> live[x] < live[y])
    && forall t :: t in ts ==> t in live
  }

  lemma MergeFinds(stacks: seq<seq<Activation>>, live: seq<nat>, c: Config, w: Params)
    requires Inv(c, w) && AllStacks(stacks, live, c.threads)
    ensures AllPositive(stacks) && Orderly(stacks) && StackIds(stacks) == Ids(c.threads)
  {
    forall x | 0 <= x < |live|
      ensures Increasing(stacks[x]) && forall j :: 0 <= j < |stacks[x]| ==> stacks[x][j].id > 0
    {
      StackOrder(stacks[x], c.threads[live[x]], c);
    }
    hide Sound;
    StackIdsAre(stacks, live, c.threads);
  }

  lemma StackOrder(stack: seq<Activation>, th: Thread, c: Config)
    requires Sound(th, c) && StackWords(stack, th.frames)
    ensures Increasing(stack) && forall j :: 0 <= j < |stack| ==> stack[j].id > 0
  {
  }

  lemma StackIdsAre(stacks: seq<seq<Activation>>, live: seq<nat>, ts: map<nat, Thread>)
    requires AllStacks(stacks, live, ts)
    ensures StackIds(stacks) == Ids(ts)
  {
    forall v | v in StackIds(stacks) ensures v in Ids(ts) {
      var x, j :| 0 <= x < |stacks| && 0 <= j < |stacks[x]| && stacks[x][j].id == v;
      assert ts[live[x]].frames[j].id == v;
    }
    forall v | v in Ids(ts) ensures v in StackIds(stacks) {
      var t, j :| t in ts && 0 <= j < |ts[t].frames| && ts[t].frames[j].id == v;
      var x :| 0 <= x < |live| && live[x] == t;
      assert stacks[x][j].id == v;
    }
  }

  lemma {:induction false} OverflowGlobal(gwas: Table, gnow: Table, s: nat, c: Config, w: Params)
    requires WellFormed(gwas, s) && WellFormed(gnow, s)
    requires GlobalTableUpTo(Ids(c.threads), gwas, gnow, LK_SIZE * ILT_SIZE)
    requires ShowsGlobal(Contents(gwas, s), c) && w.limit == SYSCALL_BIT
    requires c.counter + 1 == w.limit && BumpEnabled(c, w)
    ensures ShowsGlobal(Contents(gnow, s), Bump(c, w))
  {
    hide WellFormed, GlobalTableUpTo, Contents, CompressedThread, CompressedGlobal, Ids;
    GlobalContents(Ids(c.threads), gwas, gnow, s);
  }

  lemma {:induction false} OverflowThread(gwas: Table, was: Table, now: Table, s: nat, stack: seq<Activation>, skipped: seq<bool>, skip: nat,
                       c: Config, w: Params, t: nat)
    requires WellFormed(gwas, s) && WellFormed(was, s) && WellFormed(now, s)
    requires LocalTableUpTo(Ids(c.threads), gwas, was, now, LK_SIZE * ILT_SIZE)
    requires ShowsGlobal(Contents(gwas, s), c) && t in c.threads && Contents(was, s) == c.threads[t].shadow
    requires |c.threads[t].hidden| == 0
    requires ShowsStack(stack, skipped, skip, c.threads[t].frames, c.threads[t].hidden)
    requires c.counter + 1 == w.limit
    ensures var n := Bump(c, w);
      && n.threads.Keys == c.threads.Keys
      && ShowsStack(Renumbered(Ids(c.threads), stack), skipped, skip, n.threads[t].frames, n.threads[t].hidden)
      && Contents(now, s) == n.threads[t].shadow
  {
    hide WellFormed, LocalTableUpTo, Contents, CompressedLocal, Ids, Renumbered, StackWords;
    var ids := Ids(c.threads);
    LocalContents(ids, gwas, was, now, s);
    StackParts(stack, skipped, skip, c.threads[t].frames, c.threads[t].hidden);
    RenumberedFollows(ids, stack, c.threads[t].frames);
    TopShows(Renumbered(ids, stack), skipped, Renumbered(ids, c.threads[t].frames));
  }

  // The bound that keeps renumbered words clear of the syscall flag.
  lemma NewCounterFits(c: Config, w: Params)
    requires BumpEnabled(c, w) && c.counter + 1 == w.limit
    ensures 3 * |Ids(c.threads)| + 1 < w.limit && forall t :: t in c.threads ==> |c.threads[t].hidden| == 0
  {
  }

  lemma ActiveSize(active: seq<nat>, ids: set<nat>)
    requires ActiveList(active, ids)
    ensures |active| == |ids| + 1
  {
  }

  class Runtime {
    const resolution: nat
    const globalShadow: LookupTable
    var globalCounter: nat
    // 0 stands for the invalid thread
    var currentTid: nat
    // slot tid - 1 holds the data of thread tid
    var threads: seq<ThreadData?>
    ghost var config: Config

    ghost function Width(): Params
      requires Resolution(resolution)
    {
      Params(MAX_COUNT_VAL, SegmentSize(resolution))
    }

    ghost function Footprint(): set<object>
      reads this
    {
      {this, globalShadow}
      + (set t | 0 <= t < |threads| && threads[t] != null :: threads[t] as object)
      + (set t | 0 <= t < |threads| && threads[t] != null :: threads[t].shadow as object)
    }

    ghost predicate ThreadsShow()
      requires Separate(threads, globalShadow)
      reads this, Footprint()
    {
      && (forall t :: t in config.threads <==> Live(threads, t))
      && forall t :: Live(threads, t) ==> threads[t - 1].Shows(resolution, config.threads[t])
    }

    ghost predicate Valid()
      reads this, Footprint()
    {
      && Resolution(resolution)
      && Separate(threads, globalShadow)
      && Inv(config, Width())
      && globalCounter == config.counter
      && currentTid == config.current
      && globalShadow.Valid() && globalShadow.resolution == resolution
      && ShowsGlobal(globalShadow.Shadow(), config)
      && ThreadsShow()
    }

    constructor (resolution: nat)
      requires Resolution(resolution)
      ensures Valid() && fresh(Footprint()) && config == Initial()
    {
      this.resolution := resolution;
      globalShadow := new LookupTable(resolution);
      globalCounter, currentTid := 1, 0;
      threads := seq(MAX_THREADS, _ => null);
      config := Initial();
      new;
      RunKeeps([], Width());
    }
  
    lemma InvHolds()
      requires Valid()
      ensures Resolution(resolution) && Inv(config, Width()) && currentTid == config.current
    {
    }

    // The word of a granule in the global shadow memory, flag included.
    ghost function GlobalWord(g: nat): nat
      requires Valid()
      reads this, Footprint()
    {
      Cell(globalShadow.Shadow(), g)
    }

    lemma GlobalWords()
      requires Valid()
      ensures globalCounter == config.counter
      ensures forall g :: GlobalWord(g) == FlaggedCell(config, g)
    {
      hide Inv, ShowsGlobal, ThreadData.Shows, Cell, FlaggedCell;
      forall g ensures GlobalWord(g) == FlaggedCell(config, g) {
        ShownWord(globalShadow.Shadow(), config, g);
      }
    }

    // Everything but the thread that runs is as it was.
    lemma CurrentShows()
      requires Valid() && currentTid != 0
      ensures Live(threads, currentTid) && currentTid in config.threads
      ensures threads[currentTid - 1].Shows(resolution, config.threads[currentTid])
    {
      hide Inv, ShowsGlobal, ThreadData.Shows;
      CurrentKnown(config, Width());
    }

    // The fields show another configuration from now on.
    ghost method Note(n: Config)
      requires Resolution(resolution) && Separate(threads, globalShadow) && Inv(n, Width())
      requires globalCounter == n.counter && currentTid == n.current
      requires globalShadow.Valid() && globalShadow.resolution == resolution && ShowsGlobal(globalShadow.Shadow(), n)
      requires forall t :: t in n.threads <==> Live(threads, t)
      requires forall t :: Live(threads, t) ==> threads[t - 1].Shows(resolution, n.threads[t])
      modifies this`config
      ensures Valid() && config == n
    {
      hide Inv, ShowsGlobal, ThreadData.Shows, LookupTable.Valid;
      config := n;
    }

    /** One iteration of the loop of trace_access_drms: the shadow words and the counts. */
    method TouchWords(tdata: ThreadData, addr: nat, kind: AccessType)
      requires globalShadow.Valid() && tdata.shadow.Valid() && tdata.shadow != globalShadow
      requires globalShadow.resolution == tdata.shadow.resolution == resolution && addr < ADDRESSES
      requires |tdata.stack| > 0 && tdata.stack[0].id > 0
      modifies globalShadow, tdata`stack, tdata.shadow
      ensures globalShadow.Valid() && tdata.shadow.Valid()
      ensures var g := addr / resolution; var wts := Cell(old(globalShadow.Shadow()), g);
        && globalShadow.Shadow() == (
             if kind == LOAD then old(globalShadow.Shadow())
             else Stored(old(globalShadow.Shadow()), g, globalCounter, SegmentSize(resolution)))
        && tdata.shadow.Shadow() == Stored(old(tdata.shadow.Shadow()), g, globalCounter, SegmentSize(resolution))
        && tdata.stack == (
             if kind == STORE then old(tdata.stack)
             else CountedWords(old(tdata.stack), Cell(old(tdata.shadow.Shadow()), g), TS(wts), SyscallFlag(wts)))
    {
      hide Stored, Cell, CountedWords, TS, SyscallFlag;
      var ts := globalCounter;
      var wts;
      if kind == LOAD {
        wts := globalShadow.Lookup(addr);
      } else {
        wts := globalShadow.Insert(addr, ts);
      }
      var oldTs := tdata.shadow.Insert(addr, ts);
      if kind != STORE {
        tdata.CountRead(oldTs, wts);
      }
    }

    /** One iteration of the loop of trace_access_drms for an access of the running thread. */
    method TouchGranule(addr: nat, kind: AccessType)
      requires Valid() && Tracked(config) && addr < ADDRESSES
      modifies globalShadow, threads[currentTid - 1], threads[currentTid - 1].shadow, this`config
      ensures Valid()
      ensures config == Step(old(config), Touch(addr / resolution, kind != STORE, kind != LOAD), Width())
    {
      hide Inv, ShowsGlobal, ShowsStack, Step, Stored, Cell, ThreadData.Shows, CountedWords, TS, SyscallFlag;
      CurrentShows();
      var tdata := threads[currentTid - 1];
      tdata.Shown(resolution, config.threads[currentTid]);
      TouchedShows(tdata.stack, tdata.skipped, tdata.skip, tdata.shadow.Shadow(), globalShadow.Shadow(), config,
                   addr / resolution, kind != STORE, kind != LOAD, Width());
      TouchWords(tdata, addr, kind);
      ghost var n := Step(config, Touch(addr / resolution, kind != STORE, kind != LOAD), Width());
      tdata.Showing(resolution, n.threads[currentTid]);
      forall t | Live(threads, t) && t != currentTid ensures threads[t - 1].Shows(resolution, n.threads[t]) {
        assert old(threads[t - 1].Shows(resolution, config.threads[t]));
      }
      Note(n);
    }

    // The stacks and tables of the listed threads.
    ghost predicate Collected(live: seq<nat>, stacks: seq<seq<Activation>>, tables: seq<Table>)
      reads this, Footprint()
    {
      && |stacks| == |tables| == |live|
      && forall x :: 0 <= x < |live| ==>
        && Live(threads, live[x])
        && stacks[x] == threads[live[x] - 1].stack && tables[x] == threads[live[x] - 1].shadow.table
    }

    lemma CollectedStep(live: seq<nat>, stacks: seq<seq<Activation>>, tables: seq<Table>, j: nat)
      requires Collected(live, stacks, tables) && j < |threads| && threads[j] != null
      ensures Collected(live + [j + 1], stacks + [threads[j].stack], tables + [threads[j].shadow.table])
    {
    }

    /** The threads with data, their stacks and their tables. */
    method CollectThreads() returns (live: seq<nat>, stacks: seq<seq<Activation>>, tables: seq<Table>)
      ensures LiveList(live, threads)
      ensures |stacks| == |tables| == |live|
      ensures forall x :: 0 <= x < |live| ==>
        stacks[x] == threads[live[x] - 1].stack && tables[x] == threads[live[x] - 1].shadow.table
    {
      live, stacks, tables := CollectLoop();
      LiveAll(live, threads);
    }

    // Its loop.
    method CollectLoop() returns (live: seq<nat>, stacks: seq<seq<Activation>>, tables: seq<Table>)
      ensures LiveUpTo(live, threads, |threads|) && Collected(live, stacks, tables)
    {
      hide LiveUpTo, Collected;
      live, stacks, tables := [], [], [];
      NobodyYet(threads);
      NothingCollected();
      for j := 0 to |threads|
        invariant LiveUpTo(live, threads, j) && Collected(live, stacks, tables)
      {
        LiveStep(live, threads, j);
        if threads[j] != null {
          CollectedStep(live, stacks, tables, j);
          live := live + [j + 1];
          stacks, tables := stacks + [threads[j].stack], tables + [threads[j].shadow.table];
        }
      }
    }

    lemma NothingCollected()
      ensures Collected([], [], [])
    {
    }

    // The merge and the renumbering of overflow_handler_drms, on what was collected.
    method RenumberAll(live: seq<nat>, stacks: seq<seq<Activation>>, tables: seq<Table>)
      returns (next: nat, renumbered: seq<seq<Activation>>, global: Table, locals: seq<Table>)
      requires Valid() && config.counter + 1 == MAX_COUNT_VAL && BumpEnabled(config, Width())
      requires LiveList(live, threads) && |stacks| == |tables| == |live|
      requires forall x :: 0 <= x < |live| ==>
        stacks[x] == threads[live[x] - 1].stack && tables[x] == threads[live[x] - 1].shadow.table
      ensures var n := Bump(config, Width()); var s := SegmentSize(resolution);
        && next == n.counter && n.threads.Keys == config.threads.Keys
        && WellFormed(global, s) && ShowsGlobal(Contents(global, s), n)
        && |renumbered| == |locals| == |live|
        && forall x :: 0 <= x < |live| ==>
          && threads[live[x] - 1].shadow.resolution == resolution && live[x] in n.threads
          && WellFormed(locals[x], s) && |renumbered[x]| < MAX_DEPTH
          && ShowsStack(renumbered[x], threads[live[x] - 1].skipped, threads[live[x] - 1].skip,
                        n.threads[live[x]].frames, n.threads[live[x]].hidden)
          && Contents(locals[x], s) == n.threads[live[x]].shadow
    {
      hide Inv, BumpEnabled, Bump, ThreadData.Shows, ShowsStack, ShowsGlobal, WellFormed, Contents, Ids, StackIds,
        ActiveList, AllPositive, Orderly, GlobalTableUpTo, AllLocalsUpTo, Renumbered, Footprint;
      ThreadsKnown(live, stacks, tables);
      var merged := MergeStacks(stacks);
      global, locals := CompressTables(merged.active, Ids(config.threads), globalShadow.table, tables, SegmentSize(resolution));
      ThreadsRenumbered(live, stacks, tables, global, locals);
      ActiveSize(merged.active, Ids(config.threads));
      next, renumbered := 3 * (|merged.active| + 1), merged.stacks;
    }

    /** overflow_handler_drms: renumbers everything; returns the next value of the counter. */
    method OverflowHandler() returns (next: nat)
      requires Valid() && config.counter + 1 == MAX_COUNT_VAL && BumpEnabled(config, Width())
      modifies globalShadow
      modifies set t | 0 <= t < |threads| && threads[t] != null :: threads[t]
      modifies set t | 0 <= t < |threads| && threads[t] != null :: threads[t].shadow
      ensures globalShadow.Valid()
      ensures var n := Bump(config, Width());
        && next == n.counter
        && ShowsGlobal(globalShadow.Shadow(), n)
        && n.threads.Keys == config.threads.Keys
        && forall t :: Live(threads, t) ==> t in n.threads && threads[t - 1].Shows(resolution, n.threads[t])
    {
      hide Inv, BumpEnabled, Bump, ThreadData.Shows, ShowsStack, ShowsGlobal, WellFormed, Contents, Ids, StackIds,
        Renumbered, Footprint;
      ghost var n := Bump(config, Width());
      var live, stacks, tables := CollectThreads();
      var renumbered, global, locals;
      next, renumbered, global, locals := RenumberAll(live, stacks, tables);
      globalShadow.table := global;
      StoreThreads(live, renumbered, locals, n.threads);
    }

    // What the threads' fields give the merge and the renumbering.
    lemma {:induction false} ThreadsKnown(live: seq<nat>, stacks: seq<seq<Activation>>, tables: seq<Table>)
      requires Valid() && config.counter + 1 == MAX_COUNT_VAL && BumpEnabled(config, Width())
      requires LiveList(live, threads) && |stacks| == |tables| == |live|
      requires forall x :: 0 <= x < |live| ==>
        stacks[x] == threads[live[x] - 1].stack && tables[x] == threads[live[x] - 1].shadow.table
      ensures AllPositive(stacks) && Orderly(stacks) && StackIds(stacks) == Ids(config.threads)
      ensures WellFormed(globalShadow.table, SegmentSize(resolution))
      ensures forall x :: 0 <= x < |live| ==>
        WellFormed(tables[x], SegmentSize(resolution)) && threads[live[x] - 1].shadow.resolution == resolution
    {
      hide Inv, BumpEnabled, ThreadData.Shows, ShowsStack, ShowsGlobal, WellFormed, Contents, Ids, StackIds,
        AllPositive, Orderly, StackWords;
      NewCounterFits(config, Width());
      forall x | 0 <= x < |live|
        ensures StackWords(stacks[x], config.threads[live[x]].frames)
        ensures WellFormed(tables[x], SegmentSize(resolution)) && threads[live[x] - 1].shadow.resolution == resolution
      {
        var td := threads[live[x] - 1];
        td.Shown(resolution, config.threads[live[x]]);
        StackParts(td.stack, td.skipped, td.skip, config.threads[live[x]].frames, config.threads[live[x]].hidden);
      }
      MergeFinds(stacks, live, config, Width());
    }

    // What the renumbered values show.
    lemma {:induction false} ThreadsRenumbered(live: seq<nat>, stacks: seq<seq<Activation>>, tables: seq<Table>, global: Table, locals: seq<Table>)
      requires Valid() && config.counter + 1 == MAX_COUNT_VAL && BumpEnabled(config, Width())
      requires LiveList(live, threads) && |stacks| == |tables| == |live|
      requires forall x :: 0 <= x < |live| ==>
        stacks[x] == threads[live[x] - 1].stack && tables[x] == threads[live[x] - 1].shadow.table
      requires WellFormed(global, SegmentSize(resolution))
      requires GlobalTableUpTo(Ids(config.threads), globalShadow.table, global, LK_SIZE * ILT_SIZE)
      requires AllLocalsUpTo(Ids(config.threads), globalShadow.table, tables, locals, SegmentSize(resolution), LK_SIZE * ILT_SIZE)
      ensures var n := Bump(config, Width()); var s := SegmentSize(resolution);
        && n.counter == 3 * (|Ids(config.threads)| + 2)
        && n.threads.Keys == config.threads.Keys
        && ShowsGlobal(Contents(global, s), n)
        && |locals| == |live|
        && forall x :: 0 <= x < |live| ==>
          && WellFormed(locals[x], s)
          && |Renumbered(Ids(config.threads), stacks[x])| < MAX_DEPTH
          && ShowsStack(Renumbered(Ids(config.threads), stacks[x]), threads[live[x] - 1].skipped, threads[live[x] - 1].skip,
                        n.threads[live[x]].frames, n.threads[live[x]].hidden)
          && Contents(locals[x], s) == n.threads[live[x]].shadow
    {
      hide Inv, BumpEnabled, CompressedThread, ThreadData.Shows, ShowsStack, ShowsGlobal, WellFormed, Contents, Ids,
        GlobalTableUpTo, LocalTableUpTo;
      var s := SegmentSize(resolution);
      NewCounterFits(config, Width());
      ThreadsKnown(live, stacks, tables);
      OverflowGlobal(globalShadow.table, global, s, config, Width());
      forall x | 0 <= x < |live|
        ensures WellFormed(locals[x], s)
        ensures var n := Bump(config, Width());
          && |Renumbered(Ids(config.threads), stacks[x])| < MAX_DEPTH
          && ShowsStack(Renumbered(Ids(config.threads), stacks[x]), threads[live[x] - 1].skipped, threads[live[x] - 1].skip,
                        n.threads[live[x]].frames, n.threads[live[x]].hidden)
          && Contents(locals[x], s) == n.threads[live[x]].shadow
      {
        var td := threads[live[x] - 1];
        td.Shown(resolution, config.threads[live[x]]);
        OverflowThread(globalShadow.table, tables[x], locals[x], s, td.stack, td.skipped, td.skip, config, Width(), live[x]);
      }
    }

    /** Puts the renumbered stacks and tables in place. */
    method StoreThreads(live: seq<nat>, stacks: seq<seq<Activation>>, tables: seq<Table>, ghost ts: map<nat, Thread>)
      requires Separate(threads, globalShadow) && LiveList(live, threads) && |stacks| == |tables| == |live|
      requires Resolution(resolution)
      requires forall x :: 0 <= x < |live| ==>
        && threads[live[x] - 1].shadow.resolution == resolution
        && live[x] in ts && WellFormed(tables[x], SegmentSize(resolution)) && |stacks[x]| < MAX_DEPTH
        && ShowsStack(stacks[x], threads[live[x] - 1].skipped, threads[live[x] - 1].skip,
                      ts[live[x]].frames, ts[live[x]].hidden)
        && Contents(tables[x], SegmentSize(resolution)) == ts[live[x]].shadow
      modifies set t | 0 <= t < |threads| && threads[t] != null :: threads[t]
      modifies set t | 0 <= t < |threads| && threads[t] != null :: threads[t].shadow
      ensures forall t :: Live(threads, t) ==> t in ts && threads[t - 1].Shows(resolution, ts[t])
      ensures globalShadow.table == old(globalShadow.table)
    {
      hide WellFormed, ShowsStack, Contents, ThreadData.Shows;
      for k := 0 to |live|
        invariant forall x :: 0 <= x < k ==> threads[live[x] - 1].Shows(resolution, ts[live[x]])
        invariant forall x :: k <= x < |live| ==>
          && threads[live[x] - 1].skipped == old(threads[live[x] - 1].skipped)
          && threads[live[x] - 1].skip == old(threads[live[x] - 1].skip)
        invariant globalShadow.table == old(globalShadow.table)
      {
        var tdata := threads[live[k] - 1];
        tdata.stack := stacks[k];
        tdata.shadow.table := tables[k];
        tdata.Showing(resolution, ts[live[k]]);
      }
    }

    /** increase_global_counter, as every bump of the counter does it. */
    method IncreaseGlobalCounter()
      requires Valid() && BumpEnabled(config, Width())
      modifies this`globalCounter, this`config, globalShadow
      modifies set t | 0 <= t < |threads| && threads[t] != null :: threads[t]
      modifies set t | 0 <= t < |threads| && threads[t] != null :: threads[t].shadow
      ensures Valid() && config == Bump(old(config), Width())
    {
      hide Inv, ThreadData.Shows, BumpEnabled;
      ghost var c := config;
      BumpKeeps(c, Width());
      BumpParts(c, Width());
      if globalCounter + 1 == MAX_COUNT_VAL {
        globalCounter := OverflowHandler();
      } else {
        globalCounter := globalCounter + 1;
        forall t | Live(threads, t) ensures threads[t - 1].Shows(resolution, Bump(c, Width()).threads[t]) {
          assert old(threads[t - 1].Shows(resolution, config.threads[t]));
        }
      }
      Note(Bump(c, Width()));
    }

    /** thread_start for a thread that has no data yet. */
    method ThreadStart(tid: nat)
      requires Valid() && 0 < tid <= MAX_THREADS && !Live(threads, tid)
      modifies this`threads, this`config
      ensures Valid() && config == Started(old(config), tid)
      ensures threads == old(threads)[tid - 1 := threads[tid - 1]] && Live(threads, tid)
      ensures fresh(threads[tid - 1]) && fresh(threads[tid - 1].shadow)
    {
      hide Inv, ThreadData.Shows, ShowsGlobal;
      ghost var c := config;
      StartedKeeps(c, tid, Width());
      StartedParts(c, tid);
      var tdata := new ThreadData(resolution);
      TopShows([], [], []);
      threads := threads[tid - 1 := tdata];
      ghost var n := Started(c, tid);
      tdata.Showing(resolution, n.threads[tid]);
      ShowsGlobalSame(globalShadow.Shadow(), c, n);
      forall t | Live(threads, t) && t != tid ensures threads[t - 1].Shows(resolution, n.threads[t]) {
        assert old(threads[t - 1].Shows(resolution, config.threads[t]));
      }
      Note(n);
    }

    /** thread_switch; thread 0 is the invalid thread. */
    method ThreadSwitch(tid: nat)
      requires Valid() && tid <= MAX_THREADS
      requires tid > 0 && tid != currentTid ==> BumpEnabled(config, Width())
      modifies this, globalShadow
      modifies set t | 0 <= t < |threads| && threads[t] != null :: threads[t]
      modifies set t | 0 <= t < |threads| && threads[t] != null :: threads[t].shadow
      ensures Valid()
      ensures config == if tid == 0 then Step(old(config), Idle, Width()) else Step(old(config), Switch(tid), Width())
      ensures currentTid == tid
    {
      hide Inv, BumpEnabled, Bump, Started, Valid, Separate;
      InvHolds();
      ghost var c := config;
      if tid == currentTid {
        return;
      }
      if tid == 0 {
        StepKeeps(c, Idle, Width());
        SetCurrent(0);
        return;
      }
      SwitchedKeeps(c, tid, Width());
      SwitchedParts(c, tid, Width());
      IncreaseGlobalCounter();
      LiveMeansKnown(tid);
      if threads[tid - 1] == null {
        ThreadStart(tid);
      }
      SetCurrent(tid);
    }

    lemma LiveMeansKnown(tid: nat)
      requires Valid()
      ensures |threads| == MAX_THREADS && (Live(threads, tid) <==> tid in config.threads)
    {
    }

    /** Changes the running thread. */
    method SetCurrent(tid: nat)
      requires Valid() && Inv(config.(current := tid), Width())
      modifies this`currentTid, this`config
      ensures Valid() && config == old(config).(current := tid) && currentTid == tid
    {
      hide Inv, ThreadData.Shows, ShowsGlobal;
      ghost var c := config;
      currentTid := tid;
      config := c.(current := tid);
      ShowsGlobalSame(globalShadow.Shadow(), c, config);
      forall t | Live(threads, t) ensures threads[t - 1].Shows(resolution, config.threads[t]) {
        assert old(threads[t - 1].Shows(resolution, config.threads[t]));
      }
    }

    /** function_enter for an activation that is not profiled. */
    method EnterHidden(tdata: ThreadData, skipFn: bool, stale: Activation)
      requires Valid() && currentTid != 0 && Live(threads, currentTid) && tdata == threads[currentTid - 1]
      requires |tdata.stack| + 1 < MAX_DEPTH && (skipFn || tdata.skip > 0)
      modifies this`config, tdata
      ensures Valid()
      ensures config == Step(old(config), Enter(skipFn), Width())
    {
      hide Inv, ThreadData.Shows, BumpEnabled, ShowsGlobal, Bump, ShowsStack, StackWords;
      ghost var c := config;
      CurrentShows();
      tdata.Shown(resolution, c.threads[currentTid]);
      StackParts(tdata.stack, tdata.skipped, tdata.skip, c.threads[currentTid].frames, c.threads[currentTid].hidden);
      EnteredKeeps(c, skipFn, Width());
      PushHidden(tdata.stack, tdata.skipped, tdata.skip, c.threads[currentTid].frames, c.threads[currentTid].hidden,
                 stale, skipFn);
      tdata.skip := if skipFn then tdata.skip + 1 else tdata.skip;
      tdata.stack, tdata.skipped := tdata.stack + [stale], tdata.skipped + [skipFn];
      ghost var n := Step(c, Enter(skipFn), Width());
      tdata.Showing(resolution, n.threads[currentTid]);
      ShowsGlobalSame(globalShadow.Shadow(), c, n);
      forall t | Live(threads, t) && t != currentTid ensures threads[t - 1].Shows(resolution, n.threads[t]) {
        assert old(threads[t - 1].Shows(resolution, config.threads[t]));
      }
      Note(n);
    }

    /** The new activation of function_enter, once the counter is bumped. */
    method PushActivation(tdata: ThreadData, ghost c: Config)
      requires Valid() && currentTid != 0 && Live(threads, currentTid) && tdata == threads[currentTid - 1]
      requires |tdata.stack| + 1 < MAX_DEPTH && tdata.skip == 0
      requires Inv(c, Width()) && BumpEnabled(c, Width()) && config == Bump(c, Width()) && c.current == config.current
      requires currentTid in c.threads && |c.threads[currentTid].hidden| == 0
      modifies this`config, tdata
      ensures Valid()
      ensures config == Step(c, Enter(false), Width())
    {
      hide Inv, ThreadData.Shows, BumpEnabled, ShowsGlobal, Bump, ShowsStack, StackWords;
      CurrentShows();
      EnteredKeeps(c, false, Width());
      BumpHidden(c, Width(), currentTid);
      tdata.Shown(resolution, config.threads[currentTid]);
      PushTop(tdata.stack, tdata.skipped, tdata.skip, config.threads[currentTid].frames, NewActivation(globalCounter));
      ghost var d := config;
      tdata.stack, tdata.skipped := tdata.stack + [NewActivation(globalCounter)], tdata.skipped + [false];
      config := Step(c, Enter(false), Width());
      tdata.Showing(resolution, config.threads[currentTid]);
      ShowsGlobalSame(globalShadow.Shadow(), d, config);
      forall t | Live(threads, t) && t != currentTid ensures threads[t - 1].Shows(resolution, config.threads[t]) {
        assert old(threads[t - 1].Shows(resolution, d.threads[t]));
      }
    }

    /** function_enter on the running thread: `stale` is what the reused stack slot held before. */
    method FunctionEnter(skipFn: bool, stale: Activation)
      requires Valid() && currentTid != 0 && Live(threads, currentTid)
      requires |threads[currentTid - 1].stack| + 1 < MAX_DEPTH
      requires !skipFn && threads[currentTid - 1].skip == 0 ==> BumpEnabled(config, Width())
      modifies this`globalCounter, this`config, globalShadow
      modifies set t | 0 <= t < |threads| && threads[t] != null :: threads[t]
      modifies set t | 0 <= t < |threads| && threads[t] != null :: threads[t].shadow
      ensures Valid()
      ensures config == Step(old(config), Enter(skipFn), Width())
    {
      hide Inv, ThreadData.Shows, BumpEnabled, ShowsGlobal, Bump, ShowsStack, StackWords, Step;
      var tdata := threads[currentTid - 1];
      if skipFn || tdata.skip > 0 {
        EnterHidden(tdata, skipFn, stale);
        return;
      }
      ghost var c := config;
      CurrentShows();
      tdata.Shown(resolution, c.threads[currentTid]);
      StackParts(tdata.stack, tdata.skipped, tdata.skip, c.threads[currentTid].frames, c.threads[currentTid].hidden);
      BumpParts(c, Width());
      BumpHidden(c, Width(), currentTid);
      StackDepthKept(c, Width(), currentTid);
      IncreaseGlobalCounter();
      tdata.Shown(resolution, config.threads[currentTid]);
      StackParts(tdata.stack, tdata.skipped, tdata.skip, config.threads[currentTid].frames, config.threads[currentTid].hidden);
      PushActivation(tdata, c);
    }

    /** function_exit of an activation that is not profiled. */
    method ExitHidden(tid: nat, tdata: ThreadData)
      requires Valid() && Live(threads, tid) && tdata == threads[tid - 1] && tdata.skip > 0 && |tdata.stack| > 0
      modifies this`config, tdata
      ensures Valid()
      ensures config == Step(old(config), Return(tid), Width())
      ensures |tdata.stack| == |old(tdata.stack)| - 1
    {
      hide Inv, ThreadData.Shows, ShowsGlobal, ShowsStack, StackWords, Step, Fold;
      ghost var c := config;
      ghost var th := c.threads[tid];
      tdata.Shown(resolution, th);
      StackParts(tdata.stack, tdata.skipped, tdata.skip, th.frames, th.hidden);
      ReturnParts(c, Width(), tid);
      PopHidden(tdata.stack, tdata.skipped, tdata.skip, th.frames, th.hidden);
      var top := |tdata.stack| - 1;
      tdata.skip := if tdata.skipped[top] then tdata.skip - 1 else tdata.skip;
      tdata.stack, tdata.skipped := tdata.stack[..top], tdata.skipped[..top];
      ghost var n := Step(c, Return(tid), Width());
      tdata.Showing(resolution, n.threads[tid]);
      ShowsGlobalSame(globalShadow.Shadow(), c, n);
      forall t | Live(threads, t) && t != tid ensures threads[t - 1].Shows(resolution, n.threads[t]) {
        assert old(threads[t - 1].Shows(resolution, config.threads[t]));
      }
      Note(n);
    }

    /** function_exit of a profiled activation. */
    method ExitProfiled(tid: nat, tdata: ThreadData)
      requires Valid() && Live(threads, tid) && tdata == threads[tid - 1] && tdata.skip == 0 && |tdata.stack| > 0
      modifies this`config, tdata
      ensures Valid()
      ensures config == Step(old(config), Return(tid), Width())
      ensures |tdata.stack| == |old(tdata.stack)| - 1
    {
      hide Inv, ThreadData.Shows, ShowsGlobal, ShowsStack, StackWords, Step, Fold, FoldWords;
      ghost var c := config;
      ghost var th := c.threads[tid];
      tdata.Shown(resolution, th);
      StackParts(tdata.stack, tdata.skipped, tdata.skip, th.frames, th.hidden);
      ReturnParts(c, Width(), tid);
      PopTop(tdata.stack, tdata.skipped, tdata.skip, th.frames);
      tdata.FoldIntoParent();
      tdata.skipped := tdata.skipped[..|tdata.skipped| - 1];
      ghost var n := Step(c, Return(tid), Width());
      tdata.Showing(resolution, n.threads[tid]);
      ShowsGlobalSame(globalShadow.Shadow(), c, n);
      forall t | Live(threads, t) && t != tid ensures threads[t - 1].Shows(resolution, n.threads[t]) {
        assert old(threads[t - 1].Shows(resolution, config.threads[t]));
      }
      Note(n);
    }

    /** function_exit of a thread: returns what is recorded, if anything is. */
    method FunctionExit(tid: nat, discard: bool) returns (recorded: Option<Tuple>)
      requires Valid() && Live(threads, tid) && |threads[tid - 1].stack| > 0
      modifies this`config, threads[tid - 1]
      ensures Valid()
      ensures config == Step(old(config), Return(tid), Width())
      ensures |threads[tid - 1].stack| == |old(threads[tid - 1].stack)| - 1
      ensures recorded.None? <==> discard || (tid in old(config).threads && |old(config).threads[tid].hidden| > 0)
      ensures recorded.Some? ==>
        && tid in old(config).threads && |old(config).threads[tid].entries| > 0
        && var th := old(config).threads[tid]; var h := old(config).history; var p := th.entries[|th.entries| - 1];
          && recorded.value.inputSize == DynamicSize(h, th.who, p) % UINT
          && recorded.value.cumulSyscall == KernelInput(h, th.who, p)
          && recorded.value.cumulThread >= ThreadInput(h, th.who, p)
          && (old(config).exact ==> recorded.value.cumulThread == ThreadInput(h, th.who, p))
      ensures recorded.Some? ==>
        && tid in old(config).threads && |old(config).threads[tid].frames| > 0
        && var frames := old(config).threads[tid].frames; var act := frames[|frames| - 1];
          && recorded.value.cumulSyscall == act.cumulSyscall && recorded.value.cumulThread == act.cumulThread
          && recorded.value.selfSyscall == act.selfSyscall && recorded.value.selfThread == act.selfThread
    {
      hide Inv, ThreadData.Shows, ShowsGlobal, ShowsStack, StackWords, Step, DynamicSize, KernelInput, ThreadInput;
      var tdata := threads[tid - 1];
      ghost var th := config.threads[tid];
      tdata.Shown(resolution, th);
      StackParts(tdata.stack, tdata.skipped, tdata.skip, th.frames, th.hidden);
      if tdata.skip > 0 {
        ExitHidden(tid, tdata);
        return None;
      }
      TopRecorded(tdata.stack, config, Width(), tid);
      var act := tdata.stack[|tdata.stack| - 1];
      recorded := if discard then None else 
        Some(Tuple(act.inputSize, act.cumulSyscall, act.cumulThread, act.selfSyscall, act.selfThread));
      ExitProfiled(tid, tdata);
    }

    /** thread_exit: unwinds the stack of a thread and drops its data. */
    method ThreadExit(tid: nat)
      requires Valid() && Live(threads, tid)
      modifies this`config, this`threads, this`currentTid, threads[tid - 1]
      ensures Valid()
      ensures config == Step(Returns(old(config), tid, |old(threads[tid - 1].stack)|, Width()), Finish(tid), Width())
      ensures threads == old(threads)[tid - 1 := null]
    {
      hide Valid, Step;
      InvHolds();
      var tdata := threads[tid - 1];
      ghost var n := |tdata.stack|;
      while |tdata.stack| > 0
        invariant Valid() && Live(threads, tid) && tdata == threads[tid - 1] && threads == old(threads)
        invariant |tdata.stack| <= n && config == Returns(old(config), tid, n - |tdata.stack|, Width())
        decreases |tdata.stack|
      {
        var _ := FunctionExit(tid, false);
      }
      Unregister(tid);
    }

    /** Drops the data of a thread whose stack is empty. */
    method Unregister(tid: nat)
      requires Valid() && Live(threads, tid) && |threads[tid - 1].stack| == 0
      modifies this`config, this`threads, this`currentTid
      ensures Valid()
      ensures config == Step(old(config), Finish(tid), Width())
      ensures threads == old(threads)[tid - 1 := null]
    {
      hide Inv, ThreadData.Shows, ShowsGlobal, ShowsStack, Step;
      ghost var c := config;
      var tdata := threads[tid - 1];
      tdata.Shown(resolution, c.threads[tid]);
      StackParts(tdata.stack, tdata.skipped, tdata.skip, c.threads[tid].frames, c.threads[tid].hidden);
      FinishParts(c, tid, Width());
      threads := threads[tid - 1 := null];
      assert forall t: nat :: Live(threads, t) <==> Live(old(threads), t) && t != tid;
      currentTid := 0;
      ghost var n := Step(c, Finish(tid), Width());
      ShowsGlobalSame(globalShadow.Shadow(), c, n);
      forall t | Live(threads, t) ensures threads[t - 1].Shows(resolution, n.threads[t]) {
        assert old(threads[t - 1].Shows(resolution, config.threads[t]));
      }
      Note(n);
    }

    /** One granule written by the kernel, right after a bump of the counter. */
    method KernelStore(addr: nat)
      requires Valid() && JustBumped(config) && addr < ADDRESSES
      modifies globalShadow, this`config
      ensures Valid() && JustBumped(config)
      ensures config == KernelStored(old(config), addr / resolution, Width())
    {
      hide Inv, ThreadData.Shows, ShowsGlobal, ShowsStack, JustBumped, Stored;
      ghost var c := config;
      KernelStoredKeeps(c, addr / resolution, Width());
      KernelStoredParts(globalShadow.Shadow(), c, addr / resolution, Width());
      if currentTid == 0 {
        CurrentKnown(c, Width());
        return;
      }
      CurrentShows();
      var tdata := threads[currentTid - 1];
      tdata.Shown(resolution, c.threads[currentTid]);
      StackParts(tdata.stack, tdata.skipped, tdata.skip, c.threads[currentTid].frames, c.threads[currentTid].hidden);
      if |tdata.stack| == 0 || tdata.skip > 0 {
        return;
      }
      var _ := globalShadow.Insert(addr, SetSyscall(globalCounter));
      ghost var n := KernelStored(c, addr / resolution, Width());
      forall t | Live(threads, t) ensures threads[t - 1].Shows(resolution, n.threads[t]) {
        assert old(threads[t - 1].Shows(resolution, config.threads[t]));
      }
      Note(n);
    }

    /**
     The kernel's stores to all granules of a buffer: in profiled code the global word of every
     granule that the buffer reaches becomes the counter with the flag, and no other changes.
     */
    method KernelStoreRange(addr: nat, size: nat)
      requires Valid() && JustBumped(config) && addr + size <= ADDRESSES && addr < ADDRESSES
      modifies globalShadow, this`config
      ensures Valid()
      ensures config == AllKernelStored(old(config), GranuleList(addr / resolution, Count(addr, size, resolution)), Width())
      ensures Tracked(old(config)) ==>
        forall g :: Reaches(g, addr, size, resolution) ==> GlobalWord(g) == SetSyscall(globalCounter)
      ensures forall g :: GlobalWord(g) == old(GlobalWord(g)) || (Tracked(old(config)) && Reaches(g, addr, size, resolution))
    {
      hide Inv, JustBumped, Valid, KernelStored, Count, Starts, Reaches, Tracked, GlobalWord, FlaggedCell, SetSyscall;
      InvHolds();
      GlobalWords();
      ghost var g, n := addr / resolution, Count(addr, size, resolution);
      var diff := addr % resolution;
      var a, left: int := addr - diff, size + diff;
      AlignedRange(addr, size, resolution);
      GranuleListStep(g, 0);
      ghost var k := 0;
      while left > 0
        invariant Valid() && JustBumped(config)
        invariant Starts(a, g + k, resolution) && a >= 0 && a + left == addr + size
        invariant k + Remaining(a, left, resolution) == n
        invariant config == AllKernelStored(old(config), GranuleList(g, k), Width())
      {
        CountStep(a, g + k, left, resolution);
        GranuleListStep(g, k);
        KernelStore(a);
        left := left - resolution;
        a := a + resolution;
        k := k + 1;
      }
      GlobalWords();
      StoredWords(old(config), addr, size, resolution, Width());
    }

    // What post_syscall does first: a switch to the calling thread or a bump, a switch being one.
    method BumpForSyscall(tid: nat)
      requires Valid() && 0 < tid <= MAX_THREADS && BumpEnabled(config, Width())
      modifies this, globalShadow
      modifies set t | 0 <= t < |threads| && threads[t] != null :: threads[t]
      modifies set t | 0 <= t < |threads| && threads[t] != null :: threads[t].shadow
      ensures Valid() && JustBumped(config) && currentTid == tid
      ensures config == if tid == old(config).current then Bump(old(config), Width()) else Switched(old(config), tid, Width())
    {
      hide Inv, JustBumped, BumpEnabled, Bump, Switched, Valid;
      InvHolds();
      BumpParts(config, Width());
      if tid != currentTid {
        SwitchedKeeps(config, tid, Width());
        ThreadSwitch(tid);
      } else {
        BumpKeeps(config, Width());
        IncreaseGlobalCounter();
      }
      InvHolds();
    }

    /**
     post_syscall of a call that makes the kernel write `size` bytes at addr: in profiled code every
     granule that the buffer reaches ends up with the flagged counter, is the kernel's from
     then on, and is one kernel write in the history.
     */
    method PostSyscallStore(tid: nat, addr: nat, size: nat)
      requires Valid() && 0 < tid <= MAX_THREADS && addr + size <= ADDRESSES && addr < ADDRESSES
      requires BumpEnabled(config, Width())
      modifies this, globalShadow
      modifies set t | 0 <= t < |threads| && threads[t] != null :: threads[t]
      modifies set t | 0 <= t < |threads| && threads[t] != null :: threads[t].shadow
      ensures Valid() && config.current == tid
      ensures config == Step(old(config), Syscall(tid, GranuleList(addr / resolution, Count(addr, size, resolution))), Width())
      ensures Tracked(config) ==> forall g :: Reaches(g, addr, size, resolution) ==> GlobalWord(g) == SetSyscall(globalCounter)
      ensures forall g :: g in config.io <==> g in old(config).io || (Tracked(config) && Reaches(g, addr, size, resolution))
      ensures config.history == old(config).history +
        (if Tracked(config) then KernelWrites(addr / resolution, Count(addr, size, resolution)) else [])
    {
      hide Inv, JustBumped, BumpEnabled, Bump, Switched, Valid, AllKernelStored, GlobalWord, Reaches, SetSyscall, Count, Tracked;
      InvHolds();
      SwitchKeepsHistory(config, tid, Width());
      BumpForSyscall(tid);
      SyscallStores(config, addr, size, resolution, Width());
      KernelStoreRange(addr, size);
    }

    /** trace_access_drms for an access of the running thread. */
    method TraceAccess(kind: AccessType, addr: nat, size: nat)
      requires Valid() && currentTid != 0 && Live(threads, currentTid)
      requires addr + size <= ADDRESSES && addr < ADDRESSES
      modifies globalShadow, threads[currentTid - 1], threads[currentTid - 1].shadow, this`config
      ensures Valid()
      ensures config == Touches(old(config), addr / resolution, Count(addr, size, resolution),
                                kind != STORE, kind != LOAD, Width())
      ensures currentTid in old(config).threads
      ensures config.history == old(config).history +
        (if |old(threads[currentTid - 1].stack)| > 0 && old(threads[currentTid - 1].skip) == 0
         then AccessList(old(config).threads[currentTid].who, addr / resolution, Count(addr, size, resolution),
                         kind != STORE, kind != LOAD)
         else [])
    {
      hide Inv, Valid, Separate, Step, Tracked, ThreadData.Shows, Count, Starts, Touches, AccessList;
      InvHolds();
      TouchesHistory(config, addr / resolution, Count(addr, size, resolution), kind != STORE, kind != LOAD, Width());
      NothingTouched(config, addr / resolution, kind != STORE, kind != LOAD, Width());
      TrackedTest();
      var tdata := threads[currentTid - 1];
      ghost var g, n := addr / resolution, Count(addr, size, resolution);
      if |tdata.stack| == 0 || tdata.skip > 0 {
        UntrackedTouches(config, g, n, kind != STORE, kind != LOAD, Width());
        return;
      }
      var diff := addr % resolution;
      var a, left: int := addr - diff, size + diff;
      AlignedRange(addr, size, resolution);
      ghost var k := 0;
      while left > 0
        invariant Valid() && Tracked(config)
        invariant Starts(a, g + k, resolution) && a >= 0 && a + left == addr + size
        invariant k + Remaining(a, left, resolution) == n
        invariant config == Touches(old(config), g, k, kind != STORE, kind != LOAD, Width())
      {
        StaysTracked(config, g + k, kind != STORE, kind != LOAD, Width());
        OneMoreTouched(old(config), g, k, kind != STORE, kind != LOAD, Width());
        CountStep(a, g + k, left, resolution);
        TouchGranule(a, kind);
        left := left - resolution;
        a := a + resolution;
        k := k + 1;
      }
    }

    // The test that starts every access of the running thread.
    lemma TrackedTest()
      requires Valid() && currentTid != 0
      ensures Live(threads, currentTid) && currentTid in config.threads && currentTid == config.current
      ensures Tracked(config) <==> |threads[currentTid - 1].stack| > 0 && threads[currentTid - 1].skip == 0
    {
      hide Inv, ShowsGlobal, ShowsStack, ThreadData.Shows;
      CurrentShows();
      var tdata := threads[currentTid - 1];
      tdata.Shown(resolution, config.threads[currentTid]);
      StackParts(tdata.stack, tdata.skipped, tdata.skip, config.threads[currentTid].frames, config.threads[currentTid].hidden);
    }
  }

  // n returns of one thread.
  ghost function Returns(c: Config, tid: nat, n: nat, w: Params): Config
    requires w.Valid()
  {
    if n == 0 then c else Step(Returns(c, tid, n - 1, w), Return(tid), w)
  }

  function GranuleList(g: nat, n: nat): seq<nat> {
    seq(n, k requires 0 <= k < n => g + k)
  }

  lemma GranuleListStep(g: nat, k: nat)
    ensures GranuleList(g, 0) == []
    ensures GranuleList(g, k + 1)[..k] == GranuleList(g, k) && GranuleList(g, k + 1)[k] == g + k
  {
  }

  lemma {:induction false} UntrackedTouches(c: Config, g: nat, n: nat, read: bool, write: bool, w: Params)
    requires w.Valid() && !Tracked(c)
    ensures Touches(c, g, n, read, write, w) == c
  {
    if n > 0 { UntrackedTouches(c, g, n - 1, read, write, w); }
  }

  lemma StaysTracked(c: Config, g: nat, read: bool, write: bool, w: Params)
    requires w.Valid() && Tracked(c)
    ensures Tracked(Step(c, Touch(g, read, write), w)) && Step(c, Touch(g, read, write), w).current == c.current
  {
  }

  // The global word of a granule.
  function FlaggedCell(c: Config, g: nat): nat {
    if g in c.io then SetSyscall(Cell(c.global, g)) else Cell(c.global, g)
  }

  lemma ShownWord(m: Shadow, c: Config, g: nat)
    requires ShowsGlobal(m, c)
    ensures Cell(m, g) == FlaggedCell(c, g)
  {
    GlobalRead(m, g);
  }

  lemma {:induction false} StoredWords(c: Config, addr: nat, size: nat, res: nat, w: Params)
    requires w.Valid() && res > 0
    ensures var d := AllKernelStored(c, GranuleList(addr / res, Count(addr, size, res)), w);
      && d.counter == c.counter
      && forall g :: FlaggedCell(d, g) ==
           (if Tracked(c) && Reaches(g, addr, size, res) then SetSyscall(c.counter) else FlaggedCell(c, g))
  {
    hide Count, Reaches, AllKernelStored, SetSyscall, Cell;
    var gs := GranuleList(addr / res, Count(addr, size, res));
    KernelStoresAll(c, gs, w);
    ListReaches(addr, size, res);
  }

  lemma {:induction false} ListReaches(addr: nat, size: nat, res: nat)
    requires res > 0
    ensures forall g: nat :: g in GranuleList(addr / res, Count(addr, size, res)) <==> Reaches(g, addr, size, res)
  {
    hide Count, Reaches;
    var n := Count(addr, size, res);
    var gs := GranuleList(addr / res, n);
    forall g: nat ensures g in gs <==> Reaches(g, addr, size, res) {
      RangeReaches(addr, size, res, g);
      assert addr / res <= g < addr / res + n ==> gs[g - addr / res] == g;
    }
  }

  lemma SwitchKeepsHistory(c: Config, tid: nat, w: Params)
    ensures Switched(c, tid, w).history == Bump(c, w).history == c.history
    ensures Switched(c, tid, w).io == Bump(c, w).io == c.io
    ensures Switched(c, tid, w).current == tid && Bump(c, w).current == c.current
  {
  }

  // One kernel write of each of n granules from g on.
  function KernelWrites(g: nat, n: nat): seq<Event> {
    seq(n, k requires 0 <= k < n => KernelWrite(g + k))
  }

  // What the stores of a system call add to the flags and to the history.
  lemma {:induction false} SyscallStores(c: Config, addr: nat, size: nat, res: nat, w: Params)
    requires w.Valid() && res > 0
    ensures var n := Count(addr, size, res); var d := AllKernelStored(c, GranuleList(addr / res, n), w);
      && d.current == c.current && d.counter == c.counter && (Tracked(d) <==> Tracked(c))
      && (forall g :: g in d.io <==> g in c.io || (Tracked(c) && Reaches(g, addr, size, res)))
      && d.history == c.history + (if Tracked(c) then KernelWrites(addr / res, n) else [])
  {
    hide Count, Reaches, AllKernelStored;
    var n := Count(addr, size, res);
    var gs := GranuleList(addr / res, n);
    KernelStoresAll(c, gs, w);
    ListReaches(addr, size, res);
    assert seq(|gs|, i requires 0 <= i < |gs| => KernelWrite(gs[i])) == KernelWrites(addr / res, n);
  }

  lemma FinishParts(c: Config, tid: nat, w: Params)
    requires Inv(c, w) && tid in c.threads && |c.threads[tid].frames| == 0 && |c.threads[tid].hidden| == 0
    ensures w.Valid()
    ensures var n := Step(c, Finish(tid), w);
      && Inv(n, w) && n.counter == c.counter && n.current == 0 && n.global == c.global && n.io == c.io
      && n.threads == c.threads - {tid}
  {
    hide Inv;
    CurrentKnown(c, w);
    StepKeeps(c, Finish(tid), w);
  }

  lemma {:induction false} KernelStoredParts(m: Shadow, c: Config, g: nat, w: Params)
    requires Inv(c, w) && ShowsGlobal(m, c) && w.limit <= SYSCALL_BIT
    ensures w.Valid()
    ensures var n := KernelStored(c, g, w);
      && n.counter == c.counter && n.current == c.current && n.threads == c.threads
      && (!Tracked(c) ==> n == c)
      && (Tracked(c) ==> ShowsGlobal(Stored(m, g, SetSyscall(c.counter), w.segment), n))
  {
    hide Inv, Stored, SetSyscall, Timestamps, SyscallCells;
    CurrentKnown(c, w);
    GlobalStored(m, g, c.counter, w.segment, true);
  }

  // A return, field by field.
  lemma ReturnStep(c: Config, w: Params, tid: nat)
    requires w.Valid() && tid in c.threads && |c.threads[tid].entries| == |c.threads[tid].frames|
    ensures var n := Step(c, Return(tid), w); var th := c.threads[tid];
      && n.counter == c.counter && n.current == c.current && n.global == c.global && n.io == c.io
      && n.threads.Keys == c.threads.Keys
      && (forall t :: t in c.threads && t != tid ==> n.threads[t] == c.threads[t])
      && n.threads[tid].shadow == th.shadow
      && (|th.hidden| > 0 ==>
            n.threads[tid].frames == th.frames && n.threads[tid].hidden == th.hidden[..|th.hidden| - 1])
      && (|th.hidden| == 0 && |th.frames| > 0 ==> n.threads[tid].frames == Fold(th.frames) && n.threads[tid].hidden == [])
  {
    hide Fold;
  }

  lemma {:induction false} ReturnParts(c: Config, w: Params, tid: nat)
    requires Inv(c, w) && tid in c.threads
    ensures w.Valid()
    ensures var n := Step(c, Return(tid), w); var th := c.threads[tid];
      && Inv(n, w) && n.counter == c.counter && n.current == c.current && n.global == c.global && n.io == c.io
      && n.threads.Keys == c.threads.Keys
      && (forall t :: t in c.threads && t != tid ==> n.threads[t] == c.threads[t])
      && n.threads[tid].shadow == th.shadow
      && (|th.hidden| > 0 ==>
            n.threads[tid].frames == th.frames && n.threads[tid].hidden == th.hidden[..|th.hidden| - 1])
      && (|th.hidden| == 0 && |th.frames| > 0 ==> n.threads[tid].frames == Fold(th.frames) && n.threads[tid].hidden == [])
  {
    hide Fold, Inv, Step;
    CurrentKnown(c, w);
    EntriesMatch(c, w, tid);
    ReturnStep(c, w, tid);
    StepKeeps(c, Return(tid), w);
  }

  lemma EntriesMatch(c: Config, w: Params, tid: nat)
    requires Inv(c, w) && tid in c.threads
    ensures |c.threads[tid].entries| == |c.threads[tid].frames|
  {
    assert Sound(c.threads[tid], c);
  }

  // The top words are those the specification demands.
  lemma {:induction false} TopRecorded(stack: seq<Activation>, c: Config, w: Params, tid: nat)
    requires Inv(c, w) && tid in c.threads && StackWords(stack, c.threads[tid].frames) && |stack| > 0
    ensures var th := c.threads[tid]; var h := c.history; var top := stack[|stack| - 1];
      && |th.entries| == |stack|
      && var p := th.entries[|th.entries| - 1];
        && top.inputSize == DynamicSize(h, th.who, p) % UINT
        && top.cumulSyscall == KernelInput(h, th.who, p)
        && top.cumulThread >= ThreadInput(h, th.who, p)
        && (c.exact ==> top.cumulThread == ThreadInput(h, th.who, p))
        && var act := th.frames[|stack| - 1];
          && top.cumulSyscall == act.cumulSyscall && top.cumulThread == act.cumulThread
          && top.selfSyscall == act.selfSyscall && top.selfThread == act.selfThread
  {
    hide DynamicSize, KernelInput, ThreadInput, Ordered, Located, Versioned;
    var th := c.threads[tid];
    assert Sound(th, c);
    SuffixTop(Sizes(th.frames));
    SuffixTop(SyscallCounts(th.frames));
    SuffixTop(ThreadCounts(th.frames));
  }

  lemma PopTop(stack: seq<Activation>, skipped: seq<bool>, skip: nat, frames: seq<Activation>)
    requires ShowsStack(stack, skipped, skip, frames, []) && |stack| > 0
    ensures |FoldWords(stack)| == |stack| - 1
    ensures ShowsStack(FoldWords(stack), skipped[..|stack| - 1], skip, Fold(frames), [])
  {
    StackParts(stack, skipped, skip, frames, []);
    FoldFollows(stack, frames);
    TopShows(FoldWords(stack), skipped[..|stack| - 1], Fold(frames));
  }

  lemma SwitchedParts(c: Config, tid: nat, w: Params)
    requires tid != c.current
    ensures var b := Bump(c, w); var d := if tid in b.threads then b else Started(b, tid);
      b.threads.Keys == c.threads.Keys && Switched(c, tid, w) == d.(current := tid)
  {
  }

  lemma BumpHidden(c: Config, w: Params, t: nat)
    requires t in c.threads
    ensures Bump(c, w).threads[t].hidden == c.threads[t].hidden
    ensures Bump(c, w).history == c.history
  {
  }

  lemma PushTop(stack: seq<Activation>, skipped: seq<bool>, skip: nat, frames: seq<Activation>, a: Activation)
    requires ShowsStack(stack, skipped, skip, frames, []) && 0 <= a.inputSize < UINT
    ensures ShowsStack(stack + [a], skipped + [false], skip, frames + [a], [])
  {
    StackParts(stack, skipped, skip, frames, []);
    TopShows(stack + [a], skipped + [false], frames + [a]);
  }

  lemma StackDepthKept(c: Config, w: Params, t: nat)
    requires t in c.threads
    ensures |Bump(c, w).threads[t].frames| == |c.threads[t].frames|
  {
  }

  lemma BumpParts(c: Config, w: Params)
    ensures Bump(c, w).current == c.current && Bump(c, w).threads.Keys == c.threads.Keys
    ensures c.counter + 1 != w.limit ==> Bump(c, w) == c.(counter := c.counter + 1)
  {
  }

  lemma StartedParts(c: Config, tid: nat)
    ensures var n := Started(c, tid);
      n.threads == c.threads[tid := Thread([], [], map[], c.born, [])] && n.counter == c.counter && n.current == c.current
  {
  }

  lemma ShowsGlobalSame(m: Shadow, c: Config, d: Config)
    requires ShowsGlobal(m, c) && c.global == d.global && c.io == d.io
    ensures ShowsGlobal(m, d)
  {
  }

  lemma CurrentKnown(c: Config, w: Params)
    requires Inv(c, w)
    ensures c.current == 0 || c.current in c.threads
    ensures 0 !in c.threads && 0 < c.counter < w.limit && w.Valid()
  {
  }
}
