/**
 The profiler of one thread under the read-memory-size metric, as it updates its call
 stack and shadow memory in place. Input sizes and identifiers are 32-bit words.
 */
module RmsThreads {
  import opened Common
  import opened ActivationStack
  import opened ActivationWords
  import opened ShadowMap
  import opened RmsCompression
  import opened LookupTables
  import opened Granules
  import opened Rms

  lemma {:induction false} UntrackedTouches(c: Config, g: nat, n: nat, read: bool, w: Params)
    requires w.Valid() && !Tracked(c.thread)
    ensures Touches(c, g, n, read, w) == c
  {
    if n > 0 { UntrackedTouches(c, g, n - 1, read, w); }
  }

  lemma StaysTracked(c: Config, a: Access, w: Params)
    requires w.Valid() && Tracked(c.thread)
    ensures Tracked(Next(c, Touch(a), w).thread)
  {
  }

  // --- words ---

  function CountedWords(s: seq<Activation>, prev: nat, read: bool): seq<Activation>
    requires |s| > 0
  {
    if read && prev < s[|s| - 1].id then CreditWords(s, prev) else s
  }

  lemma CountedFollows(s: seq<Activation>, r: seq<Activation>, prev: nat, read: bool)
    requires StackWords(s, r) && |s| > 0
    ensures StackWords(CountedWords(s, prev, read), Counted(r, prev, read))
  {
    assert s[|s| - 1].id == r[|s| - 1].id;
    if read && prev < s[|s| - 1].id { CreditFollows(s, r, prev); }
  }

  lemma RenumberedFollows(s: seq<Activation>, r: seq<Activation>)
    requires StackWords(s, r)
    ensures StackWords(Renumbered(s), Renumbered(r)) && IdsOf(s) == IdsOf(r)
  {
  }

  // The fields of a thread against the specification.
  ghost predicate Shows(stack: seq<Activation>, skipped: seq<bool>, skip: nat, next: nat, mem: Shadow, t: Thread) {
    && ShowsStack(stack, skipped, skip, t.frames, t.hidden)
    && next == t.nextId
    && mem == t.shadow
  }

  lemma HiddenKeeps(c: Config, e: Event, w: Params)
    requires Inv(c, w)
    requires (e.Enter? && (e.skip || |c.thread.hidden| > 0)) || (e == Exit && |c.thread.hidden| > 0)
    ensures Inv(Next(c, e, w), w)
  {
  }

  lemma PushedShows(stack: seq<Activation>, skipped: seq<bool>, next: nat, mem: Shadow, c: Config, w: Params)
    requires Inv(c, w) && Shows(stack, skipped, 0, next, mem, c.thread) && |c.thread.hidden| == 0
    requires w.limit == UINT && |stack| + 3 < UINT
    ensures var s := stack + [NewActivation(next)]; var n := Next(c, Enter(false), w);
      && next + 1 <= UINT && Inv(n, w)
      && (next + 1 < UINT ==> Shows(s, skipped + [false], 0, next + 1, mem, n.thread))
      && (next + 1 == UINT ==> Shows(Renumbered(s), skipped + [false], 0, |s| + 1, Compressed(IdsOf(s), mem), n.thread))
  {
    hide Inv, Compressed, Renumbered;
    StackParts(stack, skipped, 0, c.thread.frames, c.thread.hidden);
    InvNextId(c, w);
    EnterKeeps(c, w);
    var s, r := stack + [NewActivation(next)], c.thread.frames + [NewActivation(next)];
    assert StackWords(s, r);
    RenumberedFollows(s, r);
    var n := Next(c, Enter(false), w).thread;
    if next + 1 < UINT {
      TopShows(s, skipped + [false], n.frames);
    } else {
      TopShows(Renumbered(s), skipped + [false], n.frames);
    }
  }

  lemma InvNextId(c: Config, w: Params)
    requires Inv(c, w)
    ensures w.Valid() && c.thread.nextId + 1 <= w.limit && |c.entries| == |c.thread.frames|
  {
  }

  lemma PoppedShows(stack: seq<Activation>, skipped: seq<bool>, next: nat, mem: Shadow, c: Config, w: Params)
    requires Inv(c, w) && Shows(stack, skipped, 0, next, mem, c.thread)
    requires |c.thread.hidden| == 0 && |stack| > 0
    ensures var n := Next(c, Exit, w);
      && Inv(n, w)
      && Shows(FoldWords(stack), skipped[..|stack| - 1], 0, next, mem, n.thread)
      && |c.entries| == |stack|
      && stack[|stack| - 1].inputSize == ReadMemorySize(c.history, c.entries[|stack| - 1]) % UINT
  {
    hide Ordered, Located, ReadMemorySize, Fold, FoldWords;
    InvNextId(c, w);
    StackParts(stack, skipped, 0, c.thread.frames, c.thread.hidden);
    ExitKeeps(c, w);
    SuffixTop(Sizes(c.thread.frames));
    FoldFollows(stack, c.thread.frames);
    TopShows(FoldWords(stack), skipped[..|stack| - 1], Next(c, Exit, w).thread.frames);
  }

  lemma {:induction false} TouchedShows(stack: seq<Activation>, skipped: seq<bool>, next: nat, mem: Shadow, c: Config, a: Access, w: Params)
    requires Inv(c, w) && Shows(stack, skipped, 0, next, mem, c.thread) && Tracked(c.thread)
    ensures w.Valid() && |stack| > 0
    ensures var n := Next(c, Touch(a), w);
      && Inv(n, w)
      && Shows(CountedWords(stack, Cell(mem, a.granule), a.read), skipped, 0, next,
               Stored(mem, a.granule, stack[|stack| - 1].id, w.segment), n.thread)
  {
    hide Inv, Counted, CountedWords, Stored, Cell;
    InvNextId(c, w);
    StackParts(stack, skipped, 0, c.thread.frames, c.thread.hidden);
    TouchLocates(c, a, w);
    TouchCounts(c, a, w);
    InvFromParts(Next(c, Touch(a), w), w);
    CountedFollows(stack, c.thread.frames, Cell(mem, a.granule), a.read);
    TopShows(CountedWords(stack, Cell(mem, a.granule), a.read), skipped, Next(c, Touch(a), w).thread.frames);
  }

  lemma InvFromParts(c: Config, w: Params)
    requires Ordered(c, w) && Located(c) && Exact(c)
    ensures Inv(c, w)
  {
  }

  class RmsThread {
    const shadow: LookupTable
    var stack: seq<Activation>
    // routine_info->fn->skip of every stacked activation
    var skipped: seq<bool>
    var skip: nat
    var nextActivationId: nat
    ghost var config: Config

    ghost function Width(): Params
      requires Resolution(shadow.resolution)
      reads this
    {
      Params(UINT, SegmentSize(shadow.resolution))
    }

    ghost predicate Valid()
      reads this, shadow
    {
      && shadow.Valid()
      && Inv(config, Width())
      && |stack| < MAX_DEPTH
      && Shows(stack, skipped, skip, nextActivationId, shadow.Shadow(), config.thread)
    }

    constructor (resolution: nat)
      requires Resolution(resolution)
      ensures Valid() && fresh(shadow) && shadow.resolution == resolution
      ensures config == Config(Initial(), [], [])
    {
      shadow := new LookupTable(resolution);
      stack, skipped, skip, nextActivationId := [], [], 0, 1;
      config := Config(Initial(), [], []);
    }

    /** overflow_handler_rms: renumbers the stack and the shadow memory; returns the next identifier. */
    method OverflowHandler() returns (next: nat)
      requires shadow.Valid()
      modifies this`stack, shadow
      ensures shadow.Valid()
      ensures stack == Renumbered(old(stack))
      ensures shadow.Shadow() == Compressed(IdsOf(old(stack)), old(shadow.Shadow()))
      ensures next == |stack| + 1
    {
      var ids: seq<nat> := [];
      var j := 0;
      while j < |stack|
        modifies this`stack
        invariant 0 <= j <= |stack| == |old(stack)| && |ids| == j
        invariant forall x :: 0 <= x < j ==> ids[x] == old(stack)[x].id
        invariant forall x :: 0 <= x < |stack| ==> stack[x] == if x < j then old(stack)[x].(id := x + 1) else old(stack)[x]
      {
        ids := ids + [stack[j].id];
        stack := stack[j := stack[j].(id := j + 1)];
        j := j + 1;
      }
      assert ids == IdsOf(old(stack));
      shadow.CompressRms(ids);
      return |stack| + 1;
    }

    /** function_enter: `stale` is what the reused stack slot held before. */
    method FunctionEnter(skipFn: bool, stale: Activation)
      requires Valid() && |stack| + 1 < MAX_DEPTH
      modifies this, shadow
      ensures Valid()
      ensures config == Next(old(config), Enter(skipFn), Width())
    {
      hide Inv, ShowsStack, Compressed, Renumbered, StackWords, IdsOf;
      StackParts(stack, skipped, skip, config.thread.frames, config.thread.hidden);
      ghost var t := config.thread;
      var slot := stale;
      if skipFn || skip > 0 {
        PushHidden(stack, skipped, skip, t.frames, t.hidden, slot, skipFn);
        HiddenKeeps(config, Enter(skipFn), Width());
        skip := if skipFn then skip + 1 else skip;
        stack, skipped := stack + [slot], skipped + [skipFn];
        config := Next(config, Enter(skipFn), Width());
        return;
      }
      PushedShows(stack, skipped, nextActivationId, shadow.Shadow(), config, Width());
      slot := NewActivation(nextActivationId);
      stack, skipped := stack + [slot], skipped + [false];
      nextActivationId := (nextActivationId + 1) % UINT;
      if nextActivationId == 0 {
        nextActivationId := OverflowHandler();
      }
      config := Next(config, Enter(false), Width());
    }
  
    /** function_exit: returns the input size that is recorded, if one is. */
    method FunctionExit(discard: bool) returns (recorded: Option<nat>)
      requires Valid() && |stack| > 0
      modifies this
      ensures Valid()
      ensures config == Next(old(config), Exit, Width())
      ensures recorded.None? <==> discard || |old(config).thread.hidden| > 0
      ensures recorded.Some? ==>
        && |old(config).entries| > 0
        && recorded.value ==
             ReadMemorySize(old(config).history, old(config).entries[|old(config).entries| - 1]) % UINT
    {
      hide Inv, ShowsStack, ReadMemorySize;
      StackParts(stack, skipped, skip, config.thread.frames, config.thread.hidden);
      var top := |stack| - 1;
      if skip > 0 {
        PopHidden(stack, skipped, skip, config.thread.frames, config.thread.hidden);
        HiddenKeeps(config, Exit, Width());
        if skipped[top] {
          skip := skip - 1;
        }
        stack, skipped := stack[..top], skipped[..top];
        config := Next(config, Exit, Width());
        return None;
      }
      PoppedShows(stack, skipped, nextActivationId, shadow.Shadow(), config, Width());
      recorded := if discard then None else Some(stack[top].inputSize);
      if |stack| > 1 {
        var parent, child := stack[top - 1], stack[top];
        stack := stack[top - 1 := parent.(
          inputSize := (parent.inputSize + child.inputSize) % UINT,
          cumulSyscall := parent.cumulSyscall + child.cumulSyscall,
          cumulThread := parent.cumulThread + child.cumulThread)];
      }
      stack, skipped := stack[..top], skipped[..top];
      assert stack == FoldWords(old(stack));
      config := Next(config, Exit, Width());
    }

    /** One iteration of the loop of trace_access_rms. */
    method TouchGranule(addr: nat, read: bool)
      requires Valid() && Tracked(config.thread) && addr < ADDRESSES
      modifies this, shadow
      ensures Valid()
      ensures config == Next(old(config), Touch(Access(addr / shadow.resolution, read)), Width())
    {
      hide Inv, ShowsStack, Stored, Cell;
      ghost var a := Access(addr / shadow.resolution, read);
      StackParts(stack, skipped, skip, config.thread.frames, config.thread.hidden);
      TouchedShows(stack, skipped, nextActivationId, shadow.Shadow(), config, a, Width());
      var top := |stack| - 1;
      var act := stack[top];
      var oldAid := shadow.Insert(addr, act.id);
      if read && oldAid < act.id {
        stack := BumpWord(stack, top, 1);
        if oldAid >= stack[0].id {
          var k := GetActivationByAid(stack, oldAid);
          stack := BumpWord(stack, k, -1);
        }
      }
      assert stack == CountedWords(old(stack), oldAid, read);
      config := Next(config, Touch(a), Width());
    }

    /** trace_access_rms */
    method TraceAccess(kind: AccessType, addr: nat, size: nat)
      requires Valid() && addr + size <= ADDRESSES && addr < ADDRESSES
      modifies this, shadow
      ensures Valid()
      ensures config == Touches(old(config), addr / shadow.resolution, Count(addr, size, shadow.resolution),
                                kind != STORE, Width())
      ensures config.history == old(config).history +
        (if |old(stack)| > 0 && old(skip) == 0
         then AccessList(addr / shadow.resolution, Count(addr, size, shadow.resolution), kind != STORE) else [])
    {
      hide Inv, ShowsStack, Step, Next, Count, Starts, Touches, AccessList;
      TouchesHistory(config, addr / shadow.resolution, Count(addr, size, shadow.resolution), kind != STORE, Width());
      NothingTouched(config, addr / shadow.resolution, kind != STORE, Width());
      var res := shadow.resolution;
      StackParts(stack, skipped, skip, config.thread.frames, config.thread.hidden);
      ghost var g, n := addr / res, Count(addr, size, res);
      if |stack| == 0 || skip > 0 {
        UntrackedTouches(config, g, n, kind != STORE, Width());
        return;
      }
      var diff := addr % res;
      var a, left: int := addr - diff, size + diff;
      AlignedRange(addr, size, res);
      ghost var k := 0;
      while left > 0
        invariant Valid() && Tracked(config.thread)
        invariant Starts(a, g + k, res) && a >= 0 && a + left == addr + size
        invariant k + Remaining(a, left, res) == n
        invariant config == Touches(old(config), g, k, kind != STORE, Width())
      {
        StaysTracked(config, Access(g + k, kind != STORE), Width());
        OneMoreTouched(old(config), g, k, kind != STORE, Width());
        CountStep(a, g + k, left, res);
        TouchGranule(a, kind != STORE);
        left := left - res;
        a := a + res;
        k := k + 1;
      }
    }
  }
}
