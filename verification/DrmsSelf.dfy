module DrmsSelf {
  // The self counts of an activation: the input from the kernel and from other threads that it
  // read while it was itself the running activation of its thread, its callees left out.

  import opened ActivationStack
  import opened ShadowMap
  import opened DrmsHistory
  import opened DrmsCompression
  import opened Drms
  import opened DrmsExact
  import opened DrmsStrays

  // The depth of the stack at every position of the history, for the thread that made the
  // access; 0 for a write of the kernel.
  function Depths(run: seq<Action>, w: Params): seq<nat>
    requires w.Valid()
  {
    if |run| == 0 then []
    else
      var r, a := run[..|run| - 1], run[|run| - 1];
      DepthsAfter(Run(r, w), a, w, Depths(r, w))
  }

  function DepthsAfter(c: Config, a: Action, w: Params, depths: seq<nat>): seq<nat>
    requires w.Valid()
  {
    if a.Touch? && Tracked(c) then depths + [|c.threads[c.current].frames|]
    else depths + Zeros(Step(c, a, w).history, c.history)
  }

  function Zeros(after: seq<Event>, before: seq<Event>): seq<nat> {
    seq(if |after| < |before| then 0 else |after| - |before|, _ => 0)
  }

  // The charged reads since position p at depth d.
  ghost function KernelReadsAt(h: seq<Event>, depths: seq<nat>, who: nat, p: nat, d: nat): set<nat>
    requires |depths| == |h|
  {
    set k: nat | p <= k < |h| && depths[k] == d && FromKernel(h[..k], h[k], who)
  }

  ghost function ThreadReadsAt(h: seq<Event>, depths: seq<nat>, outs: set<nat>, who: nat, p: nat, d: nat, seg: nat): set<nat>
    requires |depths| == |h| && seg > 0
  {
    set k: nat | p <= k < |h| && depths[k] == d && (FromThread(h[..k], h[k], who) || Stray(h[..k], h[k], outs, who, seg))
  }

  // --- the invariant, beside those of the sizes and of the charged input ---

  ghost predicate SelfExact(th: Thread, h: seq<Event>, depths: seq<nat>, outs: set<nat>, seg: nat)
    requires |depths| == |h| && seg > 0
  {
    && |th.entries| == |th.frames|
    && forall i :: 0 <= i < |th.frames| ==>
      && th.frames[i].selfSyscall == |KernelReadsAt(h, depths, th.who, th.entries[i], i + 1)|
      && th.frames[i].selfThread == |ThreadReadsAt(h, depths, outs, th.who, th.entries[i], i + 1, seg)|
      && th.frames[i].selfSyscall <= th.frames[i].cumulSyscall
      && th.frames[i].selfThread <= th.frames[i].cumulThread
  }

  ghost predicate SelfInv(c: Config, depths: seq<nat>, outs: set<nat>, seg: nat)
    requires seg > 0
  {
    |depths| == |c.history| && forall t :: t in c.threads ==> SelfExact(c.threads[t], c.history, depths, outs, seg)
  }

  lemma Extended(h: seq<Event>, e: Event, k: nat)
    requires k <= |h|
    ensures (h + [e])[..k] == h[..k] && (h + [e])[k] == if k < |h| then h[k] else e
    ensures h[..|h|] == h
  {
  }

  lemma {:induction false} KernelAtStep(h: seq<Event>, e: Event, depths: seq<nat>, x: nat, who: nat, p: nat, d: nat)
    requires |depths| == |h| && p <= |h|
    ensures |KernelReadsAt(h + [e], depths + [x], who, p, d)|
         == |KernelReadsAt(h, depths, who, p, d)| + (if x == d && FromKernel(h, e, who) then 1 else 0)
  {
    hide FromKernel;
    var n, ds, a := h + [e], depths + [x], x == d && FromKernel(h, e, who);
    forall k: nat
      ensures k in KernelReadsAt(n, ds, who, p, d) <==> k in KernelReadsAt(h, depths, who, p, d) || (a && k == |h|)
    {
      if k <= |h| { Extended(h, e, k); }
    }
    assert KernelReadsAt(n, ds, who, p, d) == KernelReadsAt(h, depths, who, p, d) + (if a then {|h|} else {});
    AddIf(KernelReadsAt(h, depths, who, p, d), |h|, a);
  }

  lemma {:induction false} ThreadAtStep(h: seq<Event>, e: Event, depths: seq<nat>, x: nat, outs: set<nat>, who: nat, p: nat, d: nat, seg: nat)
    requires |depths| == |h| && seg > 0 && p <= |h|
    ensures |ThreadReadsAt(h + [e], depths + [x], outs, who, p, d, seg)|
         == |ThreadReadsAt(h, depths, outs, who, p, d, seg)|
            + (if x == d && (FromThread(h, e, who) || Stray(h, e, outs, who, seg)) then 1 else 0)
  {
    hide FromThread, Stray;
    var n, ds := h + [e], depths + [x];
    var b := x == d && (FromThread(h, e, who) || Stray(h, e, outs, who, seg));
    forall k: nat
      ensures k in ThreadReadsAt(n, ds, outs, who, p, d, seg) <==>
        k in ThreadReadsAt(h, depths, outs, who, p, d, seg) || (b && k == |h|)
    {
      if k <= |h| { Extended(h, e, k); }
    }
    assert ThreadReadsAt(n, ds, outs, who, p, d, seg)
        == ThreadReadsAt(h, depths, outs, who, p, d, seg) + (if b then {|h|} else {});
    AddIf(ThreadReadsAt(h, depths, outs, who, p, d, seg), |h|, b);
  }

  lemma {:induction false} AtStep(h: seq<Event>, e: Event, depths: seq<nat>, x: nat, outs: set<nat>, who: nat, p: nat, d: nat, seg: nat)
    requires |depths| == |h| && seg > 0 && p <= |h|
    ensures |KernelReadsAt(h + [e], depths + [x], who, p, d)|
         == |KernelReadsAt(h, depths, who, p, d)| + (if x == d && FromKernel(h, e, who) then 1 else 0)
    ensures |ThreadReadsAt(h + [e], depths + [x], outs, who, p, d, seg)|
         == |ThreadReadsAt(h, depths, outs, who, p, d, seg)|
            + (if x == d && (FromThread(h, e, who) || Stray(h, e, outs, who, seg)) then 1 else 0)
  {
    hide FromKernel, FromThread, Stray, KernelReadsAt, ThreadReadsAt;
    KernelAtStep(h, e, depths, x, who, p, d);
    ThreadAtStep(h, e, depths, x, outs, who, p, d, seg);
  }

  // An event of somebody else.
  lemma {:induction false} BystanderSelf(th: Thread, h: seq<Event>, depths: seq<nat>, outs: set<nat>, e: Event, x: nat, seg: nat)
    requires seg > 0 && |depths| == |h| && SelfExact(th, h, depths, outs, seg) && !(e.Access? && e.who == th.who)
    requires forall i :: 0 <= i < |th.entries| ==> th.entries[i] <= |h|
    ensures SelfExact(th, h + [e], depths + [x], outs, seg)
  {
    hide KernelReadsAt, ThreadReadsAt;
    forall i | 0 <= i < |th.frames| {
      AtStep(h, e, depths, x, outs, th.who, th.entries[i], i + 1, seg);
    }
  }

  // What an access changes in the self counts and the partial counts.
  lemma CountedSelf(s: seq<Activation>, prev: nat, written: nat, kernel: bool, i: nat)
    requires i < |s|
    ensures var r := Counted(s, prev, written, kernel); var hit := i == |s| - 1 && prev < written;
      && r[i].selfSyscall == s[i].selfSyscall + (if hit && kernel then 1 else 0)
      && r[i].selfThread == s[i].selfThread + (if hit && !kernel then 1 else 0)
      && r[i].cumulSyscall == s[i].cumulSyscall + (if hit && kernel then 1 else 0)
      && r[i].cumulThread == s[i].cumulThread + (if hit && !kernel then 1 else 0)
  {
    if prev >= written && prev < s[|s| - 1].id {
      CreditShape(s, prev);
    }
  }

  lemma {:induction false} OwnSelf(th: Thread, counter: nat, global: Shadow, io: set<nat>, h: seq<Event>, depths: seq<nat>, outs: set<nat>, e: Event, seg: nat)
    requires seg > 0 && |th.frames| > 0 && |depths| == |h|
    requires Tight(th, global, h, outs, seg) && SelfExact(th, h, depths, outs, seg)
    requires forall i :: 0 <= i < |th.entries| ==> th.entries[i] <= |h|
    requires e.Access? && e.who == th.who
    requires forall g :: g in io <==> KernelLast(h, g)
    ensures SelfExact(Accessing(th, counter, global, io, e, seg), h + [e], depths + [|th.frames|], outs, seg)
  {
    hide KernelReadsAt, ThreadReadsAt, Stale, Renewed, KernelLast, Counted;
    var g := e.granule;
    if Stale(h, outs, th.who, g, seg) { NeverBoth(h, outs, th.who, g, seg); }
    forall i | 0 <= i < |th.frames|
      ensures var r := Updated(th, e, global, io)[i]; var n, ds := h + [e], depths + [|th.frames|];
        && r.selfSyscall == |KernelReadsAt(n, ds, th.who, th.entries[i], i + 1)|
        && r.selfThread == |ThreadReadsAt(n, ds, outs, th.who, th.entries[i], i + 1, seg)|
        && r.selfSyscall <= r.cumulSyscall && r.selfThread <= r.cumulThread
    {
      AtStep(h, e, depths, |th.frames|, outs, th.who, th.entries[i], i + 1, seg);
      if e.read { CountedSelf(th.frames, Cell(th.shadow, g), Cell(global, g), g in io, i); }
    }
  }

  // --- steps ---

  lemma {:induction false} OutsLaterAt(h: seq<Event>, depths: seq<nat>, outs: set<nat>, who: nat, p: nat, d: nat, seg: nat)
    requires seg > 0 && |depths| == |h|
    ensures ThreadReadsAt(h, depths, outs + {|h|}, who, p, d, seg) == ThreadReadsAt(h, depths, outs, who, p, d, seg)
  {
    hide Stray, FromThread;
    forall k: nat | k < |h| {
      StrayLater(h, outs, who, k, seg);
    }
  }

  // A bump keeps all of a thread but its identifiers and timestamps.
  lemma {:induction false} BumpSelf(c: Config, w: Params, depths: seq<nat>, outs: set<nat>)
    requires w.Valid() && SelfInv(c, depths, outs, w.segment)
    ensures SelfInv(Bump(c, w), depths, OutsAfterBump(c, w, outs), w.segment)
  {
    hide KernelReadsAt, ThreadReadsAt, CompressedGlobal, CompressedLocal;
    var d := Bump(c, w);
    forall t | t in d.threads ensures SelfExact(d.threads[t], d.history, depths, OutsAfterBump(c, w, outs), w.segment) {
      var th := c.threads[t];
      assert SelfExact(th, c.history, depths, outs, w.segment);
      if c.counter + 1 == w.limit {
        forall i | 0 <= i < |th.frames| {
          OutsLaterAt(c.history, depths, outs, th.who, th.entries[i], i + 1, w.segment);
        }
      }
    }
  }

  lemma ReplaceSelf(c: Config, t: nat, th: Thread, depths: seq<nat>, outs: set<nat>, seg: nat)
    requires seg > 0 && SelfInv(c, depths, outs, seg) && SelfExact(th, c.history, depths, outs, seg)
    ensures SelfInv(c.(threads := c.threads[t := th]), depths, outs, seg)
  {
    hide SelfExact;
  }

  lemma {:induction false} StartedSelf(c: Config, tid: nat, depths: seq<nat>, outs: set<nat>, seg: nat)
    requires seg > 0 && SelfInv(c, depths, outs, seg)
    ensures SelfInv(Started(c, tid), depths, outs, seg)
  {
    ReplaceSelf(c, tid, Thread([], [], map[], c.born, []), depths, outs, seg);
  }

  lemma {:induction false} SwitchedSelf(c: Config, tid: nat, w: Params, depths: seq<nat>, outs: set<nat>)
    requires w.Valid() && SelfInv(c, depths, outs, w.segment)
    ensures SelfInv(Switched(c, tid, w), depths, if tid != c.current then OutsAfterBump(c, w, outs) else outs, w.segment)
  {
    hide SelfExact, Started, Bump;
    if tid != c.current {
      BumpSelf(c, w, depths, outs);
      SwitchedIsBump(c, tid, w);
      var b := Bump(c, w);
      if tid !in b.threads { StartedSelf(b, tid, depths, OutsAfterBump(c, w, outs), w.segment); }
    }
  }

  lemma {:induction false} PushedSelf(th: Thread, id: nat, h: seq<Event>, depths: seq<nat>, outs: set<nat>, seg: nat)
    requires seg > 0 && |depths| == |h| && SelfExact(th, h, depths, outs, seg)
    ensures SelfExact(th.(frames := th.frames + [NewActivation(id)], entries := th.entries + [|h|]), h, depths, outs, seg)
  {
    var d := |th.frames| + 1;
    assert KernelReadsAt(h, depths, th.who, |h|, d) == {} == ThreadReadsAt(h, depths, outs, th.who, |h|, d, seg);
    hide KernelReadsAt, ThreadReadsAt;
  }

  lemma {:induction false} EnteredSelf(c: Config, skip: bool, w: Params, depths: seq<nat>, outs: set<nat>)
    requires w.Valid() && c.current in c.threads && SelfInv(c, depths, outs, w.segment)
    ensures SelfInv(Entered(c, skip, w), depths, if Bumps(c, Enter(skip)) then OutsAfterBump(c, w, outs) else outs, w.segment)
  {
    hide SelfExact, Bump;
    var th := c.threads[c.current];
    assert SelfExact(th, c.history, depths, outs, w.segment);
    if skip || |th.hidden| > 0 {
      HiddenSelf(th, th.hidden + [skip], c.history, depths, outs, w.segment);
      ReplaceSelf(c, c.current, th.(hidden := th.hidden + [skip]), depths, outs, w.segment);
    } else {
      BumpSelf(c, w, depths, outs);
      BumpKeys(c, w);
      var d, now := Bump(c, w), OutsAfterBump(c, w, outs);
      var th := d.threads[c.current];
      PushedSelf(th, d.counter, d.history, depths, now, w.segment);
      ReplaceSelf(d, c.current, th.(
        frames := th.frames + [NewActivation(d.counter)], entries := th.entries + [|d.history|]), depths, now, w.segment);
    }
  }

  lemma HiddenSelf(th: Thread, hidden: seq<bool>, h: seq<Event>, depths: seq<nat>, outs: set<nat>, seg: nat)
    requires seg > 0 && |depths| == |h| && SelfExact(th, h, depths, outs, seg)
    ensures SelfExact(th.(hidden := hidden), h, depths, outs, seg)
  {
  }

  lemma {:induction false} ReturnedSelf(c: Config, tid: nat, depths: seq<nat>, outs: set<nat>, seg: nat)
    requires seg > 0 && tid in c.threads && SelfInv(c, depths, outs, seg)
    ensures SelfInv(Returned(c, tid), depths, outs, seg)
  {
    hide KernelReadsAt, ThreadReadsAt;
    var th := c.threads[tid];
    assert SelfExact(th, c.history, depths, outs, seg);
    if |th.hidden| > 0 {
      ReplaceSelf(c, tid, th.(hidden := th.hidden[..|th.hidden| - 1]), depths, outs, seg);
    } else if |th.frames| > 0 && |th.entries| > 0 {
      ReplaceSelf(c, tid, th.(frames := Fold(th.frames), entries := th.entries[..|th.entries| - 1]), depths, outs, seg);
    }
  }

  lemma {:induction false} TouchedSelf(c: Config, g: nat, read: bool, write: bool, w: Params, depths: seq<nat>, outs: set<nat>)
    requires Inv(c, w) && Tracked(c) && StrayInv(c, outs, w.segment) && SelfInv(c, depths, outs, w.segment)
    ensures SelfInv(Touched(c, g, read, write, w), depths + [|c.threads[c.current].frames|], outs, w.segment)
  {
    hide GlobalTight, Tight, Charged, Versioned, SizesExact, StatsExact, Counted, Stored, KernelLast, DistinctIds, SelfExact;
    var th := c.threads[c.current];
    var e := Access(th.who, g, read, write);
    var d := Touched(c, g, read, write, w);
    var n := depths + [|th.frames|];
    assert Sound(th, c) && Exact(th, c, outs, w.segment) && SelfExact(th, c.history, depths, outs, w.segment);
    OwnSelf(th, c.counter, c.global, c.io, c.history, depths, outs, e, w.segment);
    forall t | t in d.threads ensures SelfExact(d.threads[t], d.history, n, outs, w.segment) {
      assert Sound(c.threads[t], c) && SelfExact(c.threads[t], c.history, depths, outs, w.segment);
      if t != c.current {
        BystanderSelf(c.threads[t], c.history, depths, outs, e, |th.frames|, w.segment);
      }
    }
  }

  lemma {:induction false} KernelStoredSelf(c: Config, g: nat, w: Params, depths: seq<nat>, outs: set<nat>)
    requires Inv(c, w) && SelfInv(c, depths, outs, w.segment)
    ensures var d := KernelStored(c, g, w); SelfInv(d, depths + Zeros(d.history, c.history), outs, w.segment)
  {
    hide GlobalInv, Versioned, SizesExact, StatsExact, Stored, DistinctIds, NamesInv, SelfExact;
    var d := KernelStored(c, g, w);
    if Tracked(c) {
      assert Zeros(d.history, c.history) == [0];
      forall t | t in d.threads ensures SelfExact(d.threads[t], d.history, depths + [0], outs, w.segment) {
        assert Sound(c.threads[t], c) && SelfExact(c.threads[t], c.history, depths, outs, w.segment);
        BystanderSelf(c.threads[t], c.history, depths, outs, KernelWrite(g), 0, w.segment);
      }
    } else {
      assert depths + Zeros(d.history, c.history) == depths;
    }
  }

  lemma {:induction false} AllKernelStoredSelf(c: Config, gs: seq<nat>, w: Params, depths: seq<nat>, outs: set<nat>)
    requires Inv(c, w) && JustBumped(c) && SelfInv(c, depths, outs, w.segment)
    ensures var d := AllKernelStored(c, gs, w);
      |d.history| >= |c.history| && SelfInv(d, depths + Zeros(d.history, c.history), outs, w.segment)
  {
    hide Inv, JustBumped, SelfInv, KernelStored, NamesInv, Zeros;
    NamesHold(c, w);
    if |gs| == 0 {
      ZerosAdd(depths, c.history, c.history, c.history);
    } else {
      var r := gs[..|gs| - 1];
      var b, d := AllKernelStored(c, r, w), AllKernelStored(c, gs, w);
      AllKernelStoredKeeps(c, r, w);
      AllKernelStoredSelf(c, r, w, depths, outs);
      KernelStoredSelf(b, gs[|gs| - 1], w, depths + Zeros(b.history, c.history), outs);
      StoredGrows(b, gs[|gs| - 1], w);
      ZerosAdd(depths, d.history, b.history, c.history);
    }
  }

  lemma ZerosAdd(depths: seq<nat>, d: seq<Event>, b: seq<Event>, c: seq<Event>)
    requires |d| >= |b| >= |c|
    ensures depths + Zeros(b, c) + Zeros(d, b) == depths + Zeros(d, c)
    ensures |b| == |c| ==> depths + Zeros(b, c) == depths
  {
  }

  lemma StoredGrows(c: Config, g: nat, w: Params)
    requires w.Valid()
    ensures |KernelStored(c, g, w).history| >= |c.history|
  {
  }

  lemma {:induction false} SyscallSelf(c: Config, tid: nat, gs: seq<nat>, w: Params, depths: seq<nat>, outs: set<nat>)
    requires w.Valid() && SelfInv(c, depths, outs, w.segment) && Inv(c, w) && Enabled(c, Syscall(tid, gs), w)
    ensures SelfInv(Step(c, Syscall(tid, gs), w), depths + Zeros(Step(c, Syscall(tid, gs), w).history, c.history),
                    OutsAfterBump(c, w, outs), w.segment)
  {
    hide Inv, NamesInv, JustBumped, BumpEnabled, SelfInv, Bump, Switched, AllKernelStored;
    var b := if tid == c.current then Bump(c, w) else Switched(c, tid, w);
    HistoryKept(c, tid, w);
    if tid == c.current {
      BumpKeeps(c, w);
      BumpSelf(c, w, depths, outs);
    } else {
      SwitchedKeeps(c, tid, w);
      SwitchedSelf(c, tid, w, depths, outs);
    }
    AllKernelStoredSelf(b, gs, w, depths, OutsAfterBump(c, w, outs));
  }

  lemma HistoryKept(c: Config, tid: nat, w: Params)
    ensures Bump(c, w).history == c.history && Switched(c, tid, w).history == c.history
  {
  }

  // --- every run ---

  lemma {:induction false} StepSelf(c: Config, a: Action, w: Params, depths: seq<nat>, outs: set<nat>)
    requires w.Valid() && StrayInv(c, outs, w.segment) && SelfInv(c, depths, outs, w.segment)
    requires Inv(c, w) && Enabled(c, a, w)
    ensures SelfInv(Step(c, a, w), DepthsAfter(c, a, w, depths), OutsAfter(c, a, w, outs), w.segment)
  {
    hide Inv, SelfExact, StrayInv, Touched, Bump, Switched, Entered, Returned, AllKernelStored, BumpEnabled;
    assert depths + Zeros(c.history, c.history) == depths;
    match a
    case Switch(tid) =>
      HistoryKept(c, tid, w);
      SwitchedSelf(c, tid, w, depths, outs);
    case Idle =>
    case Create(tid) => StartedSelf(c, tid, depths, outs, w.segment);
    case Finish(tid) =>
    case Enter(skip) =>
      EnteredHistory(c, skip, w);
      EnteredSelf(c, skip, w, depths, outs);
    case Return(tid) =>
      ReturnedHistory(c, tid);
      ReturnedSelf(c, tid, depths, outs, w.segment);
    case Touch(g, read, write) => if Tracked(c) { TouchedSelf(c, g, read, write, w, depths, outs); }
    case Syscall(tid, gs) => SyscallSelf(c, tid, gs, w, depths, outs);
  }

  lemma EnteredHistory(c: Config, skip: bool, w: Params)
    requires c.current in c.threads
    ensures Entered(c, skip, w).history == c.history
  {
  }

  lemma ReturnedHistory(c: Config, tid: nat)
    requires tid in c.threads
    ensures Returned(c, tid).history == c.history
  {
  }

  lemma {:induction false} RunSelf(run: seq<Action>, w: Params)
    requires w.Valid() && Legal(run, w)
    ensures SelfInv(Run(run, w), Depths(run, w), Outs(run, w), w.segment)
  {
    hide Step, Enabled, Inv, StrayInv, OutsAfter, DepthsAfter;
    if |run| == 0 {
    } else {
      hide SelfInv;
      var r := run[..|run| - 1];
      RunKeeps(r, w);
      RunStrays(r, w);
      RunSelf(r, w);
      StepSelf(Run(r, w), run[|run| - 1], w, Depths(r, w), Outs(r, w));
    }
  }

  // For every thread and every activation, in every interleaving: its self counts are the charged
  // reads made since it was entered at its own depth, which are reads of its own, and no more
  // than its partial counts.
  lemma {:induction false} SelfCountsAreExact(run: seq<Action>, w: Params, t: nat, i: nat)
    requires w.Valid() && Legal(run, w)
    requires t in Run(run, w).threads && i < |Run(run, w).threads[t].frames|
    ensures var c := Run(run, w); var th := c.threads[t]; var act := th.frames[i]; var depths := Depths(run, w);
      && |th.entries| == |th.frames| && |depths| == |c.history|
      && act.selfSyscall == |KernelReadsAt(c.history, depths, th.who, th.entries[i], i + 1)|
      && act.selfThread == |ThreadReadsAt(c.history, depths, Outs(run, w), th.who, th.entries[i], i + 1, w.segment)|
      && act.selfSyscall <= act.cumulSyscall && act.selfThread <= act.cumulThread
  {
    RunSelf(run, w);
    hide Run, Legal, Outs, Depths, KernelReadsAt, ThreadReadsAt;
    assert SelfExact(Run(run, w).threads[t], Run(run, w).history, Depths(run, w), Outs(run, w), w.segment);
  }
}
