module DrmsInvisible {
  // Running out of counter values is invisible in the input sizes: machines with any two
  // counter ranges compute the same partial sizes. The one statistic that can differ is the
  // input charged to other threads, which DrmsStrays accounts for.

  import opened ActivationStack
  import opened ShadowMap
  import opened DrmsHistory
  import opened Drms
  import opened DrmsExact

  ghost predicate SameThread(a: Thread, b: Thread) {
    && a.who == b.who && a.entries == b.entries && a.hidden == b.hidden
    && |a.frames| == |b.frames|
    && forall i :: 0 <= i < |a.frames| ==>
      a.frames[i].inputSize == b.frames[i].inputSize && a.frames[i].cumulSyscall == b.frames[i].cumulSyscall
  }

  ghost predicate SameProfile(c: Config, d: Config) {
    && c.current == d.current && c.io == d.io && c.history == d.history && c.born == d.born
    && c.threads.Keys == d.threads.Keys
    && forall t :: t in c.threads ==> SameThread(c.threads[t], d.threads[t])
  }

  // A bump touches nothing of a thread but its identifiers and timestamps.
  lemma BumpThreadSame(c: Config, w: Params, t: nat)
    requires t in c.threads
    ensures SameThread(c.threads[t], Bump(c, w).threads[t])
  {
  }

  lemma SameThreadTrans(a: Thread, b: Thread, c: Thread, d: Thread)
    requires SameThread(a, b) && SameThread(a, c) && SameThread(b, d)
    ensures SameThread(c, d)
  {
  }

  lemma BumpSame(c: Config, d: Config, w: Params, v: Params)
    requires SameProfile(c, d)
    ensures SameProfile(Bump(c, w), Bump(d, v))
  {
    KeysKept(c, w);
    KeysKept(d, v);
    hide SameThread, Bump;
    forall t | t in c.threads ensures SameThread(Bump(c, w).threads[t], Bump(d, v).threads[t]) {
      BumpThreadSame(c, w, t);
      BumpThreadSame(d, v, t);
      SameThreadTrans(c.threads[t], d.threads[t], Bump(c, w).threads[t], Bump(d, v).threads[t]);
    }
  }

  lemma StartedSame(c: Config, d: Config, tid: nat)
    requires SameProfile(c, d)
    ensures SameProfile(Started(c, tid), Started(d, tid))
  {
    var n := Thread([], [], map[], c.born, []);
    assert SameThread(n, n);
    hide SameThread;
  }

  lemma SwitchedSame(c: Config, d: Config, tid: nat, w: Params, v: Params)
    requires SameProfile(c, d)
    ensures SameProfile(Switched(c, tid, w), Switched(d, tid, v))
  {
    if tid != c.current {
      BumpSame(c.(current := tid), d.(current := tid), w, v);
    }
  }

  lemma PushedSame(a: Thread, b: Thread, x: nat, y: nat, p: nat)
    requires SameThread(a, b)
    ensures SameThread(a.(frames := a.frames + [NewActivation(x)], entries := a.entries + [p]),
                       b.(frames := b.frames + [NewActivation(y)], entries := b.entries + [p]))
  {
  }

  lemma ReplaceSame(c: Config, d: Config, t: nat, a: Thread, b: Thread)
    requires SameProfile(c, d) && SameThread(a, b)
    ensures SameProfile(c.(threads := c.threads[t := a]), d.(threads := d.threads[t := b]))
  {
    hide SameThread;
  }

  lemma EnteredSame(c: Config, d: Config, skip: bool, w: Params, v: Params)
    requires SameProfile(c, d) && c.current in c.threads
    ensures SameProfile(Entered(c, skip, w), Entered(d, skip, v))
  {
    var t := c.current;
    var a, b := c.threads[t], d.threads[t];
    assert SameThread(a, b);
    if skip || |a.hidden| > 0 {
      ReplaceSame(c, d, t, a.(hidden := a.hidden + [skip]), b.(hidden := b.hidden + [skip]));
    } else {
      BumpSame(c, d, w, v);
      KeysKept(c, w);
      KeysKept(d, v);
      hide Bump, SameThread;
      var c', d' := Bump(c, w), Bump(d, v);
      var a', b' := c'.threads[t], d'.threads[t];
      var p := |c.history|;
      PushedSame(a', b', c'.counter, d'.counter, p);
      ReplaceSame(c', d', t, a'.(frames := a'.frames + [NewActivation(c'.counter)], entries := a'.entries + [p]),
                  b'.(frames := b'.frames + [NewActivation(d'.counter)], entries := b'.entries + [p]));
    }
  }

  lemma KeysKept(c: Config, w: Params)
    ensures var b := Bump(c, w);
      && b.threads.Keys == c.threads.Keys && b.history == c.history && b.current == c.current
      && b.io == c.io && b.born == c.born
  {
  }

  lemma FoldSame(s: seq<Activation>, r: seq<Activation>)
    requires |s| == |r| > 0
    requires forall i :: 0 <= i < |s| ==>
      s[i].inputSize == r[i].inputSize && s[i].cumulSyscall == r[i].cumulSyscall
    ensures forall i :: 0 <= i < |s| - 1 ==>
      Fold(s)[i].inputSize == Fold(r)[i].inputSize && Fold(s)[i].cumulSyscall == Fold(r)[i].cumulSyscall
  {
  }

  lemma ReturnedSame(c: Config, d: Config, tid: nat)
    requires SameProfile(c, d) && tid in c.threads
    ensures SameProfile(Returned(c, tid), Returned(d, tid))
  {
    hide SameThread, Fold;
    var a, b := c.threads[tid], d.threads[tid];
    assert SameThread(a, b);
    PoppedSame(a, b);
    ReplaceSame(c, d, tid, a, b);
    if |a.hidden| > 0 {
      ReplaceSame(c, d, tid, a.(hidden := a.hidden[..|a.hidden| - 1]), b.(hidden := b.hidden[..|b.hidden| - 1]));
    } else if |a.frames| > 0 && |a.entries| > 0 {
      ReplaceSame(c, d, tid, a.(frames := Fold(a.frames), entries := a.entries[..|a.entries| - 1]),
                  b.(frames := Fold(b.frames), entries := b.entries[..|b.entries| - 1]));
    }
  }

  lemma PoppedSame(a: Thread, b: Thread)
    requires SameThread(a, b)
    ensures |a.hidden| == |b.hidden| && |a.frames| == |b.frames| && |a.entries| == |b.entries|
    ensures |a.hidden| > 0 ==>
      SameThread(a.(hidden := a.hidden[..|a.hidden| - 1]), b.(hidden := b.hidden[..|b.hidden| - 1]))
    ensures |a.frames| > 0 && |a.entries| > 0 ==>
      SameThread(a.(frames := Fold(a.frames), entries := a.entries[..|a.entries| - 1]),
                 b.(frames := Fold(b.frames), entries := b.entries[..|b.entries| - 1]))
  {
    hide Fold;
    if |a.frames| > 0 { FoldSame(a.frames, b.frames); }
  }

  // An access the thread's own timestamps decide.
  lemma CreditSame(s: seq<Activation>, r: seq<Activation>, prev: nat, prev': nat)
    requires |s| == |r| > 0 && Increasing(s) && Increasing(r)
    requires prev < s[|s| - 1].id && prev' < r[|r| - 1].id
    requires forall i :: 0 <= i < |s| ==> (s[i].id <= prev <==> r[i].id <= prev')
    requires forall i :: 0 <= i < |s| ==>
      s[i].inputSize == r[i].inputSize && s[i].cumulSyscall == r[i].cumulSyscall
    ensures forall i :: 0 <= i < |s| ==>
      && Credit(s, prev)[i].inputSize == Credit(r, prev')[i].inputSize
      && Credit(s, prev)[i].cumulSyscall == Credit(r, prev')[i].cumulSyscall
  {
    if prev >= s[0].id {
      var q, q' := OwnerFrom(s, |s| - 2, prev), OwnerFrom(r, |s| - 2, prev');
      assert s[q].id <= prev && r[q'].id <= prev';
      assert q == q';
    }
  }

  // The timestamp of an earlier access is at least the latest write, that of none is below every activation.
  lemma CountedSame(s: seq<Activation>, r: seq<Activation>, p: nat, q: nat, v: nat, u: nat, kernel: bool, known: bool)
    requires |s| == |r| > 0 && Increasing(s) && Increasing(r)
    requires forall i :: 0 <= i < |s| ==> (s[i].id <= p <==> r[i].id <= q)
    requires known ==> v <= p && u <= q
    requires !known ==> !kernel && p < s[0].id && q < r[0].id
    requires forall i :: 0 <= i < |s| ==>
      s[i].inputSize == r[i].inputSize && s[i].cumulSyscall == r[i].cumulSyscall
    ensures forall i :: 0 <= i < |s| ==>
      && Counted(s, p, v, kernel)[i].inputSize == Counted(r, q, u, kernel)[i].inputSize
      && Counted(s, p, v, kernel)[i].cumulSyscall == Counted(r, q, u, kernel)[i].cumulSyscall
  {
    if known {
      if p < s[|s| - 1].id { CreditSame(s, r, p, q); }
    } else {
      assert s[0].id <= s[|s| - 1].id && r[0].id <= r[|r| - 1].id;
    }
  }

  // A read that the thread's own timestamps decide, or that is its first of the granule.
  lemma OldReadSame(a: Thread, b: Thread, g: nat, ga: Shadow, gb: Shadow, kernel: bool, h: seq<Event>, x: bool, y: bool)
    requires SameThread(a, b) && |a.frames| > 0
    requires Increasing(a.frames) && Increasing(b.frames)
    requires Located(a, h) && Located(b, h) && Versioned(a, ga, h, x) && Versioned(b, gb, h, y)
    requires !Renewed(h, a.who, g) && (LastAccess(h, a.who, g) == -1 ==> !kernel)
    ensures forall i :: 0 <= i < |a.frames| ==>
      && Counted(a.frames, Cell(a.shadow, g), Cell(ga, g), kernel)[i].inputSize
         == Counted(b.frames, Cell(b.shadow, g), Cell(gb, g), kernel)[i].inputSize
      && Counted(a.frames, Cell(a.shadow, g), Cell(ga, g), kernel)[i].cumulSyscall
         == Counted(b.frames, Cell(b.shadow, g), Cell(gb, g), kernel)[i].cumulSyscall
  {
    hide Renewed, LastAccess, Increasing, Counted;
    var p, q := Cell(a.shadow, g), Cell(b.shadow, g);
    assert forall i :: 0 <= i < |a.frames| ==> (a.frames[i].id <= p <==> a.entries[i] <= LastAccess(h, a.who, g));
    assert forall i :: 0 <= i < |b.frames| ==> (b.frames[i].id <= q <==> a.entries[i] <= LastAccess(h, a.who, g));
    CountedSame(a.frames, b.frames, p, q, Cell(ga, g), Cell(gb, g), kernel, LastAccess(h, a.who, g) >= 0);
  }

  lemma UpdatedSame(a: Thread, b: Thread, e: Event, ga: Shadow, gb: Shadow, io: set<nat>, h: seq<Event>, x: bool, y: bool)
    requires SameThread(a, b) && |a.frames| > 0 && e.Access? && e.who == a.who
    requires Increasing(a.frames) && Increasing(b.frames)
    requires Located(a, h) && Located(b, h) && Versioned(a, ga, h, x) && Versioned(b, gb, h, y)
    requires e.granule in io <==> KernelLast(h, e.granule)
    ensures forall i :: 0 <= i < |a.frames| ==>
      && Updated(a, e, ga, io)[i].inputSize == Updated(b, e, gb, io)[i].inputSize
      && Updated(a, e, ga, io)[i].cumulSyscall == Updated(b, e, gb, io)[i].cumulSyscall
  {
    hide Located, Increasing, LastAccess, LastForeign, KernelLast, Credit;
    var g := e.granule;
    if e.read && !Renewed(h, a.who, g) {
      if g in io && LastAccess(h, a.who, g) == -1 { KernelIsForeign(h, a.who, g); }
      OldReadSame(a, b, g, ga, gb, g in io, h, x, y);
    }
  }

  lemma SoundParts(c: Config, w: Params, t: nat, g: nat)
    requires Inv(c, w) && t in c.threads
    ensures var th := c.threads[t];
      Increasing(th.frames) && Located(th, c.history) && Versioned(th, c.global, c.history, c.exact)
    ensures g in c.io <==> KernelLast(c.history, g)
  {
    hide Versioned, Located;
    assert Sound(c.threads[t], c);
  }

  // The accessing thread afterwards.
  function Accessor(c: Config, g: nat, read: bool, write: bool, w: Params): Thread
    requires Tracked(c) && w.Valid()
  {
    var th := c.threads[c.current];
    th.(frames := Updated(th, Access(th.who, g, read, write), c.global, c.io),
        shadow := Stored(th.shadow, g, c.counter, w.segment))
  }

  lemma AccessorSame(c: Config, d: Config, g: nat, read: bool, write: bool, w: Params, v: Params)
    requires w.Valid() && v.Valid() && Inv(c, w) && Inv(d, v) && SameProfile(c, d) && Tracked(c) && Tracked(d)
    ensures SameThread(Accessor(c, g, read, write, w), Accessor(d, g, read, write, v))
    ensures c.threads[c.current].who == d.threads[d.current].who
  {
    hide Inv, Located, Versioned, Increasing, KernelLast, Updated, Stored;
    SoundParts(c, w, c.current, g);
    SoundParts(d, v, c.current, g);
    var a, b := c.threads[c.current], d.threads[c.current];
    assert SameThread(a, b);
    UpdatedSame(a, b, Access(a.who, g, read, write), c.global, d.global, c.io, c.history, c.exact, d.exact);
  }

  lemma TouchedSame(c: Config, d: Config, g: nat, read: bool, write: bool, w: Params, v: Params)
    requires w.Valid() && v.Valid() && Inv(c, w) && Inv(d, v) && SameProfile(c, d) && Tracked(c) && Tracked(d)
    ensures SameProfile(Touched(c, g, read, write, w), Touched(d, g, read, write, v))
  {
    hide Inv, SameThread, Touched, Accessor, Tracked;
    AccessorSame(c, d, g, read, write, w, v);
    ReplaceSame(c, d, c.current, Accessor(c, g, read, write, w), Accessor(d, g, read, write, v));
    TouchedIsReplaced(c, g, read, write, w);
    TouchedIsReplaced(d, g, read, write, v);
  }

  lemma TouchedIsReplaced(c: Config, g: nat, read: bool, write: bool, w: Params)
    requires Tracked(c) && w.Valid()
    ensures c.current in c.threads
    ensures var d := Touched(c, g, read, write, w);
      && d.threads == c.threads[c.current := Accessor(c, g, read, write, w)]
      && d.current == c.current && d.born == c.born
      && d.history == c.history + [Access(c.threads[c.current].who, g, read, write)]
      && d.io == (if write then c.io - {g} else c.io)
  {
  }

  lemma {:induction false} AllKernelStoredSame(c: Config, d: Config, gs: seq<nat>, w: Params, v: Params)
    requires w.Valid() && v.Valid() && SameProfile(c, d)
    ensures SameProfile(AllKernelStored(c, gs, w), AllKernelStored(d, gs, v))
  {
    if |gs| > 0 {
      AllKernelStoredSame(c, d, gs[..|gs| - 1], w, v);
    }
  }

  lemma TrackedSame(c: Config, d: Config)
    requires SameProfile(c, d)
    ensures Tracked(c) <==> Tracked(d)
  {
    assert c.current in c.threads ==> SameThread(c.threads[c.current], d.threads[c.current]);
  }

  lemma SyscallSame(c: Config, d: Config, tid: nat, gs: seq<nat>, w: Params, v: Params)
    requires w.Valid() && v.Valid() && SameProfile(c, d)
    ensures SameProfile(Step(c, Syscall(tid, gs), w), Step(d, Syscall(tid, gs), v))
  {
    hide SameThread, Bump, Switched;
    if tid == c.current { BumpSame(c, d, w, v); } else { SwitchedSame(c, d, tid, w, v); }
    AllKernelStoredSame(if tid == c.current then Bump(c, w) else Switched(c, tid, w),
                        if tid == d.current then Bump(d, v) else Switched(d, tid, v), gs, w, v);
  }

  lemma FinishSame(c: Config, d: Config, tid: nat)
    requires SameProfile(c, d)
    ensures SameProfile(c.(threads := c.threads - {tid}, current := 0), d.(threads := d.threads - {tid}, current := 0))
    ensures SameProfile(c.(current := 0), d.(current := 0))
    ensures c.current == d.current && c.threads.Keys == d.threads.Keys
  {
    hide SameThread;
  }

  lemma StepSame(c: Config, d: Config, a: Action, w: Params, v: Params)
    requires w.Valid() && v.Valid() && Inv(c, w) && Inv(d, v) && SameProfile(c, d)
    ensures SameProfile(Step(c, a, w), Step(d, a, v))
  {
    hide Inv, Touched, Bump, Switched, Entered, Returned, SameProfile, AllKernelStored, Tracked, Started;
    FinishSame(c, d, 0);
    match a
    case Switch(tid) => SwitchedSame(c, d, tid, w, v);
    case Idle =>
    case Create(tid) => StartedSame(c, d, tid);
    case Finish(tid) => FinishSame(c, d, tid);
    case Enter(skip) => if c.current in c.threads { EnteredSame(c, d, skip, w, v); }
    case Return(tid) => if tid in c.threads { ReturnedSame(c, d, tid); }
    case Touch(g, read, write) =>
      TrackedSame(c, d);
      if Tracked(c) { TouchedSame(c, d, g, read, write, w, v); }
    case Syscall(tid, gs) => SyscallSame(c, d, tid, gs, w, v);
  }

  // Whatever the range of the counter, every run computes the same partial input sizes
  // and the same partial counts of input produced by the kernel.
  lemma {:induction false} CompressionIsInvisible(run: seq<Action>, w: Params, v: Params)
    requires w.Valid() && v.Valid() && Legal(run, w) && Legal(run, v)
    ensures SameProfile(Run(run, w), Run(run, v))
  {
    hide SameProfile, Enabled, Step, Inv;
    if |run| > 0 {
      var r := run[..|run| - 1];
      CompressionIsInvisible(r, w, v);
      RunKeeps(r, w);
      RunKeeps(r, v);
      StepSame(Run(r, w), Run(r, v), run[|run| - 1], w, v);
    } else {
      InitialSame();
    }
  }

  lemma InitialSame()
    ensures SameProfile(Initial(), Initial())
  {
  }

  lemma {:induction false} StoresKeepCounter(c: Config, gs: seq<nat>, w: Params)
    requires w.Valid()
    ensures AllKernelStored(c, gs, w).counter == c.counter && AllKernelStored(c, gs, w).exact == c.exact
  {
    if |gs| > 0 { StoresKeepCounter(c, gs[..|gs| - 1], w); }
  }

  lemma StepCounts(c: Config, a: Action, v: Params)
    requires v.Valid() && c.counter + 1 < v.limit
    ensures Step(c, a, v).counter <= c.counter + 1 && Step(c, a, v).exact == c.exact
  {
    if a.Syscall? {
      StoresKeepCounter(if a.tid == c.current then Bump(c, v) else Switched(c, a.tid, v), a.granules, v);
    }
  }

  lemma EnabledSame(c: Config, d: Config, a: Action, w: Params, v: Params)
    requires SameProfile(c, d) && Enabled(c, a, w) && d.counter + 1 < v.limit
    ensures Enabled(d, a, v)
  {
    if a.Finish? { assert SameThread(c.threads[a.tid], d.threads[a.tid]); }
  }

  // Every legal run of the bounded machine is a run of a machine whose counter never
  // runs out, with the same input sizes; there every statistic is exact.
  lemma {:induction false} BoundedSimulatesUnbounded(run: seq<Action>, w: Params, v: Params)
    requires w.Valid() && v.Valid() && Legal(run, w) && |run| + 2 < v.limit
    ensures Legal(run, v) && SameProfile(Run(run, w), Run(run, v))
    ensures Run(run, v).exact && Run(run, v).counter <= |run| + 1
  {
    hide SameProfile, Enabled, Step, Inv;
    if |run| > 0 {
      var r := run[..|run| - 1];
      BoundedSimulatesUnbounded(r, w, v);
      EnabledSame(Run(r, w), Run(r, v), run[|run| - 1], w, v);
      StepCounts(Run(r, v), run[|run| - 1], v);
      CompressionIsInvisible(run, w, v);
    } else {
      InitialSame();
    }
  }
}
