module Drms {
  // The dynamic read memory size of many threads: one global counter, one shadow
  // memory with the latest write of every granule, one private shadow memory with the
  // latest access of every thread, and the specification of the partial counts over the
  // interleaved history of all threads and of the kernel.

  import opened ActivationStack
  import opened ShadowMap
  import opened DrmsHistory
  import opened DrmsCompression

  // `frames` and `hidden` are as for the read memory size: the activations being
  // profiled, and above them those that a skipped function hides. `who` names the
  // thread in the history (thread numbers are reused) and `entries` holds the position
  // of the history at which every profiled activation was entered.
  datatype Thread = Thread(
    frames: seq<Activation>,
    hidden: seq<bool>,
    shadow: Shadow,
    who: nat,
    entries: seq<nat>)

  // `current` is 0 when no thread runs. `io` holds the granules whose latest write is
  // marked as the kernel's. `history`, `born` (the number of threads ever started) and
  // `exact` (the counter never ran out) serve the specification only.
  datatype Config = Config(
    counter: nat,
    current: nat,
    threads: map<nat, Thread>,
    global: Shadow,
    io: set<nat>,
    history: seq<Event>,
    born: nat,
    exact: bool)

  // The first counter value that is not used, and the number of granules in a segment
  // of shadow memory.
  datatype Params = Params(limit: nat, segment: nat) {
    predicate Valid() { limit > 6 && segment > 0 }
  }

  function Initial(): Config {
    Config(1, 0, map[], map[], {}, [], 0, true)
  }

  // --- steps ---

  function Ids(threads: map<nat, Thread>): set<nat> {
    set t, i | t in threads && 0 <= i < |threads[t].frames| :: threads[t].frames[i].id
  }

  function CompressedThread(ids: set<nat>, global: Shadow, th: Thread): Thread {
    th.(frames := Renumbered(ids, th.frames), shadow := CompressedLocal(ids, global, th.shadow))
  }

  // A counter increment; when the counter runs out all timestamps are renumbered.
  function Bump(c: Config, w: Params): Config {
    if c.counter + 1 == w.limit then
      var ids := Ids(c.threads);
      c.(counter := 3 * (|ids| + 2),
         threads := map t | t in c.threads :: CompressedThread(ids, c.global, c.threads[t]),
         global := CompressedGlobal(ids, c.global),
         exact := false)
    else c.(counter := c.counter + 1)
  }

  function Started(c: Config, tid: nat): Config {
    c.(threads := c.threads[tid := Thread([], [], map[], c.born, [])], born := c.born + 1)
  }

  function Switched(c: Config, tid: nat, w: Params): Config {
    if tid == c.current then c
    else
      var d := Bump(c.(current := tid), w);
      if tid in d.threads then d else Started(d, tid)
  }

  function Entered(c: Config, skip: bool, w: Params): Config
    requires c.current in c.threads
  {
    var th := c.threads[c.current];
    if skip || |th.hidden| > 0 then
      c.(threads := c.threads[c.current := th.(hidden := th.hidden + [skip])])
    else
      var d := Bump(c, w);
      var th := d.threads[c.current];
      d.(threads := d.threads[c.current := th.(
        frames := th.frames + [NewActivation(d.counter)],
        entries := th.entries + [|c.history|])])
  }

  function Returned(c: Config, tid: nat): Config
    requires tid in c.threads
  {
    var th := c.threads[tid];
    if |th.hidden| > 0 then
      c.(threads := c.threads[tid := th.(hidden := th.hidden[..|th.hidden| - 1])])
    else if |th.frames| > 0 && |th.entries| > 0 then
      c.(threads := c.threads[tid := th.(frames := Fold(th.frames), entries := th.entries[..|th.entries| - 1])])
    else c
  }

  predicate Tracked(c: Config) {
    && c.current in c.threads
    && |c.threads[c.current].frames| > 0
    && |c.threads[c.current].hidden| == 0
  }

  // A read of a value produced by another thread or by the kernel.
  function Induced(s: seq<Activation>, kernel: bool): (r: seq<Activation>)
    requires |s| > 0
    ensures |r| == |s|
  {
    var t := |s| - 1;
    s[t := if kernel
           then s[t].(inputSize := s[t].inputSize + 1, selfSyscall := s[t].selfSyscall + 1,
                      cumulSyscall := s[t].cumulSyscall + 1)
           else s[t].(inputSize := s[t].inputSize + 1, selfThread := s[t].selfThread + 1,
                      cumulThread := s[t].cumulThread + 1)]
  }

  // The counts after a read of a granule last touched by this thread at `prev` and
  // last written by anyone at `written`.
  function Counted(s: seq<Activation>, prev: nat, written: nat, kernel: bool): (r: seq<Activation>)
    requires |s| > 0
    ensures |r| == |s|
  {
    if prev < written then Induced(s, kernel)
    else if prev < s[|s| - 1].id then Credit(s, prev)
    else s
  }

  function Touched(c: Config, g: nat, read: bool, write: bool, w: Params): Config
    requires Tracked(c) && w.Valid()
  {
    var th := c.threads[c.current];
    c.(threads := c.threads[c.current := th.(
         frames := if read then Counted(th.frames, Cell(th.shadow, g), Cell(c.global, g), g in c.io) else th.frames,
         shadow := Stored(th.shadow, g, c.counter, w.segment))],
       global := if write then Stored(c.global, g, c.counter, w.segment) else c.global,
       io := if write then c.io - {g} else c.io,
       history := c.history + [Access(th.who, g, read, write)])
  }

  function KernelStored(c: Config, g: nat, w: Params): Config
    requires w.Valid()
  {
    if Tracked(c) then
      c.(global := Stored(c.global, g, c.counter, w.segment), io := c.io + {g}, history := c.history + [KernelWrite(g)])
    else c
  }

  function AllKernelStored(c: Config, gs: seq<nat>, w: Params): Config
    requires w.Valid()
  {
    if |gs| == 0 then c else KernelStored(AllKernelStored(c, gs[..|gs| - 1], w), gs[|gs| - 1], w)
  }

  /**
   What a list of kernel stores does, granule by granule: in profiled code each of them gets the
   counter and the kernel's mark, in any order of the list, and each enters the history once
   for every time it is listed. Nothing else changes.
   */
  lemma {:induction false} KernelStoresAll(c: Config, gs: seq<nat>, w: Params)
    requires w.Valid()
    ensures var n := AllKernelStored(c, gs, w);
      && n.(global := c.global, io := c.io, history := c.history) == c
      && (!Tracked(c) ==> n == c)
      && (Tracked(c) ==>
            && (forall g :: Cell(n.global, g) == if g in gs then c.counter else Cell(c.global, g))
            && (forall g :: g in n.io <==> g in c.io || g in gs)
            && n.history == c.history + seq(|gs|, i requires 0 <= i < |gs| => KernelWrite(gs[i])))
  {
    if |gs| > 0 {
      var front, last := gs[..|gs| - 1], gs[|gs| - 1];
      KernelStoresAll(c, front, w);
      assert gs == front + [last];
    }
  }

  datatype Action =
    | Switch(tid: nat)
    | Idle
    | Create(tid: nat)
    | Finish(tid: nat)
    | Enter(skip: bool)
    | Return(tid: nat)
    | Touch(granule: nat, read: bool, write: bool)
    | Syscall(tid: nat, granules: seq<nat>)

  // When the counter runs out no thread is inside a skipped function, and the stacks
  // together are far smaller than the counter's range.
  ghost predicate BumpEnabled(c: Config, w: Params) {
    c.counter + 1 == w.limit ==>
      && (forall t :: t in c.threads ==> |c.threads[t].hidden| == 0)
      && 3 * (|Ids(c.threads)| + 2) < w.limit
  }

  // The actions that increment the counter.
  predicate Bumps(c: Config, a: Action) {
    match a
    case Switch(tid) => tid != c.current
    case Enter(skip) => c.current in c.threads && !skip && |c.threads[c.current].hidden| == 0
    case Syscall(_, _) => true
    case _ => false
  }

  ghost predicate Enabled(c: Config, a: Action, w: Params) {
    && (Bumps(c, a) ==> BumpEnabled(c, w))
    && match a
    case Switch(tid) => tid > 0
    case Idle => true
    case Create(tid) => tid > 0 && tid !in c.threads
    case Finish(tid) => tid in c.threads && |c.threads[tid].frames| == 0 && |c.threads[tid].hidden| == 0
    case Enter(_) => c.current in c.threads
    case Return(tid) => tid in c.threads
    case Touch(_, _, _) => c.current in c.threads
    case Syscall(tid, _) => tid > 0
  }

  function Step(c: Config, a: Action, w: Params): Config
    requires w.Valid()
  {
    match a
    case Switch(tid) => Switched(c, tid, w)
    case Idle => c.(current := 0)
    case Create(tid) => Started(c, tid)
    case Finish(tid) => c.(threads := c.threads - {tid}, current := 0)
    case Enter(skip) => if c.current in c.threads then Entered(c, skip, w) else c
    case Return(tid) => if tid in c.threads then Returned(c, tid) else c
    case Touch(g, read, write) => if Tracked(c) then Touched(c, g, read, write, w) else c
    case Syscall(tid, gs) =>
      AllKernelStored(if tid == c.current then Bump(c, w) else Switched(c, tid, w), gs, w)
  }

  function Run(as_: seq<Action>, w: Params): Config
    requires w.Valid()
  {
    if |as_| == 0 then Initial() else Step(Run(as_[..|as_| - 1], w), as_[|as_| - 1], w)
  }

  // n consecutive granules from g on, touched one after the other.
  function Touches(c: Config, g: nat, n: nat, read: bool, write: bool, w: Params): Config
    requires w.Valid()
  {
    if n == 0 then c else Step(Touches(c, g, n - 1, read, write, w), Touch(g + n - 1, read, write), w)
  }

  function TouchActions(g: nat, n: nat, read: bool, write: bool): (as_: seq<Action>)
    ensures |as_| == n
  {
    seq(n, k requires 0 <= k < n => Touch(g + k, read, write))
  }

  // The actions of such a range go on with a run.
  lemma {:induction false} TouchesAreActions(as_: seq<Action>, g: nat, n: nat, read: bool, write: bool, w: Params)
    requires w.Valid()
    ensures Touches(Run(as_, w), g, n, read, write, w) == Run(as_ + TouchActions(g, n, read, write), w)
  {
    hide Step;
    var all := as_ + TouchActions(g, n, read, write);
    if n == 0 {
      assert all == as_;
    } else {
      assert all[..|all| - 1] == as_ + TouchActions(g, n - 1, read, write);
      TouchesAreActions(as_, g, n - 1, read, write, w);
    }
  }

  // One access to each of the granules by one thread, in order.
  function AccessList(who: nat, g: nat, n: nat, read: bool, write: bool): seq<Event> {
    seq(n, k requires 0 <= k < n => Access(who, g + k, read, write))
  }

  lemma {:induction false} TouchesHistory(c: Config, g: nat, n: nat, read: bool, write: bool, w: Params)
    requires w.Valid()
    ensures var d := Touches(c, g, n, read, write, w);
      && d.history == c.history + (if Tracked(c) then AccessList(c.threads[c.current].who, g, n, read, write) else [])
      && d.current == c.current && (Tracked(d) <==> Tracked(c))
      && (Tracked(c) ==> d.threads[c.current].who == c.threads[c.current].who)
  {
    hide Step, Tracked;
    if n > 0 {
      TouchesHistory(c, g, n - 1, read, write, w);
      TouchHistory(Touches(c, g, n - 1, read, write, w), g + n - 1, read, write, w);
    }
  }

  lemma TouchHistory(c: Config, g: nat, read: bool, write: bool, w: Params)
    requires w.Valid()
    ensures var d := Step(c, Touch(g, read, write), w);
      && d.history == c.history + (if Tracked(c) then [Access(c.threads[c.current].who, g, read, write)] else [])
      && d.current == c.current && (Tracked(d) <==> Tracked(c))
      && (Tracked(c) ==> d.threads[c.current].who == c.threads[c.current].who)
  {
    hide Stored;
  }

  lemma NothingTouched(c: Config, g: nat, read: bool, write: bool, w: Params)
    requires w.Valid()
    ensures Touches(c, g, 0, read, write, w) == c
  {
  }

  lemma OneMoreTouched(c: Config, g: nat, n: nat, read: bool, write: bool, w: Params)
    requires w.Valid()
    ensures Touches(c, g, n + 1, read, write, w) == Step(Touches(c, g, n, read, write, w), Touch(g + n, read, write), w)
  {
  }

  ghost predicate Legal(as_: seq<Action>, w: Params)
    requires w.Valid()
  {
    |as_| == 0 || (Legal(as_[..|as_| - 1], w) && Enabled(Run(as_[..|as_| - 1], w), as_[|as_| - 1], w))
  }
}
