module DrmsEvents {
  // What the interleaved history holds, told from the actions alone: which thread runs, which
  // threads have data and since when, which calls of a thread are open, and so which accesses and
  // kernel writes belong to the profile.

  import opened CallMatching
  import opened ActivationStack
  import opened DrmsHistory
  import opened Drms
  import opened DrmsExact

  // --- what the actions say ---

  // The thread that runs after the first k actions, 0 for none.
  function Running(as_: seq<Action>, k: nat): nat
    requires k <= |as_|
  {
    if k == 0 then 0
    else
      match as_[k - 1]
      case Switch(tid) => tid
      case Syscall(tid, _) => tid
      case Idle => 0
      case Finish(_) => 0
      case _ => Running(as_, k - 1)
  }

  // Actions after which thread number tid has data.
  predicate NeedsData(a: Action, tid: nat) {
    a == Switch(tid) || a == Create(tid) || (a.Syscall? && a.tid == tid)
  }

  function NumberOf(a: Action): nat {
    if a.Switch? || a.Create? || a.Syscall? then a.tid else 0
  }

  // Thread number tid got data at some point and has not finished since.
  ghost predicate HasData(as_: seq<Action>, k: nat, tid: nat)
    requires k <= |as_|
  {
    exists j :: 0 <= j < k && NeedsData(as_[j], tid) && forall l :: j < l < k ==> as_[l] != Finish(tid)
  }

  // A thread starts at action k.
  ghost predicate StartsAt(as_: seq<Action>, k: nat, tid: nat)
    requires k < |as_|
  {
    NeedsData(as_[k], tid) && !HasData(as_, k, tid)
  }

  // The number of threads started so far, and the name of the latest one with number tid: the
  // number of those started before it.
  ghost function Started(as_: seq<Action>, k: nat): nat
    requires k <= |as_|
  {
    if k == 0 then 0
    else Started(as_, k - 1) + (if StartsAt(as_, k - 1, NumberOf(as_[k - 1])) then 1 else 0)
  }

  ghost function Name(as_: seq<Action>, k: nat, tid: nat): nat
    requires k <= |as_|
  {
    if k == 0 then 0
    else if StartsAt(as_, k - 1, tid) then Started(as_, k - 1)
    else Name(as_, k - 1, tid)
  }

  // The calls and returns of one thread, calls being those of the running one.
  function ActionMark(a: Action, running: nat, tid: nat): Mark {
    match a
    case Enter(skip) => if running == tid then Call(skip) else Other
    case Return(t) => if t == tid then CallMatching.Return else Other
    case _ => Other
  }

  function MarkOf(as_: seq<Action>, k: nat, tid: nat): Mark
    requires k < |as_|
  {
    ActionMark(as_[k], Running(as_, k), tid)
  }

  function Marks(as_: seq<Action>, tid: nat): (ms: seq<Mark>)
    ensures |ms| == |as_|
  {
    seq(|as_|, k requires 0 <= k < |as_| => MarkOf(as_, k, tid))
  }

  // What action k adds to the history: an access of the running thread, or the granules the
  // kernel writes for the calling thread, if that thread is in profiled code.
  ghost function Added(as_: seq<Action>, k: nat): seq<Event>
    requires k < |as_|
  {
    match as_[k]
    case Touch(g, read, write) =>
      var tid := Running(as_, k);
      if Profiled(Marks(as_, tid), k) then [Access(Name(as_, k, tid), g, read, write)] else []
    case Syscall(tid, gs) =>
      if Profiled(Marks(as_, tid), k) then seq(|gs|, i requires 0 <= i < |gs| => KernelWrite(gs[i])) else []
    case _ => []
  }

  ghost function History(as_: seq<Action>, k: nat): seq<Event>
    requires k <= |as_|
  {
    if k == 0 then [] else History(as_, k - 1) + Added(as_, k - 1)
  }

  // --- the machine against the actions ---

  // What of a thread the actions tell.
  datatype Look = Look(parts: Parts, who: nat, entries: seq<nat>)

  function LookOf(th: Thread): Look {
    Look(Parts(|th.frames|, th.hidden), th.who, th.entries)
  }

  // A thread after a call, a return or something else, the history having n events before.
  function Moving(l: Look, m: Mark, n: nat): Look {
    Look(Moved(l.parts, m), l.who,
      match m
      case Call(skip) => if skip || |l.parts.hidden| > 0 then l.entries else l.entries + [n]
      case Return => if |l.parts.hidden| > 0 || |l.entries| == 0 then l.entries else l.entries[..|l.entries| - 1]
      case Other => l.entries)
  }

  ghost predicate ThreadTells(as_: seq<Action>, k: nat, tid: nat, l: Look)
    requires k <= |as_|
  {
    var o := OpenCalls(Marks(as_, tid), k);
    && PartsAt(Marks(as_, tid), k, l.parts)
    && l.who == Name(as_, k, tid)
    && |l.entries| == l.parts.frames
    && EnteredAt(as_, o, l.entries)
  }

  // The entries are the lengths of the history at the first calls of the list.
  ghost predicate EnteredAt(as_: seq<Action>, o: seq<nat>, entries: seq<nat>) {
    |entries| <= |o| && forall x :: 0 <= x < |entries| ==> o[x] <= |as_| && entries[x] == |History(as_, o[x])|
  }

  lemma EnteredPush(as_: seq<Action>, o: seq<nat>, entries: seq<nat>, k: nat)
    requires EnteredAt(as_, o, entries) && k <= |as_|
    ensures EnteredAt(as_, o + [k], entries)
    ensures |entries| == |o| ==> EnteredAt(as_, o + [k], entries + [|History(as_, k)|])
  {
    hide History;
  }

  lemma EnteredPop(as_: seq<Action>, o: seq<nat>, entries: seq<nat>)
    requires EnteredAt(as_, o, entries) && |o| > 0
    ensures |entries| < |o| ==> EnteredAt(as_, o[..|o| - 1], entries)
    ensures |entries| > 0 ==> EnteredAt(as_, o[..|o| - 1], entries[..|entries| - 1])
  {
    hide History;
  }

  ghost predicate Tells(as_: seq<Action>, k: nat, c: Config)
    requires k <= |as_|
  {
    && c.current == Running(as_, k)
    && c.born == Started(as_, k)
    && c.history == History(as_, k)
    && (forall tid :: tid in c.threads <==> HasData(as_, k, tid))
    && (forall tid :: tid in c.threads ==> ThreadTells(as_, k, tid, LookOf(c.threads[tid])))
    && (forall tid :: tid !in c.threads ==> PartsAt(Marks(as_, tid), k, Parts(0, [])))
  }

  lemma {:induction false} HasDataStep(as_: seq<Action>, k: nat, tid: nat)
    requires 0 < k <= |as_|
    ensures HasData(as_, k, tid) <==>
      NeedsData(as_[k - 1], tid) || (HasData(as_, k - 1, tid) && as_[k - 1] != Finish(tid))
  {
    if HasData(as_, k, tid) && !NeedsData(as_[k - 1], tid) {
      var j :| 0 <= j < k && NeedsData(as_[j], tid) && forall l :: j < l < k ==> as_[l] != Finish(tid);
      assert j < k - 1;
    }
    if HasData(as_, k - 1, tid) && as_[k - 1] != Finish(tid) {
      var j :| 0 <= j < k - 1 && NeedsData(as_[j], tid) && forall l :: j < l < k - 1 ==> as_[l] != Finish(tid);
      assert forall l :: j < l < k ==> as_[l] != Finish(tid);
    }
  }

  lemma BumpLooks(c: Config, w: Params)
    ensures var n := Bump(c, w);
      && n.threads.Keys == c.threads.Keys && n.history == c.history && n.born == c.born && n.current == c.current
      && forall t :: t in c.threads ==> LookOf(n.threads[t]) == LookOf(c.threads[t])
  {
  }

  lemma SwitchedLooks(c: Config, tid: nat, w: Params)
    ensures var n := Switched(c, tid, w);
      && n.threads.Keys == (if tid == c.current then c.threads.Keys else c.threads.Keys + {tid})
      && n.history == c.history && n.current == tid
      && n.born == (if tid == c.current || tid in c.threads then c.born else c.born + 1)
      && (forall t :: t in c.threads ==> LookOf(n.threads[t]) == LookOf(c.threads[t]))
      && (tid != c.current && tid !in c.threads ==> LookOf(n.threads[tid]) == Look(Parts(0, []), c.born, []))
  {
    hide Bump;
    BumpLooks(c.(current := tid), w);
  }

  // The thread that runs after an action.
  function Runs(a: Action, running: nat): nat {
    match a
    case Switch(tid) => tid
    case Syscall(tid, _) => tid
    case Idle => 0
    case Finish(_) => 0
    case _ => running
  }

  // One action, for the threads that had data and for the one that gets it.
  ghost predicate Follows(c: Config, a: Action, n: Config) {
    && n.current == Runs(a, c.current)
    && (forall t :: t in n.threads <==> NeedsData(a, t) || (t in c.threads && a != Finish(t)))
    && (forall t :: t in n.threads && t in c.threads ==>
          LookOf(n.threads[t]) == Moving(LookOf(c.threads[t]), ActionMark(a, c.current, t), |c.history|))
    && (forall t :: t in n.threads && t !in c.threads ==> LookOf(n.threads[t]) == Look(Parts(0, []), c.born, []))
    && n.born == c.born + (if (a.Switch? || a.Create? || a.Syscall?) && a.tid !in c.threads then 1 else 0)
  }

  lemma {:induction false} TouchedLooks(c: Config, g: nat, read: bool, write: bool, w: Params)
    requires w.Valid()
    ensures var n := Step(c, Touch(g, read, write), w);
      && n.current == c.current && n.born == c.born && n.threads.Keys == c.threads.Keys
      && forall t :: t in c.threads ==> LookOf(n.threads[t]) == LookOf(c.threads[t])
  {
    hide Counted;
  }

  lemma {:induction false} TouchFollows(c: Config, g: nat, read: bool, write: bool, w: Params)
    requires w.Valid()
    ensures Follows(c, Touch(g, read, write), Step(c, Touch(g, read, write), w))
  {
    hide Step, LookOf;
    TouchedLooks(c, g, read, write, w);
  }

  lemma {:induction false} PlainFollows(c: Config, a: Action, w: Params)
    requires w.Valid() && (a.Idle? || a.Create? || a.Finish?) && (a.Create? ==> a.tid !in c.threads)
    ensures Follows(c, a, Step(c, a, w))
  {
  }

  lemma {:induction false} EnteredLooks(c: Config, skip: bool, w: Params)
    requires c.current in c.threads
    ensures var n := Entered(c, skip, w);
      && n.current == c.current && n.born == c.born && n.threads.Keys == c.threads.Keys
      && (forall t :: t in c.threads && t != c.current ==> LookOf(n.threads[t]) == LookOf(c.threads[t]))
      && LookOf(n.threads[c.current]) == Moving(LookOf(c.threads[c.current]), Call(skip), |c.history|)
  {
    hide Bump;
    BumpLooks(c, w);
  }

  lemma {:induction false} EnterFollows(c: Config, skip: bool, w: Params)
    requires w.Valid() && c.current in c.threads
    ensures Follows(c, Enter(skip), Step(c, Enter(skip), w))
  {
    hide Entered, LookOf;
    EnteredLooks(c, skip, w);
  }

  lemma {:induction false} ReturnedLooks(c: Config, tid: nat)
    requires tid in c.threads && |c.threads[tid].entries| == |c.threads[tid].frames|
    ensures var n := Returned(c, tid);
      && n.current == c.current && n.born == c.born && n.threads.Keys == c.threads.Keys
      && (forall t :: t in c.threads && t != tid ==> n.threads[t] == c.threads[t])
      && LookOf(n.threads[tid]) == Moving(LookOf(c.threads[tid]), CallMatching.Return, |c.history|)
  {
    hide Fold;
  }

  lemma {:induction false} ReturnFollows(c: Config, tid: nat, w: Params)
    requires w.Valid() && tid in c.threads && |c.threads[tid].entries| == |c.threads[tid].frames|
    ensures Follows(c, Action.Return(tid), Step(c, Action.Return(tid), w))
  {
    hide Returned, LookOf;
    ReturnedLooks(c, tid);
  }

  lemma {:induction false} SwitchFollows(c: Config, tid: nat, w: Params)
    requires w.Valid() && (tid == c.current ==> tid in c.threads)
    ensures Follows(c, Switch(tid), Step(c, Switch(tid), w))
  {
    hide Switched, LookOf;
    SwitchedLooks(c, tid, w);
  }

  // The configuration in which the kernel stores.
  function BeforeStores(c: Config, tid: nat, w: Params): Config {
    if tid == c.current then Bump(c, w) else Switched(c, tid, w)
  }

  lemma {:induction false} BumpedFollows(c: Config, tid: nat, gs: seq<nat>, w: Params)
    requires tid == c.current ==> tid in c.threads
    ensures Follows(c, Syscall(tid, gs), BeforeStores(c, tid, w))
    ensures var b := BeforeStores(c, tid, w); b.current == tid && b.history == c.history
  {
    hide Switched, Bump, LookOf;
    SwitchedLooks(c, tid, w);
    BumpLooks(c, w);
  }

  lemma FollowsSame(c: Config, a: Action, b: Config, n: Config)
    requires Follows(c, a, b) && n.threads == b.threads && n.current == b.current && n.born == b.born
    ensures Follows(c, a, n) && (Tracked(n) <==> Tracked(b))
  {
  }

  lemma {:induction false} SyscallFollows(c: Config, tid: nat, gs: seq<nat>, w: Params)
    requires w.Valid() && (tid == c.current ==> tid in c.threads)
    ensures Follows(c, Syscall(tid, gs), Step(c, Syscall(tid, gs), w))
    ensures var n := Step(c, Syscall(tid, gs), w);
      && n.current == tid
      && n.history == c.history +
           (if Tracked(n) then seq(|gs|, i requires 0 <= i < |gs| => KernelWrite(gs[i])) else [])
  {
    hide Switched, Bump, AllKernelStored, Follows, Tracked;
    var b := BeforeStores(c, tid, w);
    BumpedFollows(c, tid, gs, w);
    KernelStoresAll(b, gs, w);
    FollowsSame(c, Syscall(tid, gs), b, Step(c, Syscall(tid, gs), w));
  }

  // The facts about legal runs that the actions rely on.
  lemma LegalFacts(c: Config, a: Action, w: Params)
    requires Inv(c, w) && Enabled(c, a, w)
    ensures w.Valid() && 0 !in c.threads
    ensures forall t :: t in c.threads ==> |c.threads[t].entries| == |c.threads[t].frames|
    ensures (a.Switch? || a.Syscall?) ==> a.tid > 0 && (a.tid == c.current ==> a.tid in c.threads)
    ensures a.Create? ==> a.tid > 0 && a.tid !in c.threads
    ensures (a.Enter? || a.Touch?) ==> c.current in c.threads
    ensures (a.Return? || a.Finish?) ==> a.tid in c.threads
    ensures a.Finish? ==> |c.threads[a.tid].frames| == 0 && |c.threads[a.tid].hidden| == 0
  {
    forall t | t in c.threads ensures |c.threads[t].entries| == |c.threads[t].frames| {
      assert Sound(c.threads[t], c);
    }
  }

  lemma {:induction false} StepFollows(c: Config, a: Action, w: Params)
    requires Inv(c, w) && Enabled(c, a, w)
    ensures w.Valid() && Follows(c, a, Step(c, a, w))
  {
    hide Inv, Enabled, Follows, Step;
    LegalFacts(c, a, w);
    match a
    case Switch(tid) => SwitchFollows(c, tid, w);
    case Enter(skip) => EnterFollows(c, skip, w);
    case Return(tid) => ReturnFollows(c, tid, w);
    case Syscall(tid, gs) => SyscallFollows(c, tid, gs, w);
    case Touch(g, read, write) => TouchFollows(c, g, read, write, w);
    case _ => PlainFollows(c, a, w);
  }

  // --- one thread through one action ---

  lemma {:induction false} LookStep(as_: seq<Action>, k: nat, tid: nat, l: Look)
    requires 0 < k <= |as_| && ThreadTells(as_, k - 1, tid, l) && !StartsAt(as_, k - 1, tid)
    ensures ThreadTells(as_, k, tid, Moving(l, MarkOf(as_, k - 1, tid), |History(as_, k - 1)|))
  {
    hide History, StartsAt, Running, MarkOf, EnteredAt, PartsAt, OpenCalls;
    var ms := Marks(as_, tid);
    PartsStep(ms, k, l.parts);
    OpenCallsStep(ms, k);
    PartsLength(ms, k - 1, l.parts);
    SameName(as_, k, tid);
    match MarkOf(as_, k - 1, tid)
    case Call(_) => EnteredPush(as_, OpenCalls(ms, k - 1), l.entries, k - 1);
    case Return => if |OpenCalls(ms, k - 1)| > 0 { EnteredPop(as_, OpenCalls(ms, k - 1), l.entries); }
    case Other =>
  }

  lemma SameName(as_: seq<Action>, k: nat, tid: nat)
    requires 0 < k <= |as_| && !StartsAt(as_, k - 1, tid)
    ensures Name(as_, k, tid) == Name(as_, k - 1, tid)
  {
    hide StartsAt;
  }

  lemma {:induction false} LookStarts(as_: seq<Action>, k: nat, tid: nat)
    requires 0 < k <= |as_| && StartsAt(as_, k - 1, tid) && PartsAt(Marks(as_, tid), k - 1, Parts(0, []))
    ensures ThreadTells(as_, k, tid, Look(Parts(0, []), Started(as_, k - 1), []))
  {
    hide History, HasData, Running, Started, PartsAt;
    PartsStep(Marks(as_, tid), k, Parts(0, []));
  }

  // A thread without data has no open calls, and calls nothing before it starts.
  lemma {:induction false} NobodyStep(as_: seq<Action>, k: nat, tid: nat)
    requires 0 < k <= |as_| && PartsAt(Marks(as_, tid), k - 1, Parts(0, []))
    requires as_[k - 1].Enter? ==> Running(as_, k - 1) != tid
    ensures PartsAt(Marks(as_, tid), k, Parts(0, []))
  {
    hide Running;
    PartsStep(Marks(as_, tid), k, Parts(0, []));
  }

  lemma ThreadsTellNext(as_: seq<Action>, k: nat, c: Config, w: Params)
    requires w.Valid() && 0 < k <= |as_| && Tells(as_, k - 1, c) && Inv(c, w) && Enabled(c, as_[k - 1], w)
    requires Follows(c, as_[k - 1], Step(c, as_[k - 1], w))
    ensures var n := Step(c, as_[k - 1], w);
      && (forall tid :: tid in n.threads <==> HasData(as_, k, tid))
      && (forall tid :: tid in n.threads ==> ThreadTells(as_, k, tid, LookOf(n.threads[tid])))
      && (forall tid :: tid !in n.threads ==> PartsAt(Marks(as_, tid), k, Parts(0, [])))
  {
    hide Inv, Enabled, Step, PartsAt, HasData, Started, Name, History, NeedsData;
    var n, a := Step(c, as_[k - 1], w), as_[k - 1];
    LegalFacts(c, a, w);
    forall tid: nat ensures tid in n.threads <==> HasData(as_, k, tid) {
      HasDataStep(as_, k, tid);
    }
    forall tid | tid in n.threads ensures ThreadTells(as_, k, tid, LookOf(n.threads[tid])) {
      if tid in c.threads {
        LookStep(as_, k, tid, LookOf(c.threads[tid]));
      } else {
        LookStarts(as_, k, tid);
      }
    }
    forall tid: nat | tid !in n.threads ensures PartsAt(Marks(as_, tid), k, Parts(0, [])) {
      NobodyStep(as_, k, tid);
    }
  }

  lemma {:induction false} ProfiledTells(as_: seq<Action>, k: nat, c: Config, tid: nat)
    requires k <= |as_| && Tells(as_, k, c)
    ensures Profiled(Marks(as_, tid), k) <==>
      tid in c.threads && |c.threads[tid].frames| > 0 && |c.threads[tid].hidden| == 0
    ensures tid in c.threads ==> c.threads[tid].who == Name(as_, k, tid)
  {
    hide Profiled, PartsAt, Name, HasData;
    if tid in c.threads {
      PartsTell(Marks(as_, tid), k, LookOf(c.threads[tid]).parts);
    } else {
      PartsTell(Marks(as_, tid), k, Parts(0, []));
    }
  }

  // The kernel's stores count when the caller was in profiled code before the call.
  lemma {:induction false} CallerTracked(c: Config, tid: nat, gs: seq<nat>, w: Params)
    requires w.Valid() && (tid == c.current ==> tid in c.threads)
    ensures Tracked(Step(c, Syscall(tid, gs), w)) <==>
      tid in c.threads && |c.threads[tid].frames| > 0 && |c.threads[tid].hidden| == 0
  {
    hide Step;
    SyscallFollows(c, tid, gs, w);
    var n := Step(c, Syscall(tid, gs), w);
    assert tid in n.threads;
    assert LookOf(n.threads[tid]).parts == if tid in c.threads then LookOf(c.threads[tid]).parts else Parts(0, []);
  }

  // What one action adds to the history, told from the configuration.
  function Grown(c: Config, a: Action): seq<Event> {
    match a
    case Touch(g, read, write) => if Tracked(c) then [Access(c.threads[c.current].who, g, read, write)] else []
    case Syscall(tid, gs) =>
      if tid in c.threads && |c.threads[tid].frames| > 0 && |c.threads[tid].hidden| == 0
      then seq(|gs|, i requires 0 <= i < |gs| => KernelWrite(gs[i])) else []
    case _ => []
  }

  lemma {:induction false} HistoryGrows(c: Config, a: Action, w: Params)
    requires w.Valid() && (a.Syscall? && a.tid == c.current ==> a.tid in c.threads)
    ensures Step(c, a, w).history == c.history + Grown(c, a)
  {
    hide Switched, Bump, AllKernelStored, Fold, Counted;
    match a
    case Touch(g, read, write) =>
    case Syscall(tid, gs) =>
      SyscallFollows(c, tid, gs, w);
      CallerTracked(c, tid, gs, w);
    case Switch(tid) => SwitchedLooks(c, tid, w);
    case Enter(skip) => BumpLooks(c, w);
    case _ =>
  }

  lemma {:induction false} AddedIsGrown(as_: seq<Action>, k: nat, c: Config)
    requires k < |as_| && Tells(as_, k, c)
    ensures Grown(c, as_[k]) == Added(as_, k)
  {
    hide Profiled, Marks, HasData, Started, Name, ThreadTells, History, PartsAt;
    match as_[k]
    case Touch(g, read, write) => ProfiledTells(as_, k, c, c.current);
    case Syscall(tid, gs) => ProfiledTells(as_, k, c, tid);
    case _ =>
  }

  lemma {:induction false} HistoryNext(as_: seq<Action>, k: nat, c: Config, w: Params)
    requires w.Valid() && 0 < k <= |as_| && Tells(as_, k - 1, c) && Inv(c, w) && Enabled(c, as_[k - 1], w)
    ensures Step(c, as_[k - 1], w).history == History(as_, k)
  {
    hide Inv, Enabled, HasData, Started, ThreadTells, PartsAt, Step, Grown, Added;
    LegalFacts(c, as_[k - 1], w);
    HistoryGrows(c, as_[k - 1], w);
    AddedIsGrown(as_, k - 1, c);
  }

  lemma {:induction false} StepTells(as_: seq<Action>, k: nat, c: Config, w: Params)
    requires 0 < k <= |as_| && Tells(as_, k - 1, c) && Inv(c, w) && Enabled(c, as_[k - 1], w)
    ensures w.Valid() && Tells(as_, k, Step(c, as_[k - 1], w))
  {
    hide Inv, Enabled, Step, PartsAt, HasData, Name, History, ThreadTells;
    LegalFacts(c, as_[k - 1], w);
    StepFollows(c, as_[k - 1], w);
    ThreadsTellNext(as_, k, c, w);
    HistoryNext(as_, k, c, w);
  }

  lemma {:induction false} LegalUpTo(as_: seq<Action>, k: nat, w: Params)
    requires w.Valid() && Legal(as_, w) && k <= |as_|
    ensures Legal(as_[..k], w)
    ensures k < |as_| ==> Enabled(Run(as_[..k], w), as_[k], w)
  {
    hide Enabled, Run;
    if k < |as_| {
      var front := as_[..|as_| - 1];
      assert front[..k] == as_[..k];
      if k < |front| { assert front[k] == as_[k]; }
      LegalUpTo(front, k, w);
    } else {
      assert as_[..k] == as_;
    }
  }

  lemma {:induction false} RunTells(as_: seq<Action>, k: nat, w: Params)
    requires w.Valid() && Legal(as_, w) && k <= |as_|
    ensures Tells(as_, k, Run(as_[..k], w))
  {
    hide Tells, Step, Enabled, Legal, Inv;
    if k == 0 {
      NothingTells(as_);
    } else {
      RunTells(as_, k - 1, w);
      LegalUpTo(as_, k - 1, w);
      RunKeeps(as_[..k - 1], w);
      assert as_[..k][..k - 1] == as_[..k - 1];
      StepTells(as_, k, Run(as_[..k - 1], w), w);
    }
  }

  lemma NothingTells(as_: seq<Action>)
    ensures Tells(as_, 0, Initial())
  {
    forall tid: nat ensures PartsAt(Marks(as_, tid), 0, Parts(0, [])) {
      NoParts(Marks(as_, tid));
    }
  }

  // --- main results ---

  /**
   For every legal run: the history holds, in order, the accesses and kernel writes made in profiled
   code, that is while the thread concerned has an open call and none of a skipped function.
   */
  lemma {:induction false} RunFromActions(as_: seq<Action>, w: Params)
    requires w.Valid() && Legal(as_, w)
    ensures var c := Run(as_, w);
      && c.current == Running(as_, |as_|)
      && c.history == History(as_, |as_|)
      && forall tid :: tid in c.threads <==> HasData(as_, |as_|, tid)
  {
    hide Run, Legal, HasData, History, Name, Started, ThreadTells;
    RunTells(as_, |as_|, w);
    assert as_[..|as_|] == as_;
  }

  /**
   Every thread with data has its name, and its profiled activations are its open calls below
   the first one of a skipped function, each entered after the history that precedes the call.
   */
  lemma {:induction false} ThreadFromActions(as_: seq<Action>, w: Params, tid: nat)
    requires w.Valid() && Legal(as_, w) && tid in Run(as_, w).threads
    ensures var th := Run(as_, w).threads[tid]; var o := OpenCalls(Marks(as_, tid), |as_|);
      && th.who == Name(as_, |as_|, tid)
      && |th.entries| == |th.frames| && |th.frames| + |th.hidden| == |o|
      && (forall i: nat :: i in o <==> Open(Marks(as_, tid), i, |as_|))
      && (forall x :: 0 <= x < |th.entries| ==>
            o[x] < |as_| && as_[o[x]] == Enter(false) && th.entries[x] == |History(as_, o[x])|)
      && (|th.hidden| > 0 ==> o[|th.frames|] < |as_| && as_[o[|th.frames|]] == Enter(true))
  {
    hide Run, Legal, HasData, History, Name, Open, Started, ThreadTells, Running;
    RunTells(as_, |as_|, w);
    assert as_[..|as_|] == as_;
    ToldThread(as_, tid, LookOf(Run(as_, w).threads[tid]));
  }

  lemma {:induction false} ToldThread(as_: seq<Action>, tid: nat, l: Look)
    requires ThreadTells(as_, |as_|, tid, l)
    ensures var o := OpenCalls(Marks(as_, tid), |as_|);
      && l.who == Name(as_, |as_|, tid)
      && |l.entries| == l.parts.frames && l.parts.frames + |l.parts.hidden| == |o|
      && (forall i: nat :: i in o <==> Open(Marks(as_, tid), i, |as_|))
      && (forall x :: 0 <= x < |l.entries| ==>
            o[x] < |as_| && as_[o[x]] == Enter(false) && l.entries[x] == |History(as_, o[x])|)
      && (|l.parts.hidden| > 0 ==> o[l.parts.frames] < |as_| && as_[o[l.parts.frames]] == Enter(true))
  {
    hide HasData, History, Name, Open, Started, Running;
    OpenCallsAreOpen(Marks(as_, tid), |as_|);
  }

  /**
   The counts from the actions alone: from an open profiled call upwards the partial sizes add up
   to the dynamic read memory size since the call, and those of the kernel to its part of it.
   */
  lemma {:induction false} SizesFromActions(as_: seq<Action>, w: Params, tid: nat, x: nat)
    requires w.Valid() && Legal(as_, w)
    requires tid in Run(as_, w).threads && x < |Run(as_, w).threads[tid].frames|
    ensures var frames := Run(as_, w).threads[tid].frames; var o := OpenCalls(Marks(as_, tid), |as_|);
      && x < |o| && o[x] < |as_|
      && var h, who, p := History(as_, |as_|), Name(as_, |as_|, tid), |History(as_, o[x])|;
        && Suffix(Sizes(frames), x) == DynamicSize(h, who, p)
        && Suffix(SyscallCounts(frames), x) == KernelInput(h, who, p)
  {
    hide Run, Legal, HasData, History, Name, Open, Suffix, DynamicSize, KernelInput, ThreadInput, Marks, Running;
    RunFromActions(as_, w);
    ThreadFromActions(as_, w, tid);
    SizesAreExact(as_, w, tid, x);
  }
}
