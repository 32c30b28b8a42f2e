module Cost {
  // Cost accounting with skipped functions: the profiled clock, the cumulative and self cost
  // of every activation, and the time a routine is active without counting recursion twice.

  // An activation on the stack; `mark` is the number of records at its entry and serves
  // the specification only.
  datatype Activation = Activation(routine: nat, start: int, sumChildrenCost: int, mark: nat)

  // An activation above a skipped function, or of one.
  datatype Hidden = Hidden(skip: bool, start: int)

  // What the return of a profiled activation yields.
  datatype Record = Record(routine: nat, inputSize: nat, cumul: int, self: int, outermost: bool)

  // `blocks` holds, for every basic block executed outside skipped functions, the
  // routines that had an activation on the stack; `records` what the returns yielded.
  // Both are the history that the specification speaks about.
  datatype State = State(
    cost: nat,
    skipCost: int,
    skip: int,
    frames: seq<Activation>,
    hidden: seq<Hidden>,
    pending: map<nat, int>,
    blocks: seq<set<nat>>,
    records: seq<Record>)

  datatype Event = Block | Enter(routine: nat, skip: bool) | Exit(inputSize: nat)

  function Initial(): State {
    State(0, 0, 0, [], [], map[], [], [])
  }

  // The profiled clock.
  function Time(s: State): int {
    s.cost - s.skipCost
  }

  function Pending(s: State, r: nat): int {
    if r in s.pending then s.pending[r] else 0
  }

  function Routines(frames: seq<Activation>): set<nat> {
    set i | 0 <= i < |frames| :: frames[i].routine
  }

  function Entered(s: State, r: nat, skip: bool): State {
    if skip || s.skip > 0 then
      s.(skip := if skip then s.skip + 1 else s.skip, hidden := s.hidden + [Hidden(skip, Time(s))])
    else
      s.(frames := s.frames + [Activation(r, Time(s), 0, |s.records|)], pending := s.pending[r := Pending(s, r) + 1])
  }

  function ExitedHidden(s: State): State
    requires |s.hidden| > 0
  {
    var h := s.hidden[|s.hidden| - 1];
    var t := s.(hidden := s.hidden[..|s.hidden| - 1]);
    if h.skip then t.(skip := s.skip - 1, skipCost := s.skipCost + (Time(s) - h.start)) else t
  }

  // The frames after the top one, which cost `cumul`, is gone.
  function Charged(frames: seq<Activation>, cumul: int): (r: seq<Activation>)
    requires |frames| > 0
    ensures |r| == |frames| - 1
  {
    var top := |frames| - 1;
    if top == 0 then []
    else frames[..top][top - 1 := frames[top - 1].(sumChildrenCost := frames[top - 1].sumChildrenCost + cumul)]
  }

  function TopRecord(s: State, inputSize: nat): Record
    requires |s.frames| > 0
  {
    var act := s.frames[|s.frames| - 1];
    var cumul := Time(s) - act.start;
    Record(act.routine, inputSize, cumul, cumul - act.sumChildrenCost, Pending(s, act.routine) - 1 < 1)
  }

  function ExitedProfiled(s: State, inputSize: nat): State
    requires |s.frames| > 0
  {
    var act := s.frames[|s.frames| - 1];
    s.(pending := s.pending[act.routine := Pending(s, act.routine) - 1],
       records := s.records + [TopRecord(s, inputSize)],
       frames := Charged(s.frames, Time(s) - act.start))
  }

  function Step(s: State, e: Event): State {
    match e
    case Block =>
      s.(cost := s.cost + 1, blocks := if s.skip > 0 then s.blocks else s.blocks + [Routines(s.frames)])
    case Enter(r, skip) => Entered(s, r, skip)
    case Exit(inputSize) =>
      if s.skip > 0 then (if |s.hidden| > 0 then ExitedHidden(s) else s)
      else if |s.frames| > 0 then ExitedProfiled(s, inputSize)
      else s
  }

  function Run(es: seq<Event>): State {
    if |es| == 0 then Initial() else Step(Run(es[..|es| - 1]), es[|es| - 1])
  }

  // --- the clock ---

  function SkipCount(h: seq<Hidden>): nat {
    if |h| == 0 then 0 else SkipCount(h[..|h| - 1]) + (if h[|h| - 1].skip then 1 else 0)
  }

  // The profiled time is the number of blocks executed outside skipped functions.
  function Profiled(s: State): nat {
    |s.blocks|
  }

  // Outside skipped functions the clock shows the profiled time. Inside, the outermost
  // one was entered at that time, and each was entered no earlier than the one outside.
  ghost predicate ClockInv(s: State) {
    && s.skip == SkipCount(s.hidden) && s.skipCost >= 0
    && (|s.hidden| == 0 ==> Time(s) == Profiled(s))
    && (|s.hidden| > 0 ==> s.hidden[0].skip && s.hidden[0].start == Profiled(s))
    && (forall i, j :: 0 <= i < j < |s.hidden| && s.hidden[i].skip && s.hidden[j].skip ==>
          s.hidden[i].start <= s.hidden[j].start)
    && (forall i :: 0 <= i < |s.hidden| && s.hidden[i].skip ==> s.hidden[i].start <= Time(s))
  }

  lemma {:induction false} SkipCountPositive(h: seq<Hidden>)
    ensures |h| > 0 && h[0].skip ==> SkipCount(h) > 0
  {
    if |h| > 1 { SkipCountPositive(h[..|h| - 1]); }
  }

  lemma {:induction false} EnteredClock(s: State, r: nat, skip: bool)
    requires ClockInv(s)
    ensures ClockInv(Entered(s, r, skip))
  {
    hide SkipCount;
    SkipCountPositive(s.hidden);
    SkipCountAppend(s.hidden, Hidden(skip, Time(s)));
  }

  lemma SkipCountAppend(h: seq<Hidden>, x: Hidden)
    ensures SkipCount(h + [x]) == SkipCount(h) + (if x.skip then 1 else 0)
    ensures |h| == 0 ==> SkipCount(h) == 0
  {
    assert (h + [x])[..|h|] == h;
  }

  lemma {:induction false} ExitedClock(s: State)
    requires ClockInv(s) && |s.hidden| > 0
    ensures ClockInv(ExitedHidden(s))
  {
    SkipCountPositive(s.hidden);
  }

  lemma {:induction false} ClockKeeps(s: State, e: Event)
    requires ClockInv(s)
    ensures ClockInv(Step(s, e))
  {
    hide Entered, ExitedHidden;
    SkipCountPositive(s.hidden);
    match e
    case Block =>
    case Enter(r, skip) => EnteredClock(s, r, skip);
    case Exit(_) => if s.skip > 0 && |s.hidden| > 0 { ExitedClock(s); }
  }

  // Leaving the outermost skipped function puts the clock back to where it was entered.
  lemma {:induction false} SkippedRegionIsFree(s: State, inputSize: nat)
    requires ClockInv(s) && |s.hidden| == 1
    ensures var n := Step(s, Exit(inputSize));
      n.skip == 0 && Time(n) == s.hidden[0].start == Profiled(s) && n.frames == s.frames && n.records == s.records
  {
    SkipCountPositive(s.hidden);
  }

  // --- costs of activations ---

  // The profiled time at which frame i was left for the frame above it, or the time now.
  function Left(s: State, i: nat): int
    requires i < |s.frames|
  {
    if i + 1 < |s.frames| then s.frames[i + 1].start else Profiled(s)
  }

  // The costs of the callees fit between the entry of a frame and that of the next one.
  ghost predicate SpanInv(s: State) {
    forall i :: 0 <= i < |s.frames| ==>
      0 <= s.frames[i].start && 0 <= s.frames[i].sumChildrenCost
      && s.frames[i].start + s.frames[i].sumChildrenCost <= Left(s, i)
  }

  lemma {:induction false} SpanKeeps(s: State, e: Event)
    requires ClockInv(s) && SpanInv(s)
    ensures SpanInv(Step(s, e))
  {
    SkipCountPositive(s.hidden);
  }

  function SelfSum(rs: seq<Record>, from: nat): int
    requires from <= |rs|
    decreases |rs|
  {
    if from == |rs| then 0 else SelfSum(rs[..|rs| - 1], from) + rs[|rs| - 1].self
  }

  function ChildrenSum(frames: seq<Activation>, i: nat): int
    requires i <= |frames|
    decreases |frames|
  {
    if i == |frames| then 0 else ChildrenSum(frames[..|frames| - 1], i) + frames[|frames| - 1].sumChildrenCost
  }

  // The self costs recorded since a frame was entered are the callee costs of that frame
  // and of those above it.
  ghost predicate SelfInv(s: State) {
    forall i :: 0 <= i < |s.frames| ==>
      s.frames[i].mark <= |s.records| && SelfSum(s.records, s.frames[i].mark) == ChildrenSum(s.frames, i)
  }

  lemma ChargedSum(frames: seq<Activation>, cumul: int, i: nat)
    requires |frames| > 0 && i < |frames| - 1
    ensures ChildrenSum(Charged(frames, cumul), i)
         == ChildrenSum(frames, i) - frames[|frames| - 1].sumChildrenCost + cumul
  {
    var r := Charged(frames, cumul);
    var below := frames[..|frames| - 1];
    assert r[..|r| - 1] == below[..|below| - 1];
  }

  lemma {:induction false} SumsBefore(rs: seq<Record>, r: Record, from: nat, frames: seq<Activation>, f: Activation, i: nat)
    requires from <= |rs| && i <= |frames|
    ensures SelfSum(rs + [r], from) == SelfSum(rs, from) + r.self
    ensures ChildrenSum(frames + [f], i) == ChildrenSum(frames, i) + f.sumChildrenCost
  {
    assert (rs + [r])[..|rs|] == rs && (frames + [f])[..|frames|] == frames;
  }

  lemma {:induction false} EnteredSelf(s: State, r: nat, skip: bool)
    requires SelfInv(s)
    ensures SelfInv(Entered(s, r, skip))
  {
    hide SelfSum, ChildrenSum;
    var n := Entered(s, r, skip);
    if !skip && s.skip <= 0 {
      var f := n.frames[|s.frames|];
      forall i | 0 <= i < |n.frames|
        ensures n.frames[i].mark <= |n.records| && SelfSum(n.records, n.frames[i].mark) == ChildrenSum(n.frames, i)
      {
        if i < |s.frames| {
          SumsBefore([], Record(0, 0, 0, 0, false), 0, s.frames, f, i);
        } else {
          NoSums(n.records, n.frames);
          SumsBefore([], Record(0, 0, 0, 0, false), 0, s.frames, f, i);
          NoSums(s.records, s.frames);
        }
      }
    }
  }

  lemma NoSums(rs: seq<Record>, frames: seq<Activation>)
    ensures SelfSum(rs, |rs|) == 0 && ChildrenSum(frames, |frames|) == 0
  {
  }

  lemma {:induction false} ExitedSelf(s: State, z: nat)
    requires SelfInv(s) && |s.frames| > 0
    ensures SelfInv(ExitedProfiled(s, z))
  {
    hide Charged;
    var n, top := ExitedProfiled(s, z), |s.frames| - 1;
    assert n.records[..|s.records|] == s.records;
    assert SelfSum(s.records, s.frames[top].mark) == ChildrenSum(s.frames, top);
    forall i | 0 <= i < |n.frames|
      ensures n.frames[i].mark <= |n.records| && SelfSum(n.records, n.frames[i].mark) == ChildrenSum(n.frames, i)
    {
      ChargedMarks(s.frames, Time(s) - s.frames[top].start, i);
      ChargedSum(s.frames, Time(s) - s.frames[top].start, i);
    }
  }

  lemma ChargedMarks(frames: seq<Activation>, cumul: int, i: nat)
    requires |frames| > 0 && i < |frames| - 1
    ensures Charged(frames, cumul)[i].mark == frames[i].mark
  {
  }

  lemma {:induction false} SelfKeeps(s: State, e: Event)
    requires SelfInv(s)
    ensures SelfInv(Step(s, e))
  {
    hide Entered, ExitedProfiled, SelfSum, ChildrenSum;
    match e
    case Block =>
    case Enter(r, skip) => EnteredSelf(s, r, skip);
    case Exit(z) => if s.skip <= 0 && |s.frames| > 0 { ExitedSelf(s, z); }
  }

  // --- time with a routine active ---

  function CountOf(frames: seq<Activation>, r: nat): nat {
    if |frames| == 0 then 0
    else CountOf(frames[..|frames| - 1], r) + (if frames[|frames| - 1].routine == r then 1 else 0)
  }

  ghost predicate PendingInv(s: State) {
    forall r :: Pending(s, r) == CountOf(s.frames, r)
  }

  lemma {:induction false} ChargedCount(frames: seq<Activation>, cumul: int, r: nat)
    requires |frames| > 0
    ensures CountOf(Charged(frames, cumul), r) == CountOf(frames[..|frames| - 1], r)
  {
    var t := Charged(frames, cumul);
    if |t| > 0 {
      assert t[..|t| - 1] == frames[..|frames| - 1][..|t| - 1];
    }
  }

  lemma {:induction false} PendingAfterExit(s: State, z: nat, r: nat)
    requires |s.frames| > 0 && Pending(s, r) == CountOf(s.frames, r)
    ensures Pending(ExitedProfiled(s, z), r) == CountOf(ExitedProfiled(s, z).frames, r)
  {
    hide Charged;
    ChargedCount(s.frames, Time(s) - s.frames[|s.frames| - 1].start, r);
  }

  lemma {:induction false} PendingAfterEnter(s: State, x: nat, skip: bool, r: nat)
    requires Pending(s, r) == CountOf(s.frames, r)
    ensures Pending(Entered(s, x, skip), r) == CountOf(Entered(s, x, skip).frames, r)
  {
    var n := Entered(s, x, skip);
    if !skip && s.skip <= 0 {
      assert n.frames[..|s.frames|] == s.frames;
    }
  }

  lemma {:induction false} PendingKeeps(s: State, e: Event)
    requires PendingInv(s)
    ensures PendingInv(Step(s, e))
  {
    hide Entered, ExitedProfiled, CountOf;
    var n := Step(s, e);
    forall r ensures Pending(n, r) == CountOf(n.frames, r) {
      assert Pending(s, r) == CountOf(s.frames, r);
      match e
      case Block =>
      case Enter(x, skip) => PendingAfterEnter(s, x, skip, r);
      case Exit(z) => if s.skip <= 0 && |s.frames| > 0 { PendingAfterExit(s, z, r); }
    }
  }

  // The number of blocks executed while routine r had an activation on the stack.
  function Busy(blocks: seq<set<nat>>, r: nat): nat {
    if |blocks| == 0 then 0
    else Busy(blocks[..|blocks| - 1], r) + (if r in blocks[|blocks| - 1] then 1 else 0)
  }

  // The cost recorded for the outermost activations of r.
  function RealCost(rs: seq<Record>, r: nat): int {
    if |rs| == 0 then 0
    else
      var last := rs[|rs| - 1];
      RealCost(rs[..|rs| - 1], r) + (if last.routine == r && last.outermost then last.cumul else 0)
  }

  // Frame i is the outermost activation of its routine.
  ghost predicate First(frames: seq<Activation>, i: nat)
    requires i < |frames|
  {
    forall j :: 0 <= j < i ==> frames[j].routine != frames[i].routine
  }

  ghost predicate RealInv(s: State) {
    && (forall r :: r !in Routines(s.frames) ==> RealCost(s.records, r) == Busy(s.blocks, r))
    && forall i :: 0 <= i < |s.frames| && First(s.frames, i) ==>
      && 0 <= s.frames[i].start <= |s.blocks|
      && RealCost(s.records, s.frames[i].routine) == Busy(s.blocks[..s.frames[i].start], s.frames[i].routine)
      && forall k :: s.frames[i].start <= k < |s.blocks| ==> s.frames[i].routine in s.blocks[k]
  }

  lemma {:induction false} BusyThroughout(blocks: seq<set<nat>>, r: nat, p: nat)
    requires p <= |blocks| && forall k :: p <= k < |blocks| ==> r in blocks[k]
    ensures Busy(blocks, r) == Busy(blocks[..p], r) + |blocks| - p
    decreases |blocks|
  {
    if p < |blocks| {
      BusyThroughout(blocks[..|blocks| - 1], r, p);
      assert blocks[..|blocks| - 1][..p] == blocks[..p];
    } else {
      assert blocks[..p] == blocks;
    }
  }

  lemma {:induction false} CountOfOne(frames: seq<Activation>, r: nat)
    ensures CountOf(frames, r) == 0 <==> r !in Routines(frames)
  {
    if |frames| > 0 {
      var below := frames[..|frames| - 1];
      CountOfOne(below, r);
      assert Routines(frames) == Routines(below) + {frames[|frames| - 1].routine};
    }
  }

  lemma ChargedRoutines(frames: seq<Activation>, cumul: int)
    requires |frames| > 0
    ensures var t := Charged(frames, cumul); var top := frames[|frames| - 1];
      && (forall i :: 0 <= i < |t| ==> t[i].routine == frames[i].routine && t[i].start == frames[i].start)
      && Routines(frames) == Routines(t) + {top.routine}
      && Routines(t) == Routines(frames[..|frames| - 1])
  {
    var t := Charged(frames, cumul);
    var below := frames[..|frames| - 1];
    assert forall i :: 0 <= i < |t| ==> t[i].routine == below[i].routine;
    assert forall i :: 0 <= i < |t| ==> t[i].routine == frames[i].routine;
    forall r | r in Routines(frames) ensures r in Routines(t) + {frames[|frames| - 1].routine} {
      var i :| 0 <= i < |frames| && frames[i].routine == r;
      if i < |t| { assert t[i].routine == r; }
    }
    forall r | r in Routines(t) ensures r in Routines(frames) {
      var i :| 0 <= i < |t| && t[i].routine == r;
      assert frames[i].routine == r;
    }
  }

  // Outermost exactly when no other activation of the routine is on the stack.
  lemma {:induction false} TopIsFirst(s: State)
    requires PendingInv(s) && |s.frames| > 0
    ensures var top := |s.frames| - 1; var r := s.frames[top].routine;
      && (Pending(s, r) - 1 < 1 <==> First(s.frames, top))
      && (Pending(s, r) - 1 < 1 <==> r !in Routines(s.frames[..top]))
  {
    var top := |s.frames| - 1;
    CountOfOne(s.frames[..top], s.frames[top].routine);
    assert Pending(s, s.frames[top].routine) == CountOf(s.frames, s.frames[top].routine);
    if !First(s.frames, top) {
      var j :| 0 <= j < top && s.frames[j].routine == s.frames[top].routine;
      assert s.frames[..top][j].routine == s.frames[top].routine;
    }
    if s.frames[top].routine in Routines(s.frames[..top]) {
      var j :| 0 <= j < top && s.frames[..top][j].routine == s.frames[top].routine;
      assert s.frames[j].routine == s.frames[top].routine;
    }
  }

  lemma {:induction false} RealKeepsBlock(s: State)
    requires RealInv(s)
    ensures RealInv(Step(s, Block))
  {
    var n := Step(s, Block);
    if s.skip <= 0 {
      assert n.blocks[..|s.blocks|] == s.blocks;
      forall i | 0 <= i < |s.frames| && First(s.frames, i)
        ensures n.blocks[..s.frames[i].start] == s.blocks[..s.frames[i].start]
        ensures s.frames[i].routine in Routines(s.frames)
      {
      }
    }
  }

  lemma {:induction false} RealKeepsEnter(s: State, r: nat, skip: bool)
    requires ClockInv(s) && RealInv(s)
    ensures RealInv(Step(s, Enter(r, skip)))
  {
    SkipCountPositive(s.hidden);
    var n := Step(s, Enter(r, skip));
    if !skip && s.skip <= 0 {
      var top := |s.frames|;
      assert n.frames[top].start == |s.blocks| && s.blocks[..|s.blocks|] == s.blocks;
      PushedRoutines(s.frames, n.frames[top]);
      forall i | 0 <= i < |n.frames| && First(n.frames, i)
        ensures i < top ==> First(s.frames, i)
        ensures i == top ==> r !in Routines(s.frames)
      {
        if i < top {
          assert forall j :: 0 <= j < i ==> n.frames[j] == s.frames[j];
        } else {
          assert forall j :: 0 <= j < top ==> n.frames[j] == s.frames[j];
        }
      }
    }
  }

  lemma PushedRoutines(frames: seq<Activation>, a: Activation)
    ensures Routines(frames + [a]) == Routines(frames) + {a.routine}
  {
    var n := frames + [a];
    assert n[|frames|] == a;
    forall x | x in Routines(frames) ensures x in Routines(n) {
      var j :| 0 <= j < |frames| && frames[j].routine == x;
      assert n[j].routine == x;
    }
  }

  // A frame below the top is the outermost of its routine as long as it stays.
  lemma FirstStays(frames: seq<Activation>, cumul: int, i: nat)
    requires |frames| > 0 && i < |Charged(frames, cumul)|
    ensures First(Charged(frames, cumul), i) <==> First(frames, i)
    ensures Charged(frames, cumul)[i].routine == frames[|frames| - 1].routine ==> !First(frames, |frames| - 1)
    ensures Charged(frames, cumul)[i].routine == frames[i].routine && Charged(frames, cumul)[i].start == frames[i].start
  {
    ChargedRoutines(frames, cumul);
    var t := Charged(frames, cumul);
    assert forall j :: 0 <= j < |t| ==> t[j].routine == frames[j].routine;
  }

  lemma {:induction false} RealKeepsExit(s: State, z: nat)
    requires ClockInv(s) && PendingInv(s) && RealInv(s)
    ensures RealInv(Step(s, Exit(z)))
  {
    SkipCountPositive(s.hidden);
    if s.skip <= 0 && |s.frames| > 0 {
      RealKeepsReturn(s, z);
    }
  }

  lemma {:induction false} RealKeepsReturn(s: State, z: nat)
    requires PendingInv(s) && |s.frames| > 0 && Time(s) == Profiled(s) && RealInv(s)
    ensures RealInv(ExitedProfiled(s, z))
  {
    hide PendingInv, Charged, First, RealCost, Busy, Routines;
    var n := ExitedProfiled(s, z);
    var top := |s.frames| - 1;
    var r := s.frames[top].routine;
    RecordedReal(s, z);
    ChargedRoutines(s.frames, Time(s) - s.frames[top].start);
    TopIsFirst(s);
    forall x | x !in Routines(n.frames) ensures RealCost(n.records, x) == Busy(n.blocks, x) {
      if x != r { assert x !in Routines(s.frames); }
    }
    forall i | 0 <= i < |n.frames| && First(n.frames, i)
      ensures 0 <= n.frames[i].start <= |n.blocks|
      ensures RealCost(n.records, n.frames[i].routine) == Busy(n.blocks[..n.frames[i].start], n.frames[i].routine)
      ensures forall k :: n.frames[i].start <= k < |n.blocks| ==> n.frames[i].routine in n.blocks[k]
    {
      FirstStays(s.frames, Time(s) - s.frames[top].start, i);
    }
  }

  lemma {:induction false} RecordedReal(s: State, z: nat)
    requires PendingInv(s) && |s.frames| > 0 && Time(s) == Profiled(s) && RealInv(s)
    ensures var n := ExitedProfiled(s, z); var top := |s.frames| - 1; var r := s.frames[top].routine;
      && (forall x :: x != r ==> RealCost(n.records, x) == RealCost(s.records, x))
      && (First(s.frames, top) ==> RealCost(n.records, r) == Busy(s.blocks, r))
      && (!First(s.frames, top) ==> RealCost(n.records, r) == RealCost(s.records, r))
  {
    hide PendingInv, CountOf, Charged;
    var n := ExitedProfiled(s, z);
    var top := |s.frames| - 1;
    assert n.records[..|s.records|] == s.records;
    TopIsFirst(s);
    if First(s.frames, top) {
      BusyThroughout(s.blocks, s.frames[top].routine, s.frames[top].start);
    }
  }

  // --- main results ---

  ghost predicate Inv(s: State) {
    ClockInv(s) && SpanInv(s) && SelfInv(s) && PendingInv(s) && RealInv(s)
  }

  lemma {:induction false} RunKeeps(es: seq<Event>)
    ensures Inv(Run(es))
  {
    hide Inv, Step;
    if |es| > 0 {
      RunKeeps(es[..|es| - 1]);
      StepKeeps(Run(es[..|es| - 1]), es[|es| - 1]);
    } else {
      InitialInv();
    }
  }

  lemma {:induction false} InitialInv()
    ensures Inv(Initial())
  {
    hide ClockInv, SpanInv, SelfInv, PendingInv, RealInv;
    var s := Initial();
    InitialClock(s);
    InitialSpans(s);
    InitialReal(s);
  }

  lemma {:induction false} InitialSpans(s: State)
    requires s == Initial()
    ensures SpanInv(s) && SelfInv(s)
  {
  }

  lemma {:induction false} InitialClock(s: State)
    requires s == Initial()
    ensures ClockInv(s)
  {
    EmptySums(0);
  }

  lemma {:induction false} InitialReal(s: State)
    requires s == Initial()
    ensures PendingInv(s) && RealInv(s)
  {
    forall r ensures RealCost(s.records, r) == Busy(s.blocks, r) && Pending(s, r) == CountOf(s.frames, r) {
      EmptySums(r);
    }
  }

  lemma EmptySums(r: nat)
    ensures SkipCount([]) == RealCost([], r) == Busy([], r) == CountOf([], r) == 0
  {
  }

  lemma {:induction false} StepKeeps(s: State, e: Event)
    requires Inv(s)
    ensures Inv(Step(s, e))
  {
    hide ClockInv, SpanInv, SelfInv, PendingInv, RealInv, Step;
    ClockKeeps(s, e);
    SpanKeeps(s, e);
    SelfKeeps(s, e);
    PendingKeeps(s, e);
    match e
    case Block => RealKeepsBlock(s);
    case Enter(r, skip) => RealKeepsEnter(s, r, skip);
    case Exit(z) => RealKeepsExit(s, z);
  }

  // When an activation returns, its own cost and those of everything it called that was
  // profiled add up to its cumulative cost, and none of them is negative.
  lemma {:induction false} SelfCostsAddUp(s: State, inputSize: nat)
    requires Inv(s) && |s.hidden| == 0 && |s.frames| > 0
    ensures var act := s.frames[|s.frames| - 1]; var r := TopRecord(s, inputSize);
      && act.mark <= |s.records|
      && r.cumul == Profiled(s) - act.start
      && r.self >= 0 && r.cumul >= 0
      && r.self + SelfSum(s.records, act.mark) == r.cumul
      && Step(s, Exit(inputSize)).records == s.records + [r]
  {
    var top := |s.frames| - 1;
    assert ChildrenSum(s.frames, top) == s.frames[top].sumChildrenCost;
  }

  // What was recorded for the outermost activations of a routine, together with the time
  // since the entry of the one still on the stack, is the profiled time during which the
  // routine was active, recursion counted once.
  lemma {:induction false} RealCostIsBusyTime(s: State, r: nat)
    requires Inv(s)
    ensures r !in Routines(s.frames) ==> RealCost(s.records, r) == Busy(s.blocks, r)
    ensures forall i :: 0 <= i < |s.frames| && First(s.frames, i) && s.frames[i].routine == r ==>
      RealCost(s.records, r) + (Profiled(s) - s.frames[i].start) == Busy(s.blocks, r)
  {
    forall i | 0 <= i < |s.frames| && First(s.frames, i) && s.frames[i].routine == r
      ensures RealCost(s.records, r) + (Profiled(s) - s.frames[i].start) == Busy(s.blocks, r)
    {
      BusyThroughout(s.blocks, r, s.frames[i].start);
    }
  }
}
