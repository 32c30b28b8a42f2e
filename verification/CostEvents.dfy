module CostEvents {
  // Costs told from the events alone: a block counts when no call of a skipped function is open,
  // the cumulative cost of a call is the blocks since its entry that count, and its self cost
  // those of them during which it is the innermost open call.

  import opened CallMatching
  import opened Cost

  // --- what the events say ---

  function MarkOf(e: Event): Mark {
    match e
    case Block => Other
    case Enter(_, skip) => Call(skip)
    case Exit(_) => Return
  }

  function Marks(es: seq<Event>): (ms: seq<Mark>)
    ensures |ms| == |es|
  {
    seq(|es|, k requires 0 <= k < |es| => MarkOf(es[k]))
  }

  // Event k is a block that counts.
  ghost predicate Counts(es: seq<Event>, k: nat) {
    k < |es| && es[k] == Block && !Skipped(Marks(es), k)
  }

  // The routines of the calls open at k.
  ghost function Active(es: seq<Event>, k: nat): set<nat>
    requires k <= |es|
  {
    set i: nat | i < k && es[i].Enter? && Open(Marks(es), i, k) :: es[i].routine
  }

  // For every block that counts among the first k events, the routines active then.
  ghost function Blocks(es: seq<Event>, k: nat): seq<set<nat>>
    requires k <= |es|
  {
    if k == 0 then []
    else Blocks(es, k - 1) + (if Counts(es, k - 1) then [Active(es, k - 1)] else [])
  }

  // The blocks that count from event i on, and those with the call at i innermost.
  ghost function BlocksSince(es: seq<Event>, i: nat, k: nat): set<nat> {
    set j: nat | i <= j < k && Counts(es, j)
  }

  ghost predicate Innermost(es: seq<Event>, i: nat, j: nat)
    requires j <= |es|
  {
    Open(Marks(es), i, j) && forall m: nat :: i < m < j ==> !Open(Marks(es), m, j)
  }

  ghost function OwnBlocks(es: seq<Event>, i: nat, k: nat): set<nat>
    requires k <= |es|
  {
    set j: nat | i < j < k && Counts(es, j) && Innermost(es, i, j)
  }

  lemma {:induction false} BlocksCounted(es: seq<Event>, i: nat, k: nat)
    requires i <= k <= |es|
    ensures |Blocks(es, k)| == |Blocks(es, i)| + |BlocksSince(es, i, k)|
  {
    if i < k {
      BlocksCounted(es, i, k - 1);
      assert BlocksSince(es, i, k) == BlocksSince(es, i, k - 1) + (if Counts(es, k - 1) then {k - 1} else {});
    } else {
      assert BlocksSince(es, i, k) == {};
    }
  }

  // --- the accounting against the events ---

  function SkipsOf(h: seq<Hidden>): (r: seq<bool>)
    ensures |r| == |h|
  {
    seq(|h|, i requires 0 <= i < |h| => h[i].skip)
  }

  function PartsOf(s: State): Parts {
    Parts(|s.frames|, SkipsOf(s.hidden))
  }

  ghost predicate Tells(es: seq<Event>, k: nat, s: State)
    requires k <= |es|
  {
    var o := OpenCalls(Marks(es), k);
    && PartsAt(Marks(es), k, PartsOf(s))
    && s.blocks == Blocks(es, k)
    && FramesTell(es, o, s.frames)
  }

  // The time between the entries of a call and of the next one, without that of its callees,
  // are its own blocks.
  ghost predicate OwnTells(es: seq<Event>, k: nat, s: State)
    requires k <= |es|
  {
    var o := OpenCalls(Marks(es), k);
    && |s.frames| <= |o|
    && forall x :: 0 <= x < |s.frames| ==>
      Left(s, x) - s.frames[x].start - s.frames[x].sumChildrenCost == |OwnBlocks(es, o[x], k)|
  }

  lemma {:induction false} PartsNext(s: State, e: Event)
    requires ClockInv(s)
    ensures PartsOf(Step(s, e)) == Moved(PartsOf(s), MarkOf(e))
  {
    SkipCountPositive(s.hidden);
    SkipCountAppend([], Hidden(false, 0));
  }

  lemma {:induction false} ActiveRoutines(es: seq<Event>, k: nat, s: State)
    requires k <= |es| && Tells(es, k, s) && |s.hidden| == 0
    ensures Active(es, k) == Routines(s.frames)
  {
    hide Open, Blocks;
    var o := OpenCalls(Marks(es), k);
    OpenCallsAreOpen(Marks(es), k);
    forall r | r in Active(es, k) ensures r in Routines(s.frames) {
      var i: nat :| i < k && es[i].Enter? && Open(Marks(es), i, k) && es[i].routine == r;
      assert i in o;
      var x :| 0 <= x < |o| && o[x] == i;
      assert s.frames[x].routine == r;
    }
    forall r | r in Routines(s.frames) ensures r in Active(es, k) {
      var x :| 0 <= x < |s.frames| && s.frames[x].routine == r;
      assert o[x] in o;
    }
  }

  // The activations show the calls of a list.
  ghost predicate FramesTell(es: seq<Event>, o: seq<nat>, frames: seq<Activation>) {
    && |frames| <= |o|
    && (forall x :: 0 <= x < |frames| ==>
          o[x] < |es| && es[o[x]].Enter? && frames[x].routine == es[o[x]].routine && frames[x].start == |Blocks(es, o[x])|)
  }

  lemma {:induction false} TellsBlock(es: seq<Event>, k: nat, s: State)
    requires 0 < k <= |es| && es[k - 1] == Block && Tells(es, k - 1, s) && ClockInv(s)
    ensures Tells(es, k, Step(s, Block))
  {
    hide PartsAt, Routines, Active, Skipped, OpenCalls, FramesTell;
    var ms := Marks(es);
    SkipCountPositive(s.hidden);
    SkipCountAppend([], Hidden(false, 0));
    OpenCallsStep(ms, k);
    PartsStep(ms, k, PartsOf(s));
    PartsTell(ms, k - 1, PartsOf(s));
    if |s.hidden| == 0 { ActiveRoutines(es, k - 1, s); }
  }

  lemma {:induction false} TellsEnter(es: seq<Event>, k: nat, s: State)
    requires 0 < k <= |es| && es[k - 1].Enter? && Tells(es, k - 1, s) && ClockInv(s)
    ensures Tells(es, k, Step(s, es[k - 1]))
  {
    hide Active, Skipped, Moved, PartsAt, OpenCalls, FramesTell;
    var ms := Marks(es);
    SkipCountPositive(s.hidden);
    SkipCountAppend([], Hidden(false, 0));
    PartsNext(s, es[k - 1]);
    PartsStep(ms, k, PartsOf(s));
    OpenCallsStep(ms, k);
    PartsLength(ms, k - 1, PartsOf(s));
    FramesPush(es, OpenCalls(ms, k - 1), s.frames, k - 1, Activation(es[k - 1].routine, Time(s), 0, |s.records|));
  }

  lemma FramesPush(es: seq<Event>, o: seq<nat>, frames: seq<Activation>, k: nat, a: Activation)
    requires FramesTell(es, o, frames) && k < |es| && es[k].Enter?
    ensures FramesTell(es, o + [k], frames)
    ensures |frames| == |o| && a.routine == es[k].routine && a.start == |Blocks(es, k)| ==> FramesTell(es, o + [k], frames + [a])
  {
    hide Blocks;
  }

  // What a return leaves of blocks and activations.
  lemma {:induction false} ExitParts(s: State, z: nat)
    requires ClockInv(s)
    ensures var n := Step(s, Exit(z));
      && n.blocks == s.blocks
      && n.frames == if |s.hidden| == 0 && |s.frames| > 0
                     then Charged(s.frames, Time(s) - s.frames[|s.frames| - 1].start) else s.frames
  {
    hide Charged;
    SkipCountPositive(s.hidden);
    SkipCountAppend([], Hidden(false, 0));
  }

  lemma {:induction false} TellsExit(es: seq<Event>, k: nat, s: State)
    requires 0 < k <= |es| && es[k - 1].Exit? && Tells(es, k - 1, s) && ClockInv(s)
    ensures Tells(es, k, Step(s, es[k - 1]))
  {
    hide Active, Skipped, Moved, PartsAt, OpenCalls, FramesTell, Charged, Step, ClockInv;
    var ms, o := Marks(es), OpenCalls(Marks(es), k - 1);
    ExitParts(s, es[k - 1].inputSize);
    PartsNext(s, es[k - 1]);
    PartsStep(ms, k, PartsOf(s));
    OpenCallsStep(ms, k);
    PartsLength(ms, k - 1, PartsOf(s));
    if |s.hidden| == 0 && |s.frames| > 0 {
      FramesCharged(es, o, s.frames, Time(s) - s.frames[|s.frames| - 1].start);
    } else if |o| > 0 {
      FramesPop(es, o, s.frames);
    }
  }

  lemma FramesPop(es: seq<Event>, o: seq<nat>, frames: seq<Activation>)
    requires FramesTell(es, o, frames)
    ensures |frames| < |o| ==> FramesTell(es, o[..|o| - 1], frames)
  {
    hide Blocks;
  }

  lemma ChargedKeeps(frames: seq<Activation>, cumul: int)
    requires |frames| > 0
    ensures var t := Charged(frames, cumul);
      forall x :: 0 <= x < |t| ==> t[x].routine == frames[x].routine && t[x].start == frames[x].start
  {
  }

  lemma FramesCharged(es: seq<Event>, o: seq<nat>, frames: seq<Activation>, cumul: int)
    requires FramesTell(es, o, frames) && |frames| > 0
    ensures |frames| == |o| ==> FramesTell(es, o[..|o| - 1], Charged(frames, cumul))
  {
    hide Blocks, Charged;
    ChargedKeeps(frames, cumul);
  }

  lemma {:induction false} StepTells(es: seq<Event>, k: nat, s: State)
    requires 0 < k <= |es| && Tells(es, k - 1, s) && ClockInv(s)
    ensures Tells(es, k, Step(s, es[k - 1]))
  {
    hide Tells, Step, ClockInv;
    match es[k - 1]
    case Block => TellsBlock(es, k, s);
    case Enter(_, _) => TellsEnter(es, k, s);
    case Exit(_) => TellsExit(es, k, s);
  }

  lemma NothingTells(es: seq<Event>)
    ensures Tells(es, 0, Run([])) && OwnTells(es, 0, Run([]))
  {
    NoParts(Marks(es));
  }

  lemma {:induction false} RunTells(es: seq<Event>, k: nat)
    requires k <= |es|
    ensures Tells(es, k, Run(es[..k]))
  {
    hide Tells, Step, Inv, ClockInv, PendingInv;
    if k == 0 {
      assert es[..0] == [];
      NothingTells(es);
    } else {
      RunTells(es, k - 1);
      RunClock(es[..k - 1]);
      assert es[..k][..k - 1] == es[..k - 1];
      StepTells(es, k, Run(es[..k - 1]));
    }
  }

  lemma RunClock(es: seq<Event>)
    ensures ClockInv(Run(es)) && PendingInv(Run(es)) && Inv(Run(es))
  {
    hide ClockInv, PendingInv, SpanInv, SelfInv, RealInv;
    RunKeeps(es);
  }

  // --- self costs ---

  lemma {:induction false} InnermostIsLast(es: seq<Event>, k: nat, i: nat)
    requires k <= |es|
    ensures var o := OpenCalls(Marks(es), k); Innermost(es, i, k) <==> |o| > 0 && o[|o| - 1] == i
  {
    hide Open, OpenCalls;
    var o := OpenCalls(Marks(es), k);
    OpenCallsAreOpen(Marks(es), k);
    if Innermost(es, i, k) {
      assert o[|o| - 1] in o;
    }
    if |o| > 0 && o[|o| - 1] == i {
      assert i in o;
      forall m: nat | i < m < k ensures !Open(Marks(es), m, k) {
        assert m !in o;
      }
    }
  }

  lemma {:induction false} OwnBlocksStep(es: seq<Event>, i: nat, k: nat)
    requires i < k <= |es|
    ensures |OwnBlocks(es, i, k)| == |OwnBlocks(es, i, k - 1)|
      + (if i < k - 1 && Counts(es, k - 1) && Innermost(es, i, k - 1) then 1 else 0)
  {
    hide Counts, Innermost;
    var more: set<nat> := if i < k - 1 && Counts(es, k - 1) && Innermost(es, i, k - 1) then {k - 1} else {};
    assert OwnBlocks(es, i, k) == OwnBlocks(es, i, k - 1) + more;
  }

  lemma {:induction false} LeftAfterBlock(s: State, x: nat)
    requires ClockInv(s) && x < |s.frames|
    ensures |Step(s, Block).frames| == |s.frames|
    ensures Left(Step(s, Block), x) == Left(s, x) + (if x == |s.frames| - 1 && |s.hidden| == 0 then 1 else 0)
  {
    SkipCountPositive(s.hidden);
    SkipCountAppend([], Hidden(false, 0));
  }

  lemma {:induction false} OwnBlock(es: seq<Event>, k: nat, s: State)
    requires 0 < k <= |es| && es[k - 1] == Block && Tells(es, k - 1, s) && OwnTells(es, k - 1, s) && ClockInv(s)
    ensures OwnTells(es, k, Step(s, Block))
  {
    hide OwnBlocks, Innermost, Skipped, Blocks, Step, ClockInv, Left;
    var o, n := OpenCalls(Marks(es), k - 1), Step(s, Block);
    PartsTell(Marks(es), k - 1, PartsOf(s));
    SameOpen(es, k);
    BlockFrames(s);
    forall x | 0 <= x < |n.frames|
      ensures Left(n, x) - n.frames[x].start - n.frames[x].sumChildrenCost == |OwnBlocks(es, o[x], k)|
    {
      LeftAfterBlock(s, x);
      OwnBlocksStep(es, o[x], k);
      InnermostIsLast(es, k - 1, o[x]);
      assert x < |o| - 1 ==> o[x] < o[|o| - 1];
    }
  }

  lemma BlockFrames(s: State)
    ensures Step(s, Block).frames == s.frames
  {
  }

  lemma SameOpen(es: seq<Event>, k: nat)
    requires 0 < k <= |es| && es[k - 1] == Block
    ensures OpenCalls(Marks(es), k) == OpenCalls(Marks(es), k - 1)
  {
  }

  // A call or a return adds no block.
  lemma NoBlock(es: seq<Event>, i: nat, k: nat)
    requires i < k <= |es| && es[k - 1] != Block
    ensures |OwnBlocks(es, i, k)| == |OwnBlocks(es, i, k - 1)|
    ensures i == k - 1 ==> |OwnBlocks(es, i, k)| == 0
  {
    hide Innermost;
    OwnBlocksStep(es, i, k);
    if i == k - 1 {
      assert OwnBlocks(es, i, k) == {};
    }
  }

  lemma {:induction false} OwnEnter(es: seq<Event>, k: nat, s: State)
    requires 0 < k <= |es| && es[k - 1].Enter? && Tells(es, k - 1, s) && OwnTells(es, k - 1, s) && ClockInv(s)
    ensures OwnTells(es, k, Step(s, es[k - 1]))
  {
    hide OwnBlocks, Innermost, Skipped, Blocks;
    var o, p, n := OpenCalls(Marks(es), k - 1), OpenCalls(Marks(es), k), Step(s, es[k - 1]);
    SkipCountPositive(s.hidden);
    forall x | 0 <= x < |n.frames|
      ensures Left(n, x) - n.frames[x].start - n.frames[x].sumChildrenCost == |OwnBlocks(es, p[x], k)|
    {
      NoBlock(es, p[x], k);
    }
  }

  // A return leaves the time a caller spent by itself as it was.
  lemma {:induction false} LeftAfterExit(s: State, z: nat, x: nat)
    requires ClockInv(s) && x < |Step(s, Exit(z)).frames|
    ensures var n := Step(s, Exit(z));
      && x < |s.frames|
      && Left(n, x) - n.frames[x].start - n.frames[x].sumChildrenCost
           == Left(s, x) - s.frames[x].start - s.frames[x].sumChildrenCost
  {
    SkipCountPositive(s.hidden);
    SkipCountAppend([], Hidden(false, 0));
  }

  lemma {:induction false} FramesAfterExit(s: State, z: nat)
    requires ClockInv(s)
    ensures |Step(s, Exit(z)).frames| == if |s.hidden| == 0 && |s.frames| > 0 then |s.frames| - 1 else |s.frames|
  {
    SkipCountPositive(s.hidden);
    SkipCountAppend([], Hidden(false, 0));
  }

  lemma {:induction false} OwnExit(es: seq<Event>, k: nat, s: State)
    requires 0 < k <= |es| && es[k - 1].Exit? && Tells(es, k - 1, s) && OwnTells(es, k - 1, s) && ClockInv(s)
    ensures OwnTells(es, k, Step(s, es[k - 1]))
  {
    hide OwnBlocks, Blocks, Step, ClockInv, Left, OpenCalls, PartsOfList;
    var o, p, n := OpenCalls(Marks(es), k - 1), OpenCalls(Marks(es), k), Step(s, es[k - 1]);
    OpenCallsStep(Marks(es), k);
    PartsLength(Marks(es), k - 1, PartsOf(s));
    FramesAfterExit(s, es[k - 1].inputSize);
    forall x | 0 <= x < |n.frames|
      ensures Left(n, x) - n.frames[x].start - n.frames[x].sumChildrenCost == |OwnBlocks(es, p[x], k)|
    {
      LeftAfterExit(s, es[k - 1].inputSize, x);
      NoBlock(es, o[x], k);
    }
  }

  lemma {:induction false} StepOwn(es: seq<Event>, k: nat, s: State)
    requires 0 < k <= |es| && Tells(es, k - 1, s) && OwnTells(es, k - 1, s) && ClockInv(s)
    ensures OwnTells(es, k, Step(s, es[k - 1]))
  {
    hide Tells, OwnTells, Step, ClockInv;
    match es[k - 1]
    case Block => OwnBlock(es, k, s);
    case Enter(_, _) => OwnEnter(es, k, s);
    case Exit(_) => OwnExit(es, k, s);
  }

  lemma {:induction false} RunOwn(es: seq<Event>, k: nat)
    requires k <= |es|
    ensures OwnTells(es, k, Run(es[..k]))
  {
    hide Tells, OwnTells, Step, Inv, ClockInv, PendingInv;
    if k == 0 {
      assert es[..0] == [];
      NothingTells(es);
    } else {
      RunOwn(es, k - 1);
      RunTells(es, k - 1);
      RunClock(es[..k - 1]);
      assert es[..k][..k - 1] == es[..k - 1];
      StepOwn(es, k, Run(es[..k - 1]));
    }
  }

  // --- main results ---

  /**
   The profiled time is the number of blocks with no call of a skipped function open, and
   element by element the list of blocks holds the routines that were active at each of them.
   */
  lemma {:induction false} TimeFromEvents(es: seq<Event>, k: nat)
    requires k < |es|
    ensures Cost.Profiled(Run(es)) == |BlocksSince(es, 0, |es|)|
    ensures Counts(es, k) ==>
      |BlocksSince(es, 0, k)| < |Run(es).blocks| && Run(es).blocks[|BlocksSince(es, 0, k)|] == Active(es, k)
  {
    hide Run, Blocks, BlocksSince, Skipped, Active;
    RunTells(es, |es|);
    assert es[..|es|] == es;
    BlocksCounted(es, 0, |es|);
    BlocksCounted(es, 0, k);
    NoBlocks(es);
    if Counts(es, k) { BlockAt(es, k, |es|); }
  }

  lemma NoBlocks(es: seq<Event>)
    ensures Blocks(es, 0) == []
  {
  }

  lemma {:induction false} BlockAt(es: seq<Event>, j: nat, k: nat)
    requires j < k <= |es| && Counts(es, j)
    ensures |Blocks(es, j)| < |Blocks(es, k)| && Blocks(es, k)[|Blocks(es, j)|] == Active(es, j)
    decreases k
  {
    hide Counts, Active;
    if j < k - 1 { BlockAt(es, j, k - 1); }
  }

  /**
   A return yields a record just when the events are profiled there. It belongs to the innermost
   open call: its cumulative cost is the blocks that count since the call, its self cost those of
   them with that call innermost, and it is outermost when no other open call is of its routine.
   */
  lemma {:induction false} RecordFromEvents(es: seq<Event>, z: nat, i: nat)
    requires CallMatching.Profiled(Marks(es), |es|) && Innermost(es, i, |es|)
    ensures i < |es| && es[i].Enter?
    ensures var n := Run(es + [Exit(z)]).records; var was := Run(es).records;
      && |n| == |was| + 1 && n[..|was|] == was
      && var r := n[|was|];
        && r.routine == es[i].routine && r.inputSize == z
        && r.cumul == |BlocksSince(es, i, |es|)|
        && r.self == |OwnBlocks(es, i, |es|)|
        && (r.outermost <==>
              forall m: nat :: m < |es| && m != i && es[m].Enter? && Open(Marks(es), m, |es|) ==> es[m].routine != es[i].routine)
  {
    hide Run, BlocksSince, OwnBlocks, Open, Charged, Pending, CallMatching.Profiled, Tells, OwnTells, Inv, ClockInv, PendingInv;
    var k, s := |es|, Run(es);
    RunTells(es, k);
    RunOwn(es, k);
    assert es[..k] == es;
    RunClock(es);
    TopTells(es, s, i);
    BlocksCounted(es, i, k);
    ExitRun(es, z);
    OnlyOne(es, s, i);
  }

  // What the running activation says of the innermost open call.
  lemma {:induction false} TopTells(es: seq<Event>, s: State, i: nat)
    requires Tells(es, |es|, s) && OwnTells(es, |es|, s) && ClockInv(s)
    requires CallMatching.Profiled(Marks(es), |es|) && Innermost(es, i, |es|)
    ensures |s.hidden| == 0 && |s.frames| > 0 && i < |es| && es[i].Enter? && s.skip <= 0
    ensures var top := s.frames[|s.frames| - 1]; var n := |Blocks(es, |es|)|;
      && top.routine == es[i].routine && top.start == |Blocks(es, i)| && Time(s) == n
      && n - top.start - top.sumChildrenCost == |OwnBlocks(es, i, |es|)|
  {
    hide Blocks, OwnBlocks, Innermost, CallMatching.Profiled, PartsOfList, OpenCalls;
    PartsTell(Marks(es), |es|, PartsOf(s));
    PartsLength(Marks(es), |es|, PartsOf(s));
    InnermostIsLast(es, |es|, i);
    SkipCountAppend([], Hidden(false, 0));
  }

  lemma ExitRun(es: seq<Event>, z: nat)
    requires |Run(es).frames| > 0 && Run(es).skip <= 0
    ensures Run(es + [Exit(z)]).records == Run(es).records + [TopRecord(Run(es), z)]
  {
    assert (es + [Exit(z)])[..|es|] == es;
  }

  lemma {:induction false} OnlyOne(es: seq<Event>, s: State, i: nat)
    requires Tells(es, |es|, s) && PendingInv(s) && |s.hidden| == 0 && |s.frames| > 0 && Innermost(es, i, |es|)
    requires i < |es| && es[i].Enter? && s.frames[|s.frames| - 1].routine == es[i].routine
    ensures Pending(s, es[i].routine) - 1 < 1 <==>
      forall m: nat :: m < |es| && m != i && es[m].Enter? && Open(Marks(es), m, |es|) ==> es[m].routine != es[i].routine
  {
    hide Open, Pending, PendingInv, Blocks;
    var o, top := OpenCalls(Marks(es), |es|), |s.frames| - 1;
    TopIsFirst(s);
    InnermostIsLast(es, |es|, i);
    OpenCallsAreOpen(Marks(es), |es|);
    if First(s.frames, top) {
      forall m: nat | m < |es| && m != i && es[m].Enter? && Open(Marks(es), m, |es|)
        ensures es[m].routine != es[i].routine
      {
        assert m in o;
        var x :| 0 <= x < |o| && o[x] == m;
      }
    } else {
      var x :| 0 <= x < top && s.frames[x].routine == s.frames[top].routine;
      assert o[x] in o && o[x] < o[top] == i;
    }
  }
}
