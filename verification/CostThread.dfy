/**
 The cost side of one thread as it is updated in place, with the tuples that the report
 is made of. Tuples hold 64-bit words; the clock is unbounded and must fit one at an exit.
 */
module CostThreads {
  import opened Common
  import opened Cost

  // One tuple of a routine: the costs of its calls with one input size.
  datatype Input = Input(
    calls: nat,
    minCumulativeCost: nat, maxCumulativeCost: nat, sumCumulativeCost: nat, sqrCumulativeCost: nat,
    minSelfCost: nat, maxSelfCost: nat, sumSelfCost: nat, sqrSelfCost: nat,
    sumCumulRealCost: nat)

  const ULONG_MAX: nat := 0xFFFF_FFFF_FFFF_FFFF

  // Unsigned 64-bit arithmetic.
  function Word(x: int): (w: nat)
    ensures w <= ULONG_MAX && (0 <= x <= ULONG_MAX ==> w == x)
  {
    x % (ULONG_MAX + 1)
  }

  lemma WordSum(x: int, y: int)
    ensures Word(Word(x) + y) == Word(x + y) && Word(Word(x) + Word(y)) == Word(x + y)
  {
    var m := ULONG_MAX + 1;
    assert x == (x / m) * m + x % m && y == (y / m) * m + y % m;
    Multiple(x % m + y, x / m);
    Multiple(x % m + y % m, x / m + y / m);
  }

  lemma Multiple(a: int, q: int)
    ensures (a + q * (ULONG_MAX + 1)) % (ULONG_MAX + 1) == a % (ULONG_MAX + 1)
  {
  }

  function NewInput(): Input {
    Input(0, ULONG_MAX, 0, 0, 0, ULONG_MAX, 0, 0, 0, 0)
  }

  // --- a tuple against the records of its routine and input size ---

  predicate Matches(e: Record, r: nat, z: nat) {
    e.routine == r && e.inputSize == z
  }

  function Calls(rs: seq<Record>, r: nat, z: nat): nat {
    if |rs| == 0 then 0 else Calls(rs[..|rs| - 1], r, z) + (if Matches(rs[|rs| - 1], r, z) then 1 else 0)
  }

  function SumCumul(rs: seq<Record>, r: nat, z: nat): int {
    if |rs| == 0 then 0
    else SumCumul(rs[..|rs| - 1], r, z) + (if Matches(rs[|rs| - 1], r, z) then rs[|rs| - 1].cumul else 0)
  }

  function SumSelf(rs: seq<Record>, r: nat, z: nat): int {
    if |rs| == 0 then 0
    else SumSelf(rs[..|rs| - 1], r, z) + (if Matches(rs[|rs| - 1], r, z) then rs[|rs| - 1].self else 0)
  }

  function SumSqrCumul(rs: seq<Record>, r: nat, z: nat): int {
    if |rs| == 0 then 0
    else SumSqrCumul(rs[..|rs| - 1], r, z) + (if Matches(rs[|rs| - 1], r, z) then rs[|rs| - 1].cumul * rs[|rs| - 1].cumul else 0)
  }

  function SumSqrSelf(rs: seq<Record>, r: nat, z: nat): int {
    if |rs| == 0 then 0
    else SumSqrSelf(rs[..|rs| - 1], r, z) + (if Matches(rs[|rs| - 1], r, z) then rs[|rs| - 1].self * rs[|rs| - 1].self else 0)
  }

  // The extremes are bounds that some record attains, as long as costs fit the word.
  ghost predicate Extremes(rs: seq<Record>, r: nat, z: nat, t: Input) {
    && (forall k :: 0 <= k < |rs| && Matches(rs[k], r, z) ==>
          && t.minCumulativeCost <= rs[k].cumul <= t.maxCumulativeCost
          && t.minSelfCost <= rs[k].self <= t.maxSelfCost)
    && (exists k :: 0 <= k < |rs| && Matches(rs[k], r, z) && rs[k].cumul == t.maxCumulativeCost)
    && (exists k :: 0 <= k < |rs| && Matches(rs[k], r, z) && rs[k].cumul == t.minCumulativeCost)
    && (exists k :: 0 <= k < |rs| && Matches(rs[k], r, z) && rs[k].self == t.maxSelfCost)
    && (exists k :: 0 <= k < |rs| && Matches(rs[k], r, z) && rs[k].self == t.minSelfCost)
  }

  ghost predicate TupleOf(rs: seq<Record>, r: nat, z: nat, t: Input) {
    && t.calls == Word(Calls(rs, r, z))
    && t.sumCumulativeCost == Word(SumCumul(rs, r, z))
    && t.sumSelfCost == Word(SumSelf(rs, r, z))
    && t.sqrCumulativeCost == Word(SumSqrCumul(rs, r, z))
    && t.sqrSelfCost == Word(SumSqrSelf(rs, r, z))
    && Extremes(rs, r, z, t)
  }

  // The update of a tuple on return, in 64-bit words.
  function Updated(t: Input, e: Record): Input
    requires e.cumul >= 0 && e.self >= 0
  {
    Input(Word(t.calls + 1),
          Min(t.minCumulativeCost, e.cumul), Max(t.maxCumulativeCost, e.cumul),
          Word(t.sumCumulativeCost + e.cumul), Word(t.sqrCumulativeCost + Word(e.cumul * e.cumul)),
          Min(t.minSelfCost, e.self), Max(t.maxSelfCost, e.self),
          Word(t.sumSelfCost + e.self), Word(t.sqrSelfCost + Word(e.self * e.self)),
          Word(t.sumCumulRealCost + (if e.outermost then e.cumul else 0)))
  }

  ghost predicate Fits(e: Record) {
    0 <= e.self <= ULONG_MAX && 0 <= e.cumul <= ULONG_MAX
  }

  lemma ExtremesStep(rs: seq<Record>, e: Record, t: Input)
    requires Fits(e)
    requires if Calls(rs, e.routine, e.inputSize) == 0 then t == NewInput() else Extremes(rs, e.routine, e.inputSize, t)
    ensures Extremes(rs + [e], e.routine, e.inputSize, Updated(t, e))
  {
    var n, u := rs + [e], Updated(t, e);
    var r, z := e.routine, e.inputSize;
    assert n[|rs|] == e;
    assert forall k :: 0 <= k < |rs| ==> n[k] == rs[k];
    NoCalls(rs, r, z);
    if Calls(rs, r, z) != 0 {
      var a :| 0 <= a < |rs| && Matches(rs[a], r, z) && rs[a].cumul == t.maxCumulativeCost;
      var b :| 0 <= b < |rs| && Matches(rs[b], r, z) && rs[b].cumul == t.minCumulativeCost;
      var c :| 0 <= c < |rs| && Matches(rs[c], r, z) && rs[c].self == t.maxSelfCost;
      var d :| 0 <= d < |rs| && Matches(rs[d], r, z) && rs[d].self == t.minSelfCost;
      assert n[a] == rs[a] && n[b] == rs[b] && n[c] == rs[c] && n[d] == rs[d];
    }
  }

  lemma ExtremesOther(rs: seq<Record>, e: Record, r: nat, z: nat, t: Input)
    requires Extremes(rs, r, z, t) && !Matches(e, r, z)
    ensures Extremes(rs + [e], r, z, t)
  {
    var n := rs + [e];
    assert forall k :: 0 <= k < |rs| ==> n[k] == rs[k];
    var a :| 0 <= a < |rs| && Matches(rs[a], r, z) && rs[a].cumul == t.maxCumulativeCost;
    var b :| 0 <= b < |rs| && Matches(rs[b], r, z) && rs[b].cumul == t.minCumulativeCost;
    var c :| 0 <= c < |rs| && Matches(rs[c], r, z) && rs[c].self == t.maxSelfCost;
    var d :| 0 <= d < |rs| && Matches(rs[d], r, z) && rs[d].self == t.minSelfCost;
    assert n[a] == rs[a] && n[b] == rs[b] && n[c] == rs[c] && n[d] == rs[d];
  }

  lemma {:induction false} SumsStep(rs: seq<Record>, e: Record)
    ensures var n, r, z := rs + [e], e.routine, e.inputSize;
      && Calls(n, r, z) == Calls(rs, r, z) + 1
      && SumCumul(n, r, z) == SumCumul(rs, r, z) + e.cumul && SumSelf(n, r, z) == SumSelf(rs, r, z) + e.self
      && SumSqrCumul(n, r, z) == SumSqrCumul(rs, r, z) + e.cumul * e.cumul
      && SumSqrSelf(n, r, z) == SumSqrSelf(rs, r, z) + e.self * e.self
  {
    assert (rs + [e])[..|rs|] == rs;
  }

  // A tuple after the call e, the first one with its input size or a later one.
  lemma {:induction false} TupleOfStep(rs: seq<Record>, e: Record, t: Input)
    requires Fits(e)
    requires if Calls(rs, e.routine, e.inputSize) == 0 then t == NewInput() else TupleOf(rs, e.routine, e.inputSize, t)
    ensures TupleOf(rs + [e], e.routine, e.inputSize, Updated(t, e))
  {
    hide Word, Extremes, Calls, SumCumul, SumSelf, SumSqrCumul, SumSqrSelf;
    var r, z := e.routine, e.inputSize;
    SumsStep(rs, e);
    NoCalls(rs, r, z);
    FitsWord(0);
    FitsWord(1);
    WordSum(Calls(rs, r, z), 1);
    WordSum(SumCumul(rs, r, z), e.cumul);
    WordSum(SumSelf(rs, r, z), e.self);
    WordSum(SumSqrCumul(rs, r, z), e.cumul * e.cumul);
    WordSum(SumSqrSelf(rs, r, z), e.self * e.self);
    ExtremesStep(rs, e, t);
  }

  lemma {:induction false} NoCalls(rs: seq<Record>, r: nat, z: nat)
    ensures Calls(rs, r, z) == 0 <==> forall k :: 0 <= k < |rs| ==> !Matches(rs[k], r, z)
    ensures Calls(rs, r, z) == 0 ==> SumCumul(rs, r, z) == SumSelf(rs, r, z) == 0
    ensures Calls(rs, r, z) == 0 ==> SumSqrCumul(rs, r, z) == SumSqrSelf(rs, r, z) == 0
  {
    if |rs| > 0 {
      var below := rs[..|rs| - 1];
      NoCalls(below, r, z);
      assert forall k :: 0 <= k < |below| ==> below[k] == rs[k];
    }
  }

  lemma SquaresStep(m: nat, x: nat, calls: nat, sqr: int)
    requires m <= x && m * m * calls <= sqr
    ensures m * m * (calls + 1) <= sqr + x * x
  {
    assert m * m <= x * m <= x * x;
  }

  lemma {:induction false} SquaresBelow(rs: seq<Record>, r: nat, z: nat, cumul: nat, self: nat)
    requires forall k :: 0 <= k < |rs| && Matches(rs[k], r, z) ==> cumul <= rs[k].cumul && self <= rs[k].self
    ensures cumul * cumul * Calls(rs, r, z) <= SumSqrCumul(rs, r, z)
    ensures self * self * Calls(rs, r, z) <= SumSqrSelf(rs, r, z)
  {
    if |rs| > 0 {
      var below, e := rs[..|rs| - 1], rs[|rs| - 1];
      assert forall k :: 0 <= k < |below| ==> below[k] == rs[k];
      SquaresBelow(below, r, z, cumul, self);
      if Matches(e, r, z) {
        SquaresStep(cumul, e.cumul, Calls(below, r, z), SumSqrCumul(below, r, z));
        SquaresStep(self, e.self, Calls(below, r, z), SumSqrSelf(below, r, z));
      }
    }
  }

  // What the code asserts of every tuple it updates, computed in words.
  predicate SquaresAsserted(t: Input) {
    Word(Word(t.minCumulativeCost * t.minCumulativeCost) * t.calls) <= t.sqrCumulativeCost
  }

  // The assertion holds as long as the sum of the squares fits the word.
  lemma {:induction false} SquaresHold(rs: seq<Record>, r: nat, z: nat, t: Input)
    requires TupleOf(rs, r, z, t) && SumSqrCumul(rs, r, z) <= ULONG_MAX
    ensures SquaresAsserted(t) && t.sqrCumulativeCost == SumSqrCumul(rs, r, z)
  {
    hide Calls, SumCumul, SumSelf, SumSqrCumul, SumSqrSelf, Word;
    var m, n := t.minCumulativeCost, Calls(rs, r, z);
    SquaresBelow(rs, r, z, m, t.minSelfCost);
    NoCalls(rs, r, z);
    InWord(m * m, n, SumSqrCumul(rs, r, z));
    FitsWord(SumSqrCumul(rs, r, z));
  }

  lemma FitsWord(x: int)
    ensures 0 <= x <= ULONG_MAX ==> Word(x) == x
  {
  }

  // No word of the left side wraps around.
  lemma InWord(q: nat, n: nat, x: nat)
    requires n > 0 && q * n <= x <= ULONG_MAX
    ensures Word(Word(q) * Word(n)) <= x
  {
    if q == 0 {
      assert Word(q) * Word(n) == 0;
    } else {
      assert q <= q * n && n <= q * n;
    }
  }

  // Beyond that it need not hold: two calls of 3037000499 and 3037000501 blocks.
  lemma SquaresWrap()
    ensures var a := Record(0, 0, 3037000499, 3037000499, true); var b := Record(0, 0, 3037000501, 3037000501, true);
      var t := Updated(Updated(NewInput(), a), b);
      TupleOf([a, b], 0, 0, t) && SumSqrCumul([a, b], 0, 0) > ULONG_MAX && !SquaresAsserted(t)
  {
    hide Extremes, Calls, SumSqrCumul;
    var a, b := Record(0, 0, 3037000499, 3037000499, true), Record(0, 0, 3037000501, 3037000501, true);
    var t := Updated(NewInput(), a);
    assert [] + [a] == [a] && [a] + [b] == [a, b];
    NoCalls([], 0, 0);
    SumsStep([], a);
    SumsStep([a], b);
    TupleOfStep([], a, NewInput());
    TupleOfStep([a], b, t);
    assert SumSqrCumul([a, b], 0, 0) == 18446744074000500002;
    assert Updated(t, b).sqrCumulativeCost == Word(18446744074000500002) == 290948386;
    assert Word(3037000499 * 3037000499) * 2 == 18446744061852498002;
  }

  // --- the real cost over all tuples of a routine ---

  ghost function SumReal(m: map<nat, Input>): int {
    if m == map[] then 0
    else
      var z :| z in m;
      m[z].sumCumulRealCost + SumReal(m - {z})
  }

  lemma {:induction false} SumRealSplit(m: map<nat, Input>, z: nat)
    requires z in m
    ensures SumReal(m) == m[z].sumCumulRealCost + SumReal(m - {z})
    decreases |m|
  {
    var y :| y in m && SumReal(m) == m[y].sumCumulRealCost + SumReal(m - {y});
    if y != z {
      SumRealSplit(m - {y}, z);
      SumRealSplit(m - {z}, y);
      assert m - {y} - {z} == m - {z} - {y};
    }
  }

  lemma SumRealUpdate(m: map<nat, Input>, z: nat, t: Input)
    ensures SumReal(m[z := t]) == SumReal(m) + t.sumCumulRealCost - (if z in m then m[z].sumCumulRealCost else 0)
  {
    var n := m[z := t];
    SumRealSplit(n, z);
    assert n - {z} == m - {z};
    if z in m {
      SumRealSplit(m, z);
    } else {
      assert m - {z} == m;
    }
  }

  lemma {:induction false} RealPositive(m: map<nat, Input>)
    ensures SumReal(m) >= 0
    decreases |m|
  {
    if m != map[] {
      var z :| z in m;
      SumRealSplit(m, z);
      RealPositive(m - {z});
    }
  }

  lemma RealBelow(m: map<nat, Input>, z: nat)
    ensures SumReal(m) >= 0 && (z in m ==> m[z].sumCumulRealCost <= SumReal(m))
  {
    RealPositive(m);
    if z in m {
      SumRealSplit(m, z);
      RealPositive(m - {z});
    }
  }

  lemma {:induction false} BusyAtMost(blocks: seq<set<nat>>, r: nat)
    ensures Busy(blocks, r) <= |blocks|
  {
    if |blocks| > 0 {
      BusyAtMost(blocks[..|blocks| - 1], r);
    }
  }

  lemma {:induction false} FirstOf(frames: seq<Activation>, r: nat) returns (i: nat)
    requires r in Routines(frames)
    ensures i < |frames| && frames[i].routine == r && First(frames, i)
  {
    i :| 0 <= i < |frames| && frames[i].routine == r;
    while !First(frames, i)
      invariant 0 <= i < |frames| && frames[i].routine == r
      decreases i
    {
      var j :| 0 <= j < i && frames[j].routine == r;
      i := j;
    }
  }

  // The time a routine was active fits the word if the clock does.
  lemma RealFits(s: State, r: nat)
    requires Inv(s)
    ensures RealCost(s.records, r) <= |s.blocks|
  {
    hide PendingInv, SelfInv, SpanInv, ClockInv;
    if r in Routines(s.frames) {
      var i := FirstOf(s.frames, r);
      BusyAtMost(s.blocks[..s.frames[i].start], r);
    } else {
      BusyAtMost(s.blocks, r);
    }
  }

  // --- the thread ---

  // A stacked activation: its routine, when it was entered, what its callees cost.
  datatype Slot = Slot(routine: nat, start: int, sumChildrenCost: int)

  function InputMap(tuples: map<nat, map<nat, Input>>, r: nat): map<nat, Input> {
    if r in tuples then tuples[r] else map[]
  }

  ghost predicate TuplesShow(tuples: map<nat, map<nat, Input>>, discardFns: set<nat>, rs: seq<Record>) {
    && (forall r :: r in discardFns ==> r !in tuples)
    && (forall r, z :: r !in discardFns ==> (z in InputMap(tuples, r) <==> Calls(rs, r, z) > 0))
    && (forall r, z :: z in InputMap(tuples, r) ==> TupleOf(rs, r, z, InputMap(tuples, r)[z]))
    && (forall r :: r !in discardFns ==> SumReal(InputMap(tuples, r)) == RealCost(rs, r))
  }

  function WithTuple(tuples: map<nat, map<nat, Input>>, r: nat, z: nat, t: Input): map<nat, map<nat, Input>> {
    tuples[r := InputMap(tuples, r)[z := t]]
  }

  function Tuple(tuples: map<nat, map<nat, Input>>, r: nat, z: nat): Input {
    if z in InputMap(tuples, r) then InputMap(tuples, r)[z] else NewInput()
  }

  lemma {:induction false} TupleStep(tuples: map<nat, map<nat, Input>>, discardFns: set<nat>, rs: seq<Record>, e: Record, r: nat, z: nat)
    requires TuplesShow(tuples, discardFns, rs) && Fits(e) && r !in discardFns
    ensures var n := if e.routine in discardFns then tuples
                     else WithTuple(tuples, e.routine, e.inputSize, Updated(Tuple(tuples, e.routine, e.inputSize), e));
      && (z in InputMap(n, r) <==> Calls(rs + [e], r, z) > 0)
      && (z in InputMap(n, r) ==> TupleOf(rs + [e], r, z, InputMap(n, r)[z]))
  {
    hide SumReal, Extremes, RealCost, Updated, Word;
    assert (rs + [e])[..|rs|] == rs;
    NoCalls(rs, r, z);
    if Matches(e, r, z) {
      assert z in InputMap(tuples, r) ==> TupleOf(rs, r, z, InputMap(tuples, r)[z]);
      TupleOfStep(rs, e, Tuple(tuples, r, z));
    } else if z in InputMap(tuples, r) {
      assert TupleOf(rs, r, z, InputMap(tuples, r)[z]);
      ExtremesOther(rs, e, r, z, InputMap(tuples, r)[z]);
    }
  }

  lemma {:induction false} TuplesStep(tuples: map<nat, map<nat, Input>>, discardFns: set<nat>, rs: seq<Record>, e: Record)
    requires TuplesShow(tuples, discardFns, rs) && Fits(e) && RealCost(rs + [e], e.routine) <= ULONG_MAX
    ensures e.routine in discardFns ==> TuplesShow(tuples, discardFns, rs + [e])
    ensures e.routine !in discardFns ==>
      TuplesShow(WithTuple(tuples, e.routine, e.inputSize, Updated(Tuple(tuples, e.routine, e.inputSize), e)),
                 discardFns, rs + [e])
  {
    hide TupleOf, Calls, SumReal;
    var n := if e.routine in discardFns then tuples
             else WithTuple(tuples, e.routine, e.inputSize, Updated(Tuple(tuples, e.routine, e.inputSize), e));
    forall r, z | r !in discardFns
      ensures z in InputMap(n, r) <==> Calls(rs + [e], r, z) > 0
      ensures z in InputMap(n, r) ==> TupleOf(rs + [e], r, z, InputMap(n, r)[z])
    {
      TupleStep(tuples, discardFns, rs, e, r, z);
    }
    forall r | r !in discardFns ensures SumReal(InputMap(n, r)) == RealCost(rs + [e], r) {
      assert (rs + [e])[..|rs|] == rs;
      if r == e.routine {
        SumRealUpdate(InputMap(tuples, r), e.inputSize, Updated(Tuple(tuples, r, e.inputSize), e));
        RealBelow(InputMap(tuples, r), e.inputSize);
        FitsWord(Tuple(tuples, r, e.inputSize).sumCumulRealCost + (if e.outermost then e.cumul else 0));
      }
    }
  }

  ghost predicate StackShows(stack: seq<Slot>, skipFns: set<nat>, s: State) {
    && |stack| == |s.frames| + |s.hidden|
    && (forall i :: 0 <= i < |s.frames| ==>
          && stack[i] == Slot(s.frames[i].routine, s.frames[i].start, s.frames[i].sumChildrenCost)
          && s.frames[i].routine !in skipFns)
    && (forall i :: 0 <= i < |s.hidden| ==>
          && stack[|s.frames| + i].start == s.hidden[i].start
          && (stack[|s.frames| + i].routine in skipFns <==> s.hidden[i].skip))
  }

  // A return inside a skipped region.
  lemma HiddenPopped(stack: seq<Slot>, skipFns: set<nat>, s: State, z: nat)
    requires StackShows(stack, skipFns, s) && s.skip > 0 && |s.hidden| > 0
    ensures var top, h := |stack| - 1, s.hidden[|s.hidden| - 1]; var n := Step(s, Exit(z));
      && stack[top].start == h.start && (stack[top].routine in skipFns <==> h.skip)
      && StackShows(stack[..top], skipFns, n)
      && n.skip == (if h.skip then s.skip - 1 else s.skip) && n.records == s.records && n.pending == s.pending
      && n.skipCost == (if h.skip then s.skipCost + (Time(s) - h.start) else s.skipCost) && n.cost == s.cost
  {
  }

  class CostThread {
    const skipFns: set<nat>
    const discardFns: set<nat>
    var cost: nat
    var skipCost: int
    var skip: int
    var stack: seq<Slot>
    var recursionPending: map<nat, int>
    var tuples: map<nat, map<nat, Input>>
    ghost var state: State

    ghost predicate Valid()
      reads this
    {
      && Inv(state)
      && cost == state.cost && skipCost == state.skipCost && skip == state.skip
      && recursionPending == state.pending
      && StackShows(stack, skipFns, state)
      && TuplesShow(tuples, discardFns, state.records)
    }

    constructor (skipFns: set<nat>, discardFns: set<nat>)
      ensures Valid() && state == Initial()
      ensures this.skipFns == skipFns && this.discardFns == discardFns
    {
      hide Inv, TuplesShow;
      this.skipFns, this.discardFns := skipFns, discardFns;
      cost, skipCost, skip, stack := 0, 0, 0, [];
      recursionPending, tuples := map[], map[];
      state := Initial();
      new;
      InitialInv();
      NoTuples(discardFns);
    }

    lemma NoTuples(discardFns: set<nat>)
      ensures TuplesShow(map[], discardFns, [])
    {
      hide TupleOf;
    }

    /** increase_cost: one basic block of the thread. */
    method BasicBlock()
      requires Valid()
      modifies this`cost, this`state
      ensures Valid() && state == Step(old(state), Block)
    {
      hide Inv, TuplesShow;
      StepKeeps(state, Block);
      cost := cost + 1;
      state := Step(state, Block);
    }

    /** The cost part of function_enter. */
    method FunctionEnter(r: nat)
      requires Valid()
      modifies this
      ensures Valid() && state == Step(old(state), Enter(r, r in skipFns))
      ensures tuples == old(tuples)
    {
      hide Inv, TuplesShow, Routines;
      StepKeeps(state, Enter(r, r in skipFns));
      SkipSign(state);
      var start := cost - skipCost;
      if r in skipFns {
        skip := skip + 1;
      } else if skip == 0 {
        recursionPending := recursionPending[r := (if r in recursionPending then recursionPending[r] else 0) + 1];
      }
      stack := stack + [Slot(r, start, 0)];
      state := Step(state, Enter(r, r in skipFns));
    }

    lemma SkipSign(s: State)
      requires Inv(s)
      ensures s.skip > 0 <==> |s.hidden| > 0
      ensures s.skip >= 0
    {
      hide SpanInv, SelfInv, PendingInv, RealInv;
      SkipCountPositive(s.hidden);
    }

    // Costs fit the 64-bit word as long as the number of blocks does.
    lemma RecordFits(inputSize: nat)
      requires Valid() && |state.hidden| == 0 && |state.frames| > 0 && cost <= ULONG_MAX
      ensures Fits(TopRecord(state, inputSize))
    {
      hide RealInv, PendingInv, TuplesShow;
      SelfCostsAddUp(state, inputSize);
    }

    lemma RealWithin(inputSize: nat)
      requires Valid() && |state.hidden| == 0 && |state.frames| > 0 && cost <= ULONG_MAX
      ensures var e := TopRecord(state, inputSize); RealCost(state.records + [e], e.routine) <= ULONG_MAX
    {
      hide RealInv, PendingInv, SelfInv, SpanInv, TuplesShow, RealCost;
      SkipSign(state);
      StepKeeps(state, Exit(inputSize));
      RealFits(Step(state, Exit(inputSize)), TopRecord(state, inputSize).routine);
    }

    /** function_exit of an activation that is not profiled. */
    method ExitHidden(inputSize: nat)
      requires Valid() && |stack| > 0 && skip > 0
      modifies this
      ensures Valid() && state == Step(old(state), Exit(inputSize))
    {
      hide Inv, TuplesShow, StackShows, Step;
      StepKeeps(state, Exit(inputSize));
      SkipSign(state);
      HiddenPopped(stack, skipFns, state, inputSize);
      var top := |stack| - 1;
      var act := stack[top];
      var cumul := (cost - skipCost) - act.start;
      if act.routine in skipFns {
        skip := skip - 1;
        skipCost := skipCost + cumul;
      }
      stack := stack[..top];
      state := Step(state, Exit(inputSize));
    }

    /** The part of function_exit that updates the tuple of the routine and input size. */
    method Collect(record: Record)
      requires TuplesShow(tuples, discardFns, state.records) && Fits(record)
      requires RealCost(state.records + [record], record.routine) <= ULONG_MAX
      modifies this`tuples
      ensures TuplesShow(tuples, discardFns, state.records + [record])
    {
      hide TuplesShow, Updated, WithTuple, Tuple;
      TuplesStep(tuples, discardFns, state.records, record);
      if record.routine !in discardFns {
        tuples := WithTuple(tuples, record.routine, record.inputSize,
                            Updated(Tuple(tuples, record.routine, record.inputSize), record));
      }
    }

    /** function_exit. */
    method FunctionExit(inputSize: nat)
      requires Valid() && |stack| > 0 && cost <= ULONG_MAX
      modifies this
      ensures Valid() && state == Step(old(state), Exit(inputSize))
    {
      hide Inv, TuplesShow, Fits, RealCost;
      SkipSign(state);
      if skip > 0 {
        ExitHidden(inputSize);
        return;
      }
      StepKeeps(state, Exit(inputSize));
      RecordFits(inputSize);
      RealWithin(inputSize);
      var top := |stack| - 1;
      var act := stack[top];
      var cumul := (cost - skipCost) - act.start;
      var self := cumul - act.sumChildrenCost;
      var pending := (if act.routine in recursionPending then recursionPending[act.routine] else 0) - 1;
      recursionPending := recursionPending[act.routine := pending];
      Collect(Record(act.routine, inputSize, cumul, self, pending < 1));
      if top > 0 {
        stack := stack[top - 1 := stack[top - 1].(sumChildrenCost := stack[top - 1].sumChildrenCost + cumul)];
      }
      stack := stack[..top];
      state := Step(state, Exit(inputSize));
    }
  }
}
