module CallMatching {
  // Which calls are open at a point of a stream of calls and returns, by matching returns with
  // calls, and which of them a skipped function hides. Nothing here refers to a stack.

  datatype Mark = Call(skip: bool) | Return | Other

  function Calls(ms: seq<Mark>, i: nat, j: nat): nat
    requires i <= j <= |ms|
    decreases j
  {
    if i == j then 0 else Calls(ms, i, j - 1) + (if ms[j - 1].Call? then 1 else 0)
  }

  function Returns(ms: seq<Mark>, i: nat, j: nat): nat
    requires i <= j <= |ms|
    decreases j
  {
    if i == j then 0 else Returns(ms, i, j - 1) + (if ms[j - 1].Return? then 1 else 0)
  }

  // No return before k matches the call at i: from i on, the calls always outnumber the returns.
  ghost predicate Open(ms: seq<Mark>, i: nat, k: nat)
    requires k <= |ms|
  {
    i < k && ms[i].Call? && forall j :: i < j <= k ==> Returns(ms, i, j) < Calls(ms, i, j)
  }

  // Some open call is one of a skipped function.
  ghost predicate Skipped(ms: seq<Mark>, k: nat)
    requires k <= |ms|
  {
    exists i: nat :: Open(ms, i, k) && ms[i].skip
  }

  // What happens at k belongs to the profile.
  ghost predicate Profiled(ms: seq<Mark>, k: nat)
    requires k <= |ms|
  {
    (exists i: nat :: Open(ms, i, k)) && !Skipped(ms, k)
  }

  // The open calls in the order of their entries.
  function OpenCalls(ms: seq<Mark>, k: nat): (r: seq<nat>)
    requires k <= |ms|
  {
    if k == 0 then []
    else
      var o := OpenCalls(ms, k - 1);
      match ms[k - 1]
      case Call(_) => o + [k - 1]
      case Return => if |o| == 0 then o else o[..|o| - 1]
      case Other => o
  }

  ghost predicate Ascending(o: seq<nat>, k: nat) {
    (forall x :: 0 <= x < |o| ==> o[x] < k) && (forall x, y :: 0 <= x < y < |o| ==> o[x] < o[y])
  }

  // Seen from an open call, the calls exceed the returns by the open calls from it upwards.
  ghost predicate Depths(ms: seq<Mark>, k: nat)
    requires k <= |ms|
  {
    var o := OpenCalls(ms, k);
    && Ascending(o, k)
    && forall x :: 0 <= x < |o| ==>
      ms[o[x]].Call? && Calls(ms, o[x], k) == Returns(ms, o[x], k) + |o| - x
  }

  lemma {:induction false} OpenStep(ms: seq<Mark>, i: nat, k: nat)
    requires 0 < k <= |ms|
    ensures Open(ms, i, k) <==>
      (i == k - 1 && ms[i].Call?) || (Open(ms, i, k - 1) && Returns(ms, i, k) < Calls(ms, i, k))
  {
    if i == k - 1 {
      assert Calls(ms, i, i) == Returns(ms, i, i) == 0;
    }
  }

  lemma {:induction false} DepthsStep(ms: seq<Mark>, k: nat)
    requires 0 < k <= |ms| && Depths(ms, k - 1)
    ensures Depths(ms, k)
  {
    hide Calls, Returns;
    var o, n := OpenCalls(ms, k - 1), OpenCalls(ms, k);
    forall x | 0 <= x < |n| ensures ms[n[x]].Call? && Calls(ms, n[x], k) == Returns(ms, n[x], k) + |n| - x {
      CountsStep(ms, n[x], k);
    }
  }

  lemma CountsStep(ms: seq<Mark>, i: nat, k: nat)
    requires i < k <= |ms|
    ensures Calls(ms, i, k) == (if i == k - 1 then 0 else Calls(ms, i, k - 1)) + (if ms[k - 1].Call? then 1 else 0)
    ensures Returns(ms, i, k) == (if i == k - 1 then 0 else Returns(ms, i, k - 1)) + (if ms[k - 1].Return? then 1 else 0)
  {
  }

  lemma {:induction false} DepthsHold(ms: seq<Mark>, k: nat)
    requires k <= |ms|
    ensures Depths(ms, k)
  {
    if k > 0 {
      hide Depths;
      DepthsHold(ms, k - 1);
      DepthsStep(ms, k);
    }
  }

  // A call that is on the list and not taken off is open, and one taken off is not.
  lemma {:induction false} OnListStep(ms: seq<Mark>, k: nat, i: nat)
    requires 0 < k <= |ms| && Depths(ms, k - 1) && Depths(ms, k)
    requires i in OpenCalls(ms, k - 1) <==> Open(ms, i, k - 1)
    ensures i in OpenCalls(ms, k) <==> Open(ms, i, k)
  {
    hide Calls, Returns, Open;
    var o, n := OpenCalls(ms, k - 1), OpenCalls(ms, k);
    OpenStep(ms, i, k);
    if i < k { CountsStep(ms, i, k); }
    if i in o {
      var x :| 0 <= x < |o| && o[x] == i;
      assert x < |n| ==> n[x] == i;
    }
  }

  /** The list holds exactly the open calls, in ascending order. */
  lemma {:induction false} OpenCallsAreOpen(ms: seq<Mark>, k: nat)
    requires k <= |ms|
    ensures Ascending(OpenCalls(ms, k), k)
    ensures forall i: nat :: i in OpenCalls(ms, k) <==> Open(ms, i, k)
  {
    hide Calls, Returns;
    DepthsHold(ms, k);
    if k > 0 {
      hide Depths, Open, OpenCalls;
      OpenCallsAreOpen(ms, k - 1);
      DepthsHold(ms, k - 1);
      forall i: nat ensures i in OpenCalls(ms, k) <==> Open(ms, i, k) {
        OnListStep(ms, k, i);
      }
    }
  }

  // --- a stack that keeps the hidden calls apart ---

  // The number of profiled calls on the stack, and for the calls above them whether each is
  // one of a skipped function.
  datatype Parts = Parts(frames: nat, hidden: seq<bool>)

  function Moved(p: Parts, m: Mark): Parts {
    match m
    case Call(skip) =>
      if skip || |p.hidden| > 0 then p.(hidden := p.hidden + [skip]) else p.(frames := p.frames + 1)
    case Return =>
      if |p.hidden| > 0 then p.(hidden := p.hidden[..|p.hidden| - 1])
      else if p.frames > 0 then p.(frames := p.frames - 1)
      else p
    case Other => p
  }

  // The parts are the calls of a list below the first skipped one, and those from it on.
  ghost predicate PartsOfList(ms: seq<Mark>, o: seq<nat>, p: Parts)
  {
    && (forall x :: 0 <= x < |o| ==> o[x] < |ms| && ms[o[x]].Call?)
    && p.frames + |p.hidden| == |o|
    && (forall x :: 0 <= x < p.frames ==> !ms[o[x]].skip)
    && (forall x :: p.frames <= x < |o| ==> p.hidden[x - p.frames] == ms[o[x]].skip)
    && (|p.hidden| > 0 ==> p.hidden[0])
  }

  ghost predicate PartsAt(ms: seq<Mark>, k: nat, p: Parts)
    requires k <= |ms|
  {
    Ascending(OpenCalls(ms, k), k) && PartsOfList(ms, OpenCalls(ms, k), p)
  }

  lemma PartsPush(ms: seq<Mark>, o: seq<nat>, p: Parts, k: nat)
    requires PartsOfList(ms, o, p) && k < |ms| && ms[k].Call?
    ensures PartsOfList(ms, o + [k], Moved(p, ms[k]))
  {
  }

  lemma PartsPop(ms: seq<Mark>, o: seq<nat>, p: Parts)
    requires PartsOfList(ms, o, p)
    ensures PartsOfList(ms, if |o| == 0 then o else o[..|o| - 1], Moved(p, Return))
  {
  }

  lemma OpenCallsStep(ms: seq<Mark>, k: nat)
    requires 0 < k <= |ms|
    ensures var o, n := OpenCalls(ms, k - 1), OpenCalls(ms, k);
      && (ms[k - 1].Call? ==> n == o + [k - 1])
      && (ms[k - 1] == Return ==> n == if |o| == 0 then o else o[..|o| - 1])
      && (ms[k - 1] == Other ==> n == o)
      && (Ascending(o, k - 1) ==> Ascending(n, k))
  {
  }

  lemma {:induction false} PartsStep(ms: seq<Mark>, k: nat, p: Parts)
    requires 0 < k <= |ms| && PartsAt(ms, k - 1, p)
    ensures PartsAt(ms, k, Moved(p, ms[k - 1]))
  {
    hide PartsOfList, OpenCalls, Ascending;
    OpenCallsStep(ms, k);
    match ms[k - 1]
    case Call(_) => PartsPush(ms, OpenCalls(ms, k - 1), p, k - 1);
    case Return => PartsPop(ms, OpenCalls(ms, k - 1), p);
    case Other =>
  }

  lemma PartsLength(ms: seq<Mark>, k: nat, p: Parts)
    requires k <= |ms| && PartsAt(ms, k, p)
    ensures |OpenCalls(ms, k)| == p.frames + |p.hidden| && Ascending(OpenCalls(ms, k), k)
  {
  }

  lemma NoParts(ms: seq<Mark>)
    ensures PartsAt(ms, 0, Parts(0, []))
  {
  }

  /** Something is profiled when some call is on the stack and none is hidden. */
  lemma {:induction false} PartsTell(ms: seq<Mark>, k: nat, p: Parts)
    requires k <= |ms| && PartsAt(ms, k, p)
    ensures Skipped(ms, k) <==> |p.hidden| > 0
    ensures Profiled(ms, k) <==> p.frames > 0 && |p.hidden| == 0
  {
    hide Open;
    var o := OpenCalls(ms, k);
    OpenCallsAreOpen(ms, k);
    if |o| > 0 { assert o[0] in o; }
    if |p.hidden| > 0 { assert o[p.frames] in o; }
    if Skipped(ms, k) {
      var i: nat :| Open(ms, i, k) && ms[i].skip;
      assert i in o;
    }
  }
}
