module Rms {
  // The read memory size of one thread: the machine that keeps one activation
  // identifier per memory granule and one partial count per stacked activation, and
  // its specification over the whole history of accesses.

  import opened ActivationStack
  import opened ShadowMap
  import opened RmsCompression

  // --- the history and what it says ---

  // A modify is a read followed by a write of the same granule, so for the history
  // it is a read; `read` is false for a plain store.
  datatype Access = Access(granule: nat, read: bool)

  // The position of the latest access to g, or -1.
  function LastAccess(h: seq<Access>, g: nat): (k: int)
    ensures -1 <= k < |h|
    ensures k >= 0 ==> h[k].granule == g
    ensures forall j :: k < j < |h| ==> h[j].granule != g
  {
    if |h| == 0 then -1
    else if h[|h| - 1].granule == g then |h| - 1
    else LastAccess(h[..|h| - 1], g)
  }

  // The granules whose first access at or after position p is a read.
  ghost function ReadFirst(h: seq<Access>, p: nat): set<nat> {
    set k | p <= k < |h| && h[k].read && FreshAt(h, p, k) :: h[k].granule
  }

  // No access to h[k]'s granule in h[p..k].
  ghost predicate FreshAt(h: seq<Access>, p: nat, k: nat)
    requires k < |h|
  {
    forall j :: p <= j < k ==> h[j].granule != h[k].granule
  }

  // The read memory size of an activation entered at position p.
  ghost function ReadMemorySize(h: seq<Access>, p: nat): nat {
    |ReadFirst(h, p)|
  }

  lemma ReadMemorySizeStep(h: seq<Access>, a: Access, p: nat)
    requires p <= |h|
    ensures ReadMemorySize(h + [a], p)
         == ReadMemorySize(h, p) + (if a.read && LastAccess(h, a.granule) < p then 1 else 0)
  {
    hide ReadFirst;
    var was, counts := ReadFirst(h, p), a.read && LastAccess(h, a.granule) < p;
    ReadFirstStep(h, a, p);
    if counts {
      ReadFirstAccessed(h, p, a.granule);
    }
  }

  lemma {:induction false} ReadFirstStep(h: seq<Access>, a: Access, p: nat)
    requires p <= |h|
    ensures ReadFirst(h + [a], p)
         == ReadFirst(h, p) + (if a.read && LastAccess(h, a.granule) < p then {a.granule} else {})
  {
    var n := h + [a];
    assert forall k :: 0 <= k < |h| ==> n[k] == h[k] && (FreshAt(n, p, k) <==> FreshAt(h, p, k));
    assert n[|h|] == a;
    var was, now := ReadFirst(h, p), ReadFirst(n, p);
    forall g | g in was ensures g in now {
      var k :| p <= k < |h| && h[k].read && FreshAt(h, p, k) && h[k].granule == g;
      assert n[k].granule == g && FreshAt(n, p, k);
    }
    FreshLast(h, a, p);
    forall g | g in now ensures g in was || (g == a.granule && a.read && FreshAt(n, p, |h|)) {
      var k :| p <= k < |n| && n[k].read && FreshAt(n, p, k) && n[k].granule == g;
    }
  }

  // The new access is the first since p if there was none before.
  lemma FreshLast(h: seq<Access>, a: Access, p: nat)
    requires p <= |h|
    ensures FreshAt(h + [a], p, |h|) <==> LastAccess(h, a.granule) < p
  {
    var k := LastAccess(h, a.granule);
    assert forall j :: 0 <= j < |h| ==> (h + [a])[j] == h[j];
    if k >= p { assert (h + [a])[k].granule == a.granule; }
  }

  lemma ReadFirstAccessed(h: seq<Access>, p: nat, g: nat)
    requires LastAccess(h, g) < p
    ensures g !in ReadFirst(h, p)
  {
  }

  // --- the machine ---

  // The first identifier that does not fit in the word, and the number of granules
  // in a segment of shadow memory.
  datatype Params = Params(limit: nat, segment: nat) {
    predicate Valid() { limit >= 3 && segment > 0 }
  }

  // `frames` are the activations being profiled, bottom first; `hidden` are the
  // activations above them that a skipped function keeps out of the profile, true
  // for those of a skipped function itself.
  datatype Thread = Thread(
    frames: seq<Activation>,
    hidden: seq<bool>,
    nextId: nat,
    shadow: Shadow)

  datatype Event = Enter(skip: bool) | Exit | Touch(access: Access)

  function Initial(): Thread {
    Thread([], [], 1, map[])
  }

  // Entering a function that is profiled.
  function Pushed(t: Thread, w: Params): Thread {
    var frames := t.frames + [NewActivation(t.nextId)];
    if t.nextId + 1 == w.limit then
      Thread(Renumbered(frames), [], |frames| + 1, Compressed(IdsOf(frames), t.shadow))
    else
      t.(frames := frames, nextId := t.nextId + 1)
  }

  function Touched(t: Thread, a: Access, w: Params): Thread
    requires |t.frames| > 0 && w.Valid()
  {
    var top := t.frames[|t.frames| - 1].id;
    Thread(
      Counted(t.frames, Cell(t.shadow, a.granule), a.read),
      t.hidden, t.nextId, Stored(t.shadow, a.granule, top, w.segment))
  }

  // The counts after an access to a granule last touched at `prev`.
  function Counted(s: seq<Activation>, prev: nat, read: bool): (r: seq<Activation>)
    requires |s| > 0
    ensures |r| == |s|
  {
    if read && prev < s[|s| - 1].id then Credit(s, prev) else s
  }

  predicate Tracked(t: Thread) {
    |t.frames| > 0 && |t.hidden| == 0
  }

  function Step(t: Thread, e: Event, w: Params): Thread
    requires w.Valid()
  {
    match e
    case Enter(skip) =>
      if skip || |t.hidden| > 0 then t.(hidden := t.hidden + [skip]) else Pushed(t, w)
    case Exit =>
      if |t.hidden| > 0 then t.(hidden := t.hidden[..|t.hidden| - 1])
      else if |t.frames| > 0 then t.(frames := Fold(t.frames))
      else t
    case Touch(a) =>
      if Tracked(t) then Touched(t, a, w) else t
  }

  // --- runs ---

  // The machine together with the history of its tracked accesses and, for every
  // profiled activation, the position of the history at which it was entered.
  datatype Config = Config(thread: Thread, history: seq<Access>, entries: seq<nat>)

  function Next(c: Config, e: Event, w: Params): Config
    requires w.Valid()
  {
    var t := Step(c.thread, e, w);
    match e
    case Enter(skip) =>
      Config(t, c.history, if skip || |c.thread.hidden| > 0 then c.entries else c.entries + [|c.history|])
    case Exit =>
      Config(t, c.history,
             if |c.thread.hidden| > 0 || |c.entries| == 0 then c.entries else c.entries[..|c.entries| - 1])
    case Touch(a) =>
      Config(t, if Tracked(c.thread) then c.history + [a] else c.history, c.entries)
  }

  function Run(es: seq<Event>, w: Params): Config
    requires w.Valid()
  {
    if |es| == 0 then Config(Initial(), [], [])
    else Next(Run(es[..|es| - 1], w), es[|es| - 1], w)
  }

  // n consecutive granules from g on, touched one after the other.
  function Touches(c: Config, g: nat, n: nat, read: bool, w: Params): Config
    requires w.Valid()
  {
    if n == 0 then c else Next(Touches(c, g, n - 1, read, w), Touch(Access(g + n - 1, read)), w)
  }

  function TouchEvents(g: nat, n: nat, read: bool): (es: seq<Event>)
    ensures |es| == n
  {
    seq(n, k requires 0 <= k < n => Touch(Access(g + k, read)))
  }

  // The events of such a range go on with a run.
  lemma {:induction false} TouchesAreEvents(es: seq<Event>, g: nat, n: nat, read: bool, w: Params)
    requires w.Valid()
    ensures Touches(Run(es, w), g, n, read, w) == Run(es + TouchEvents(g, n, read), w)
  {
    hide Next;
    var all := es + TouchEvents(g, n, read);
    if n == 0 {
      assert all == es;
    } else {
      assert all[..|all| - 1] == es + TouchEvents(g, n - 1, read);
      TouchesAreEvents(es, g, n - 1, read, w);
    }
  }

  // One access to each of the granules, in order.
  function AccessList(g: nat, n: nat, read: bool): seq<Access> {
    seq(n, k requires 0 <= k < n => Access(g + k, read))
  }

  lemma {:induction false} TouchesHistory(c: Config, g: nat, n: nat, read: bool, w: Params)
    requires w.Valid()
    ensures Touches(c, g, n, read, w).history == c.history + (if Tracked(c.thread) then AccessList(g, n, read) else [])
    ensures Tracked(Touches(c, g, n, read, w).thread) <==> Tracked(c.thread)
  {
    hide Next, Tracked;
    if n > 0 {
      TouchesHistory(c, g, n - 1, read, w);
      TouchHistory(Touches(c, g, n - 1, read, w), Access(g + n - 1, read), w);
    }
  }

  lemma TouchHistory(c: Config, a: Access, w: Params)
    requires w.Valid()
    ensures var n := Next(c, Touch(a), w);
      n.history == c.history + (if Tracked(c.thread) then [a] else []) && (Tracked(n.thread) <==> Tracked(c.thread))
  {
    hide Stored;
  }

  lemma NothingTouched(c: Config, g: nat, read: bool, w: Params)
    requires w.Valid()
    ensures Touches(c, g, 0, read, w) == c
  {
  }

  lemma OneMoreTouched(c: Config, g: nat, n: nat, read: bool, w: Params)
    requires w.Valid()
    ensures Touches(c, g, n + 1, read, w) == Next(Touches(c, g, n, read, w), Touch(Access(g + n, read)), w)
  {
  }

  // The depth of the stack never reaches the last identifier: the stack itself is
  // bounded far below the size of a word.
  ghost predicate Shallow(es: seq<Event>, w: Params) {
    w.Valid() && forall k :: 0 <= k <= |es| ==> |Run(es[..k], w).thread.frames| + 2 < w.limit
  }

  // --- the invariant ---

  // The identifiers and cells fit in the word and grow along the stack.
  ghost predicate Ordered(c: Config, w: Params) {
    var t := c.thread;
    && Increasing(t.frames)
    && (forall i :: 0 <= i < |t.frames| ==> 0 < t.frames[i].id < t.nextId)
    && (forall g :: Cell(t.shadow, g) < t.nextId)
    && 0 < t.nextId < w.limit && w.Valid()
  }

  // A cell tells, for every stacked activation, whether the granule was accessed
  // since that activation was entered.
  ghost predicate Located(c: Config) {
    var t := c.thread;
    && |c.entries| == |t.frames|
    && (forall i :: 0 <= i < |c.entries| ==> c.entries[i] <= |c.history|)
    && forall g, i :: 0 <= i < |t.frames| ==>
      (t.frames[i].id <= Cell(t.shadow, g) <==> c.entries[i] <= LastAccess(c.history, g))
  }

  // The partial counts above and including an activation add up to its read memory size.
  ghost predicate Exact(c: Config) {
    var t := c.thread;
    && |c.entries| == |t.frames|
    && forall i :: 0 <= i < |t.frames| ==>
      Suffix(Sizes(t.frames), i) == ReadMemorySize(c.history, c.entries[i])
  }

  ghost predicate Inv(c: Config, w: Params) {
    Ordered(c, w) && Located(c) && Exact(c)
  }

  lemma EnterKeeps(c: Config, w: Params)
    requires Inv(c, w) && |c.thread.hidden| == 0 && |c.thread.frames| + 3 < w.limit
    ensures Inv(Next(c, Enter(false), w), w)
  {
    EnterLocates(c, w);
    EnterCounts(c, w);
  }

  lemma EnterLocates(c: Config, w: Params)
    requires Ordered(c, w) && Located(c) && |c.thread.hidden| == 0 && |c.thread.frames| + 3 < w.limit
    ensures Ordered(Next(c, Enter(false), w), w) && Located(Next(c, Enter(false), w))
  {
    hide Suffix, ReadMemorySize, LastAccess;
    var t := c.thread;
    var n := Next(c, Enter(false), w);
    var frames := t.frames + [NewActivation(t.nextId)];
    if t.nextId + 1 == w.limit {
      forall g, i | 0 <= i < |frames|
        ensures n.thread.frames[i].id <= Cell(n.thread.shadow, g) <==> frames[i].id <= Cell(t.shadow, g)
      {
        CompressionKeepsOrder(frames, t.shadow, g, i);
      }
    }
  }

  lemma EnterCounts(c: Config, w: Params)
    requires w.Valid() && Exact(c) && |c.thread.hidden| == 0
    ensures Exact(Next(c, Enter(false), w))
  {
    hide Compressed;
    var t := c.thread;
    var n := Next(c, Enter(false), w);
    assert Sizes(n.thread.frames) == Sizes(t.frames) + [0];
    forall i | 0 <= i < |n.thread.frames|
      ensures Suffix(Sizes(n.thread.frames), i) == ReadMemorySize(n.history, n.entries[i])
    {
      SuffixAppend(Sizes(t.frames), 0, i);
      if i == |t.frames| {
        assert ReadFirst(n.history, n.entries[i]) == {};
      }
    }
  }

  lemma ExitKeeps(c: Config, w: Params)
    requires Inv(c, w) && |c.thread.hidden| == 0 && |c.thread.frames| > 0
    ensures Inv(Next(c, Exit, w), w)
  {
    var t := c.thread;
    var n := Next(c, Exit, w);
    forall i | 0 <= i < |n.thread.frames|
      ensures n.thread.frames[i].id == t.frames[i].id
      ensures Suffix(Sizes(n.thread.frames), i) == ReadMemorySize(n.history, n.entries[i])
    {
      FoldSum(t.frames, i);
    }
  }

  lemma CountedIds(s: seq<Activation>, prev: nat, read: bool)
    requires |s| > 0
    ensures forall i :: 0 <= i < |s| ==> Counted(s, prev, read)[i].id == s[i].id
  {
    if read && prev < s[|s| - 1].id {
      CreditShape(s, prev);
    }
  }

  lemma LastAccessStep(h: seq<Access>, a: Access, g: nat)
    ensures LastAccess(h + [a], g) == if g == a.granule then |h| else LastAccess(h, g)
  {
    assert (h + [a])[..|h|] == h;
  }

  lemma TouchLocates(c: Config, a: Access, w: Params)
    requires Inv(c, w) && Tracked(c.thread)
    ensures Ordered(Next(c, Touch(a), w), w) && Located(Next(c, Touch(a), w))
  {
    hide Suffix, ReadMemorySize, Counted;
    var t := c.thread;
    var n := Next(c, Touch(a), w);
    CountedIds(t.frames, Cell(t.shadow, a.granule), a.read);
    forall g, i | 0 <= i < |t.frames|
      ensures n.thread.frames[i].id <= Cell(n.thread.shadow, g) <==> n.entries[i] <= LastAccess(n.history, g)
    {
      LastAccessStep(c.history, a, g);
      assert t.frames[i].id <= Cell(t.shadow, g) <==> c.entries[i] <= LastAccess(c.history, g);
    }
  }

  lemma TouchCountsAt(s: seq<Activation>, prev: nat, h: seq<Access>, p: nat, a: Access, i: nat)
    requires i < |s| && Increasing(s) && p <= |h|
    requires s[i].id <= prev <==> p <= LastAccess(h, a.granule)
    requires Suffix(Sizes(s), i) == ReadMemorySize(h, p)
    ensures Suffix(Sizes(Counted(s, prev, a.read)), i) == ReadMemorySize(h + [a], p)
  {
    var top := s[|s| - 1].id;
    ReadMemorySizeStep(h, a, p);
    assert s[i].id <= top;
    if a.read && prev < top {
      CreditSum(s, prev, i);
    }
  }

  lemma TouchCounts(c: Config, a: Access, w: Params)
    requires Inv(c, w) && Tracked(c.thread)
    ensures Exact(Next(c, Touch(a), w))
  {
    var s := c.thread.frames;
    var prev := Cell(c.thread.shadow, a.granule);
    forall i | 0 <= i < |s|
      ensures Suffix(Sizes(Counted(s, prev, a.read)), i) == ReadMemorySize(c.history + [a], c.entries[i])
    {
      TouchCountsAt(s, prev, c.history, c.entries[i], a, i);
    }
  }

  // --- main results ---

  lemma StepKeeps(c: Config, e: Event, w: Params)
    requires Inv(c, w) && |c.thread.frames| + 2 < w.limit && |Next(c, e, w).thread.frames| + 2 < w.limit
    ensures Inv(Next(c, e, w), w)
  {
    hide Suffix, ReadMemorySize, LastAccess, Renumbered, Compressed, Fold, Touched;
    match e
    case Enter(skip) => if !skip && |c.thread.hidden| == 0 { EnterKeeps(c, w); }
    case Exit => if |c.thread.hidden| == 0 && |c.thread.frames| > 0 { ExitKeeps(c, w); }
    case Touch(a) => if Tracked(c.thread) { TouchLocates(c, a, w); TouchCounts(c, a, w); }
  }

  lemma {:induction false} RunKeeps(es: seq<Event>, w: Params)
    requires Shallow(es, w)
    ensures Inv(Run(es, w), w)
  {
    if |es| == 0 {
    } else {
      hide Inv, Next;
      var es' := es[..|es| - 1];
      assert forall k :: 0 <= k <= |es'| ==> es'[..k] == es[..k];
      RunKeeps(es', w);
      assert es[..|es|] == es;
      StepKeeps(Run(es', w), es[|es| - 1], w);
    }
  }

  // For every activation on the stack, in every run: the partial sizes from it upwards add
  // up to its read memory size.
  lemma {:induction false} SizesAreExact(es: seq<Event>, w: Params, i: nat)
    requires w.Valid() && Shallow(es, w) && i < |Run(es, w).thread.frames|
    ensures var c := Run(es, w);
      && |c.entries| == |c.thread.frames|
      && Suffix(Sizes(c.thread.frames), i) == ReadMemorySize(c.history, c.entries[i])
  {
    hide Run, Shallow, Ordered, Located, Suffix, ReadMemorySize;
    RunKeeps(es, w);
  }

  // The value recorded when the running activation returns is its read memory size:
  // the number of granules it and its callees read before writing.
  lemma {:induction false} RecordedIsReadMemorySize(es: seq<Event>, w: Params)
    requires w.Valid() && Shallow(es, w)
    requires |Run(es, w).thread.frames| > 0
    ensures var c := Run(es, w);
      var top := |c.thread.frames| - 1;
      && |c.entries| == top + 1
      && c.thread.frames[top].inputSize == ReadMemorySize(c.history, c.entries[top])
  {
    hide Run, Shallow, Ordered, Located, ReadMemorySize;
    SizesAreExact(es, w, |Run(es, w).thread.frames| - 1);
    SuffixTop(Sizes(Run(es, w).thread.frames));
  }

  // Two threads that profile alike: only identifiers and timestamps may differ.
  ghost predicate SameProfile(c: Config, d: Config) {
    && c.history == d.history
    && c.entries == d.entries
    && c.thread.hidden == d.thread.hidden
    && Sizes(c.thread.frames) == Sizes(d.thread.frames)
  }

  lemma CountedAgree(s: seq<Activation>, r: seq<Activation>, prev: nat, prev': nat, read: bool)
    requires |s| == |r| > 0 && Increasing(s) && Increasing(r)
    requires Sizes(s) == Sizes(r)
    requires forall i :: 0 <= i < |s| ==> (s[i].id <= prev <==> r[i].id <= prev')
    ensures Sizes(Counted(s, prev, read)) == Sizes(Counted(r, prev', read))
  {
    assert forall i :: 0 <= i < |s| ==> s[i].inputSize == Sizes(s)[i] == Sizes(r)[i] == r[i].inputSize;
    assert s[|s| - 1].id <= prev <==> r[|s| - 1].id <= prev';
    if read && prev < s[|s| - 1].id && prev >= s[0].id {
      var q, q' := OwnerFrom(s, |s| - 2, prev), OwnerFrom(r, |s| - 2, prev');
      assert s[q].id <= prev && r[q'].id <= prev';
      assert q == q';
    }
  }

  lemma FoldAgree(s: seq<Activation>, r: seq<Activation>)
    requires |s| == |r| > 0 && Sizes(s) == Sizes(r)
    ensures Sizes(Fold(s)) == Sizes(Fold(r))
  {
    assert forall i :: 0 <= i < |s| ==> s[i].inputSize == Sizes(s)[i] == Sizes(r)[i] == r[i].inputSize;
  }

  lemma NextAgrees(c: Config, d: Config, e: Event, w: Params, v: Params)
    requires Inv(c, w) && Inv(d, v) && SameProfile(c, d)
    ensures SameProfile(Next(c, e, w), Next(d, e, v))
  {
    var t, u := c.thread, d.thread;
    match e
    case Enter(skip) =>
      assert Sizes(t.frames + [NewActivation(t.nextId)]) == Sizes(u.frames + [NewActivation(u.nextId)])
        by { assert Sizes(t.frames + [NewActivation(t.nextId)]) == Sizes(t.frames) + [0];
             assert Sizes(u.frames + [NewActivation(u.nextId)]) == Sizes(u.frames) + [0]; }
      RenumberedSizes(t.frames + [NewActivation(t.nextId)]);
      RenumberedSizes(u.frames + [NewActivation(u.nextId)]);
    case Exit =>
      if |t.hidden| == 0 && |t.frames| > 0 { FoldAgree(t.frames, u.frames); }
    case Touch(a) =>
      if Tracked(t) {
        CountedAgree(t.frames, u.frames, Cell(t.shadow, a.granule), Cell(u.shadow, a.granule), a.read);
      }
  }

  lemma RenumberedSizes(s: seq<Activation>)
    ensures Sizes(Renumbered(s)) == Sizes(s)
  {
  }

  // Running out of identifiers is invisible: whatever the width of the word, every
  // run computes the same partial counts, so the same input sizes.
  lemma {:induction false} WrapAroundIsInvisible(es: seq<Event>, w: Params, v: Params)
    requires w.Valid() && v.Valid() && Shallow(es, w) && Shallow(es, v)
    ensures SameProfile(Run(es, w), Run(es, v))
  {
    hide Inv, Next, SameProfile;
    if |es| > 0 {
      var es' := es[..|es| - 1];
      assert forall k :: 0 <= k <= |es'| ==> es'[..k] == es[..k];
      WrapAroundIsInvisible(es', w, v);
      RunKeeps(es', w);
      RunKeeps(es', v);
      NextAgrees(Run(es', w), Run(es', v), es[|es| - 1], w, v);
    } else {
      ProfileOfItself(Config(Initial(), [], []));
    }
  }

  lemma ProfileOfItself(c: Config)
    ensures SameProfile(c, c)
  {
  }
}
