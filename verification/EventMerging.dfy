module EventMerging {
  // Merging events preserves what the analysis computes: running the emitted calls leaves
  // the same shadow memories and the same partial counts as running every event by itself.

  import opened Common
  import opened ActivationStack
  import opened ShadowMap
  import opened Granules
  import opened EventQueues
  import Rms
  import Drms

  // --- writing a range of granules ---

  function StoredRange(m: Shadow, g: nat, n: nat, v: nat, segment: nat): Shadow
    requires segment > 0
  {
    if n == 0 then m else Stored(StoredRange(m, g, n - 1, v, segment), g + n - 1, v, segment)
  }

  ghost predicate InSegments(x: nat, g: nat, n: nat, segment: nat)
    requires segment > 0
  {
    exists y: nat :: g <= y < g + n && x in Segment(y, segment)
  }

  lemma {:induction false} StoredRangeAt(m: Shadow, g: nat, n: nat, v: nat, segment: nat, x: nat)
    requires segment > 0
    ensures Cell(StoredRange(m, g, n, v, segment), x) == if g <= x < g + n then v else Cell(m, x)
    ensures x in StoredRange(m, g, n, v, segment) <==> x in m || InSegments(x, g, n, segment)
  {
    hide Segment;
    if n > 0 {
      StoredRangeAt(m, g, n - 1, v, segment, x);
      assert InSegments(x, g, n - 1, segment) ==> InSegments(x, g, n, segment);
      assert x in Segment(g + (n - 1), segment) ==> InSegments(x, g, n, segment);
    }
  }

  lemma {:induction false} StoredRangeTwice(m: Shadow, g: nat, n: nat, v: nat, segment: nat)
    requires segment > 0
    ensures StoredRange(StoredRange(m, g, n, v, segment), g, n, v, segment) == StoredRange(m, g, n, v, segment)
  {
    hide *;
    var once := StoredRange(m, g, n, v, segment);
    var twice := StoredRange(once, g, n, v, segment);
    forall x: nat ensures x in twice <==> x in once ensures Cell(twice, x) == Cell(once, x) {
      StoredRangeAt(once, g, n, v, segment, x);
      StoredRangeAt(m, g, n, v, segment, x);
    }
    SameCells(twice, once);
  }

  // --- the read memory size ---

  function RmsTouches(t: Rms.Thread, g: nat, n: nat, read: bool, w: Rms.Params): Rms.Thread
    requires w.Valid()
  {
    if n == 0 then t
    else Rms.Step(RmsTouches(t, g, n - 1, read, w), Rms.Touch(Rms.Access(g + n - 1, read)), w)
  }

  function RmsCounts(s: seq<Activation>, m: Shadow, g: nat, n: nat): (r: seq<Activation>)
    requires |s| > 0
    ensures |r| == |s|
  {
    if n == 0 then s else Rms.Counted(RmsCounts(s, m, g, n - 1), Cell(m, g + n - 1), true)
  }

  lemma {:induction false} RmsCountsTop(s: seq<Activation>, m: Shadow, g: nat, n: nat)
    requires |s| > 0
    ensures RmsCounts(s, m, g, n)[|s| - 1].id == s[|s| - 1].id
  {
    if n > 0 {
      RmsCountsTop(s, m, g, n - 1);
      Rms.CountedIds(RmsCounts(s, m, g, n - 1), Cell(m, g + n - 1), true);
    }
  }

  // What the accesses to the range leave, in closed form.
  function RmsAfter(t: Rms.Thread, g: nat, n: nat, read: bool, w: Rms.Params): Rms.Thread
    requires w.Valid() && |t.frames| > 0
  {
    Rms.Thread(
      if read then RmsCounts(t.frames, t.shadow, g, n) else t.frames, t.hidden, t.nextId,
      StoredRange(t.shadow, g, n, t.frames[|t.frames| - 1].id, w.segment))
  }

  lemma {:induction false} RmsAfterStep(t: Rms.Thread, g: nat, n: nat, read: bool, w: Rms.Params)
    requires w.Valid() && Rms.Tracked(t)
    ensures Rms.Step(RmsAfter(t, g, n, read, w), Rms.Touch(Rms.Access(g + n, read)), w) == RmsAfter(t, g, n + 1, read, w)
  {
    hide Stored, Cell, Rms.Counted;
    StoredRangeAt(t.shadow, g, n, t.frames[|t.frames| - 1].id, w.segment, g + n);
    RmsCountsTop(t.frames, t.shadow, g, n);
    NotRead(RmsAfter(t, g, n, false, w), g + n, w);
  }

  lemma RmsAfterNone(t: Rms.Thread, g: nat, read: bool, w: Rms.Params)
    requires w.Valid() && Rms.Tracked(t)
    ensures RmsAfter(t, g, 0, read, w) == t
  {
  }

  lemma {:induction false} RmsRange(t: Rms.Thread, g: nat, n: nat, read: bool, w: Rms.Params)
    requires w.Valid() && Rms.Tracked(t)
    ensures RmsTouches(t, g, n, read, w) == RmsAfter(t, g, n, read, w)
  {
    hide Rms.Step, RmsAfter, Stored, Cell;
    if n == 0 {
      RmsAfterNone(t, g, read, w);
    } else {
      RmsRange(t, g, n - 1, read, w);
      RmsAfterStep(t, g, n - 1, read, w);
    }
  }

  lemma NotRead(t: Rms.Thread, g: nat, w: Rms.Params)
    requires w.Valid() && Rms.Tracked(t)
    ensures Rms.Step(t, Rms.Touch(Rms.Access(g, false)), w).frames == t.frames
  {
  }

  lemma {:induction false} RmsIdle(t: Rms.Thread, g: nat, n: nat, read: bool, w: Rms.Params)
    requires w.Valid() && !Rms.Tracked(t)
    ensures RmsTouches(t, g, n, read, w) == t
  {
    if n > 0 { RmsIdle(t, g, n - 1, read, w); }
  }

  // A load and then a store of a range leave what one modify of it leaves.
  lemma {:induction false} RmsLoadStore(t: Rms.Thread, g: nat, n: nat, w: Rms.Params)
    requires w.Valid()
    ensures RmsTouches(RmsTouches(t, g, n, true, w), g, n, false, w) == RmsTouches(t, g, n, true, w)
  {
    hide StoredRange, RmsCounts, RmsTouches, Rms.Counted;
    if Rms.Tracked(t) {
      RmsRange(t, g, n, true, w);
      var u := RmsTouches(t, g, n, true, w);
      RmsRange(u, g, n, false, w);
      RmsCountsTop(t.frames, t.shadow, g, n);
      StoredRangeTwice(t.shadow, g, n, t.frames[|t.frames| - 1].id, w.segment);
    } else {
      RmsIdle(t, g, n, true, w);
      RmsIdle(t, g, n, false, w);
    }
  }

  // The calls of a superblock, run with the values `env` gives to the atoms.
  function RmsCall(t: Rms.Thread, c: Call, env: nat -> nat, res: nat, w: Rms.Params): Rms.Thread
    requires w.Valid() && res > 0
  {
    RmsTouches(t, env(c.atom) / res, Count(env(c.atom), c.size, res), c.kind != STORE, w)
  }

  function RmsCalls(t: Rms.Thread, cs: seq<Call>, env: nat -> nat, res: nat, w: Rms.Params): Rms.Thread
    requires w.Valid() && res > 0
  {
    if |cs| == 0 then t else RmsCall(RmsCalls(t, cs[..|cs| - 1], env, res, w), cs[|cs| - 1], env, res, w)
  }

  lemma {:induction false} RmsExpanded(t: Rms.Thread, cs: seq<Call>, env: nat -> nat, res: nat, w: Rms.Params)
    requires w.Valid() && res > 0
    ensures RmsCalls(t, Expanded(cs), env, res, w) == RmsCalls(t, cs, env, res, w)
  {
    hide RmsCall, RmsCalls;
    if |cs| > 0 {
      var c, front := cs[|cs| - 1], cs[..|cs| - 1];
      var before := Expanded(front);
      RmsExpanded(t, front, env, res, w);
      assert front + [c] == cs;
      RmsCallsAppend(t, front, [c], env, res, w);
      RmsOneOrTwo(RmsCalls(t, front, env, res, w), c, c, env, res, w);
      RmsOneOrTwo(RmsCalls(t, before, env, res, w), c, c, env, res, w);
      if c.kind == MODIFY {
        var l, s := Call(LOAD, c.atom, c.size), Call(STORE, c.atom, c.size);
        RmsCallsAppend(t, before, [l, s], env, res, w);
        RmsOneOrTwo(RmsCalls(t, before, env, res, w), l, s, env, res, w);
        RmsModify(RmsCalls(t, before, env, res, w), c, env, res, w);
      } else {
        RmsCallsAppend(t, before, [c], env, res, w);
      }
    } else {
      assert Expanded(cs) == cs;
    }
  }

  lemma RmsOneOrTwo(t: Rms.Thread, a: Call, b: Call, env: nat -> nat, res: nat, w: Rms.Params)
    requires w.Valid() && res > 0
    ensures RmsCalls(t, [a], env, res, w) == RmsCall(t, a, env, res, w)
    ensures RmsCalls(t, [a, b], env, res, w) == RmsCall(RmsCall(t, a, env, res, w), b, env, res, w)
  {
    hide RmsCall;
    assert [a][..0] == [] && [a, b][..1] == [a];
  }

  lemma RmsModify(t: Rms.Thread, c: Call, env: nat -> nat, res: nat, w: Rms.Params)
    requires w.Valid() && res > 0 && c.kind == MODIFY
    ensures RmsCall(RmsCall(t, Call(LOAD, c.atom, c.size), env, res, w), Call(STORE, c.atom, c.size), env, res, w)
         == RmsCall(t, c, env, res, w)
  {
    RmsLoadStore(t, env(c.atom) / res, Count(env(c.atom), c.size, res), w);
  }

  // For every stream of events: what the emitted calls and a final flush compute is what
  // the events compute one by one.
  lemma {:induction false} RmsMergingIsInvisible(calls: seq<Call>, pending: seq<EventQueues.Event>, stream: seq<EventQueues.Event>,
                              t: Rms.Thread, env: nat -> nat, res: nat, w: Rms.Params)
    requires w.Valid() && res > 0 && Faithful(calls, pending, stream)
    ensures RmsCalls(t, calls + Emitted(pending), env, res, w) == RmsCalls(t, Emitted(stream), env, res, w)
  {
    ExpandedAppend(calls, Emitted(pending));
    RmsExpanded(t, calls + Emitted(pending), env, res, w);
  }

  // Touching a range changes the thread alone.
  lemma {:induction false} RmsTouchesThread(c: Rms.Config, g: nat, n: nat, read: bool, w: Rms.Params)
    requires w.Valid()
    ensures Rms.Touches(c, g, n, read, w).thread == RmsTouches(c.thread, g, n, read, w)
  {
    hide Rms.Step;
    if n > 0 { RmsTouchesThread(c, g, n - 1, read, w); }
  }

  // The accesses of one event and of a stream, granule by granule; a modify reads.
  function RmsAccesses(e: EventQueues.Event, env: nat -> nat, res: nat): seq<Rms.Event>
    requires res > 0
  {
    if e.Ir? then []
    else Rms.TouchEvents(env(e.atom) / res, Count(env(e.atom), e.size, res), !e.Dw?)
  }

  function RmsStream(stream: seq<EventQueues.Event>, env: nat -> nat, res: nat): seq<Rms.Event>
    requires res > 0
  {
    if |stream| == 0 then []
    else RmsStream(stream[..|stream| - 1], env, res) + RmsAccesses(stream[|stream| - 1], env, res)
  }

  lemma {:induction false} RmsEventRun(es: seq<Rms.Event>, e: EventQueues.Event, env: nat -> nat, res: nat, w: Rms.Params)
    requires w.Valid() && res > 0
    ensures RmsCalls(Rms.Run(es, w).thread, CallsOf(e), env, res, w) == Rms.Run(es + RmsAccesses(e, env, res), w).thread
  {
    hide Rms.Run, Rms.Next, RmsTouches;
    if e.Ir? {
      assert es + RmsAccesses(e, env, res) == es;
    } else {
      var c := CallsOf(e)[0];
      assert CallsOf(e)[..0] == [] && RmsCalls(Rms.Run(es, w).thread, [], env, res, w) == Rms.Run(es, w).thread;
      var g, n := env(e.atom) / res, Count(env(e.atom), e.size, res);
      RmsTouchesThread(Rms.Run(es, w), g, n, !e.Dw?, w);
      Rms.TouchesAreEvents(es, g, n, !e.Dw?, w);
    }
  }

  lemma {:induction false} RmsCallsAppend(t: Rms.Thread, a: seq<Call>, b: seq<Call>, env: nat -> nat, res: nat, w: Rms.Params)
    requires w.Valid() && res > 0
    ensures RmsCalls(t, a + b, env, res, w) == RmsCalls(RmsCalls(t, a, env, res, w), b, env, res, w)
  {
    hide RmsCall;
    if |b| == 0 {
      assert a + b == a;
    } else {
      assert (a + b)[..|a + b| - 1] == a + b[..|b| - 1];
      RmsCallsAppend(t, a, b[..|b| - 1], env, res, w);
    }
  }

  lemma {:induction false} RmsStreamRun(es: seq<Rms.Event>, stream: seq<EventQueues.Event>, env: nat -> nat, res: nat, w: Rms.Params)
    requires w.Valid() && res > 0
    ensures RmsCalls(Rms.Run(es, w).thread, Emitted(stream), env, res, w) == Rms.Run(es + RmsStream(stream, env, res), w).thread
  {
    hide Rms.Run, CallsOf, RmsAccesses;
    if |stream| == 0 {
      assert es + RmsStream(stream, env, res) == es;
    } else {
      var front, e := stream[..|stream| - 1], stream[|stream| - 1];
      RmsStreamRun(es, front, env, res, w);
      RmsCallsAppend(Rms.Run(es, w).thread, Emitted(front), CallsOf(e), env, res, w);
      RmsEventRun(es + RmsStream(front, env, res), e, env, res, w);
      assert es + RmsStream(front, env, res) + RmsAccesses(e, env, res) == es + RmsStream(stream, env, res);
    }
  }

  /** The emitted calls leave the thread that the accesses of all events leave, one by one. */
  lemma RmsMergedRun(calls: seq<Call>, pending: seq<EventQueues.Event>, stream: seq<EventQueues.Event>,
                     es: seq<Rms.Event>, env: nat -> nat, res: nat, w: Rms.Params)
    requires w.Valid() && res > 0 && Faithful(calls, pending, stream)
    ensures RmsCalls(Rms.Run(es, w).thread, calls + Emitted(pending), env, res, w)
         == Rms.Run(es + RmsStream(stream, env, res), w).thread
  {
    hide Rms.Run, Faithful, RmsCalls, RmsStream;
    RmsMergingIsInvisible(calls, pending, stream, Rms.Run(es, w).thread, env, res, w);
    RmsStreamRun(es, stream, env, res, w);
  }

  // --- the dynamic read memory size ---

  // Everything the machine computes, without the history of the specification.
  function Machine(c: Drms.Config): Drms.Config {
    c.(history := [])
  }

  function DrmsCounts(s: seq<Activation>, m: Shadow, global: Shadow, io: set<nat>, g: nat, n: nat): (r: seq<Activation>)
    requires |s| > 0
    ensures |r| == |s|
  {
    if n == 0 then s
    else Drms.Counted(DrmsCounts(s, m, global, io, g, n - 1), Cell(m, g + n - 1), Cell(global, g + n - 1), g + n - 1 in io)
  }

  // The cells of io outside the range.
  function Outside(io: set<nat>, g: nat, n: nat): set<nat> {
    if n == 0 then io else Outside(io, g, n - 1) - {g + n - 1}
  }

  lemma {:induction false} OutsideKeeps(io: set<nat>, g: nat, n: nat, x: nat)
    requires x >= g + n
    ensures x in Outside(io, g, n) <==> x in io
  {
    if n > 0 { OutsideKeeps(io, g, n - 1, x); }
  }

  // What the accesses to the range leave, in closed form.
  function DrmsAfter(c: Drms.Config, g: nat, n: nat, read: bool, write: bool, w: Drms.Params): Drms.Config
    requires w.Valid() && Drms.Tracked(c)
  {
    var th := c.threads[c.current];
    Machine(c).(
      threads := c.threads[c.current := th.(
        frames := if read then DrmsCounts(th.frames, th.shadow, c.global, c.io, g, n) else th.frames,
        shadow := StoredRange(th.shadow, g, n, c.counter, w.segment))],
      global := if write then StoredRange(c.global, g, n, c.counter, w.segment) else c.global,
      io := if write then Outside(c.io, g, n) else c.io)
  }

  // The history does not influence what an access does.
  lemma HistoryIsIdle(c: Drms.Config, g: nat, read: bool, write: bool, w: Drms.Params)
    requires w.Valid()
    ensures Machine(Drms.Step(c, Drms.Touch(g, read, write), w))
         == Machine(Drms.Step(Machine(c), Drms.Touch(g, read, write), w))
    ensures Drms.Tracked(c) <==> Drms.Tracked(Machine(c))
  {
    hide Stored, Drms.Counted;
  }

  lemma {:induction false} RangeStep(m: Shadow, g: nat, n: nat, v: nat, segment: nat)
    requires segment > 0
    ensures StoredRange(m, g, n + 1, v, segment) == Stored(StoredRange(m, g, n, v, segment), g + n, v, segment)
    ensures Cell(StoredRange(m, g, n, v, segment), g + n) == Cell(m, g + n)
  {
    StoredRangeAt(m, g, n, v, segment, g + n);
  }

  lemma CountsStep(s: seq<Activation>, m: Shadow, global: Shadow, io: set<nat>, g: nat, n: nat)
    requires |s| > 0
    ensures DrmsCounts(s, m, global, io, g, n + 1)
         == Drms.Counted(DrmsCounts(s, m, global, io, g, n), Cell(m, g + n), Cell(global, g + n), g + n in io)
    ensures Outside(io, g, n + 1) == Outside(io, g, n) - {g + n}
    ensures g + n in Outside(io, g, n) <==> g + n in io
  {
    hide Drms.Counted;
    OutsideKeeps(io, g, n, g + n);
  }

  lemma {:induction false} DrmsAfterStep(c: Drms.Config, g: nat, n: nat, read: bool, write: bool, w: Drms.Params)
    requires w.Valid() && Drms.Tracked(c)
    ensures Drms.Tracked(DrmsAfter(c, g, n, read, write, w))
    ensures Machine(Drms.Step(DrmsAfter(c, g, n, read, write, w), Drms.Touch(g + n, read, write), w))
         == DrmsAfter(c, g, n + 1, read, write, w)
  {
    hide Stored, Cell, Drms.Counted, StoredRange, Outside, DrmsCounts;
    var th := c.threads[c.current];
    RangeStep(th.shadow, g, n, c.counter, w.segment);
    RangeStep(c.global, g, n, c.counter, w.segment);
    CountsStep(th.frames, th.shadow, c.global, c.io, g, n);
  }

  lemma {:induction false} DrmsRange(c: Drms.Config, g: nat, n: nat, read: bool, write: bool, w: Drms.Params)
    requires w.Valid() && Drms.Tracked(c)
    ensures Drms.Tracked(Drms.Touches(c, g, n, read, write, w))
    ensures Machine(Drms.Touches(c, g, n, read, write, w)) == DrmsAfter(c, g, n, read, write, w)
  {
    if n > 0 {
      DrmsRange(c, g, n - 1, read, write, w);
      DrmsRangeStep(c, g, n, read, write, w);
    }
  }

  lemma {:induction false} DrmsRangeStep(c: Drms.Config, g: nat, n: nat, read: bool, write: bool, w: Drms.Params)
    requires w.Valid() && Drms.Tracked(c) && n > 0
    requires Drms.Tracked(Drms.Touches(c, g, n - 1, read, write, w))
    requires Machine(Drms.Touches(c, g, n - 1, read, write, w)) == DrmsAfter(c, g, n - 1, read, write, w)
    ensures Drms.Tracked(Drms.Touches(c, g, n, read, write, w))
    ensures Machine(Drms.Touches(c, g, n, read, write, w)) == DrmsAfter(c, g, n, read, write, w)
  {
    hide Drms.Step, DrmsAfter, Machine, Drms.Tracked;
    var d := Drms.Touches(c, g, n - 1, read, write, w);
    HistoryIsIdle(d, g + n - 1, read, write, w);
    DrmsAfterStep(c, g, n - 1, read, write, w);
    StillTracked(d, g + n - 1, read, write, w);
  }

  lemma StillTracked(c: Drms.Config, g: nat, read: bool, write: bool, w: Drms.Params)
    requires w.Valid() && Drms.Tracked(c)
    ensures Drms.Tracked(Drms.Step(c, Drms.Touch(g, read, write), w))
  {
  }

  lemma {:induction false} DrmsIdle(c: Drms.Config, g: nat, n: nat, read: bool, write: bool, w: Drms.Params)
    requires w.Valid() && !Drms.Tracked(c)
    ensures Drms.Touches(c, g, n, read, write, w) == c
  {
    if n > 0 { DrmsIdle(c, g, n - 1, read, write, w); }
  }

  // A load and then a store of a range leave what one modify of it leaves.
  lemma {:induction false} DrmsLoadStore(c: Drms.Config, g: nat, n: nat, w: Drms.Params)
    requires w.Valid()
    ensures Machine(Drms.Touches(Drms.Touches(c, g, n, true, false, w), g, n, false, true, w))
         == Machine(Drms.Touches(c, g, n, true, true, w))
  {
    hide StoredRange, DrmsCounts, Drms.Touches;
    if Drms.Tracked(c) {
      var d := Drms.Touches(c, g, n, true, false, w);
      DrmsRange(c, g, n, true, false, w);
      DrmsRange(d, g, n, false, true, w);
      DrmsRange(c, g, n, true, true, w);
      assert DrmsAfter(d, g, n, false, true, w) == DrmsAfter(Machine(d), g, n, false, true, w);
      StoredRangeTwice(c.threads[c.current].shadow, g, n, c.counter, w.segment);
    } else {
      DrmsIdle(c, g, n, true, false, w);
      DrmsIdle(c, g, n, false, true, w);
      DrmsIdle(c, g, n, true, true, w);
    }
  }

  function DrmsCall(c: Drms.Config, k: Call, env: nat -> nat, res: nat, w: Drms.Params): Drms.Config
    requires w.Valid() && res > 0
  {
    Drms.Touches(c, env(k.atom) / res, Count(env(k.atom), k.size, res), k.kind != STORE, k.kind != LOAD, w)
  }

  function DrmsCalls(c: Drms.Config, ks: seq<Call>, env: nat -> nat, res: nat, w: Drms.Params): Drms.Config
    requires w.Valid() && res > 0
  {
    if |ks| == 0 then c else DrmsCall(DrmsCalls(c, ks[..|ks| - 1], env, res, w), ks[|ks| - 1], env, res, w)
  }

  lemma DrmsCallIdle(c: Drms.Config, d: Drms.Config, k: Call, env: nat -> nat, res: nat, w: Drms.Params)
    requires w.Valid() && res > 0 && Machine(c) == Machine(d)
    ensures Machine(DrmsCall(c, k, env, res, w)) == Machine(DrmsCall(d, k, env, res, w))
  {
    DrmsTouchesIdle(c, d, env(k.atom) / res, Count(env(k.atom), k.size, res), k.kind != STORE, k.kind != LOAD, w);
  }

  lemma {:induction false} DrmsTouchesIdle(c: Drms.Config, d: Drms.Config, g: nat, n: nat, read: bool, write: bool,
                                           w: Drms.Params)
    requires w.Valid() && Machine(c) == Machine(d)
    ensures Machine(Drms.Touches(c, g, n, read, write, w)) == Machine(Drms.Touches(d, g, n, read, write, w))
  {
    hide Drms.Step, Machine;
    if n > 0 {
      DrmsTouchesIdle(c, d, g, n - 1, read, write, w);
      HistoryIsIdle(Drms.Touches(c, g, n - 1, read, write, w), g + n - 1, read, write, w);
      HistoryIsIdle(Drms.Touches(d, g, n - 1, read, write, w), g + n - 1, read, write, w);
    }
  }

  lemma {:induction false} DrmsExpanded(c: Drms.Config, ks: seq<Call>, env: nat -> nat, res: nat, w: Drms.Params)
    requires w.Valid() && res > 0
    ensures Machine(DrmsCalls(c, Expanded(ks), env, res, w)) == Machine(DrmsCalls(c, ks, env, res, w))
  {
    hide DrmsCall, DrmsCalls, Machine;
    if |ks| > 0 {
      var k, front := ks[|ks| - 1], ks[..|ks| - 1];
      var before := Expanded(front);
      DrmsExpanded(c, front, env, res, w);
      assert front + [k] == ks;
      DrmsCallsAppend(c, front, [k], env, res, w);
      DrmsOneOrTwo(DrmsCalls(c, front, env, res, w), k, k, env, res, w);
      DrmsOneOrTwo(DrmsCalls(c, before, env, res, w), k, k, env, res, w);
      DrmsCallIdle(DrmsCalls(c, before, env, res, w), DrmsCalls(c, front, env, res, w), k, env, res, w);
      if k.kind == MODIFY {
        var l, s := Call(LOAD, k.atom, k.size), Call(STORE, k.atom, k.size);
        DrmsCallsAppend(c, before, [l, s], env, res, w);
        DrmsOneOrTwo(DrmsCalls(c, before, env, res, w), l, s, env, res, w);
        DrmsModify(DrmsCalls(c, before, env, res, w), k, env, res, w);
      } else {
        DrmsCallsAppend(c, before, [k], env, res, w);
      }
    } else {
      assert Expanded(ks) == ks;
    }
  }

  lemma DrmsOneOrTwo(c: Drms.Config, a: Call, b: Call, env: nat -> nat, res: nat, w: Drms.Params)
    requires w.Valid() && res > 0
    ensures DrmsCalls(c, [a], env, res, w) == DrmsCall(c, a, env, res, w)
    ensures DrmsCalls(c, [a, b], env, res, w) == DrmsCall(DrmsCall(c, a, env, res, w), b, env, res, w)
  {
    hide DrmsCall;
    assert [a][..0] == [] && [a, b][..1] == [a];
  }

  lemma DrmsModify(c: Drms.Config, k: Call, env: nat -> nat, res: nat, w: Drms.Params)
    requires w.Valid() && res > 0 && k.kind == MODIFY
    ensures Machine(DrmsCall(DrmsCall(c, Call(LOAD, k.atom, k.size), env, res, w), Call(STORE, k.atom, k.size), env, res, w))
         == Machine(DrmsCall(c, k, env, res, w))
  {
    DrmsLoadStore(c, env(k.atom) / res, Count(env(k.atom), k.size, res), w);
  }

  lemma {:induction false} DrmsMergingIsInvisible(calls: seq<Call>, pending: seq<EventQueues.Event>, stream: seq<EventQueues.Event>,
                               c: Drms.Config, env: nat -> nat, res: nat, w: Drms.Params)
    requires w.Valid() && res > 0 && Faithful(calls, pending, stream)
    ensures Machine(DrmsCalls(c, calls + Emitted(pending), env, res, w)) == Machine(DrmsCalls(c, Emitted(stream), env, res, w))
  {
    ExpandedAppend(calls, Emitted(pending));
    DrmsExpanded(c, calls + Emitted(pending), env, res, w);
  }

  function DrmsAccesses(e: EventQueues.Event, env: nat -> nat, res: nat): seq<Drms.Action>
    requires res > 0
  {
    if e.Ir? then []
    else Drms.TouchActions(env(e.atom) / res, Count(env(e.atom), e.size, res), !e.Dw?, !e.Dr?)
  }

  function DrmsStream(stream: seq<EventQueues.Event>, env: nat -> nat, res: nat): seq<Drms.Action>
    requires res > 0
  {
    if |stream| == 0 then []
    else DrmsStream(stream[..|stream| - 1], env, res) + DrmsAccesses(stream[|stream| - 1], env, res)
  }

  lemma {:induction false} DrmsEventRun(as_: seq<Drms.Action>, e: EventQueues.Event, env: nat -> nat, res: nat, w: Drms.Params)
    requires w.Valid() && res > 0
    ensures DrmsCalls(Drms.Run(as_, w), CallsOf(e), env, res, w) == Drms.Run(as_ + DrmsAccesses(e, env, res), w)
  {
    hide Drms.Run, Drms.Step, Drms.Touches;
    if e.Ir? {
      assert as_ + DrmsAccesses(e, env, res) == as_;
    } else {
      var c := CallsOf(e)[0];
      assert CallsOf(e)[..0] == [] && DrmsCalls(Drms.Run(as_, w), [], env, res, w) == Drms.Run(as_, w);
      var g, n := env(e.atom) / res, Count(env(e.atom), e.size, res);
      Drms.TouchesAreActions(as_, g, n, !e.Dw?, !e.Dr?, w);
    }
  }

  lemma {:induction false} DrmsCallsAppend(c: Drms.Config, a: seq<Call>, b: seq<Call>, env: nat -> nat, res: nat, w: Drms.Params)
    requires w.Valid() && res > 0
    ensures DrmsCalls(c, a + b, env, res, w) == DrmsCalls(DrmsCalls(c, a, env, res, w), b, env, res, w)
  {
    hide DrmsCall;
    if |b| == 0 {
      assert a + b == a;
    } else {
      assert (a + b)[..|a + b| - 1] == a + b[..|b| - 1];
      DrmsCallsAppend(c, a, b[..|b| - 1], env, res, w);
    }
  }

  lemma {:induction false} DrmsStreamRun(as_: seq<Drms.Action>, stream: seq<EventQueues.Event>, env: nat -> nat, res: nat,
                                         w: Drms.Params)
    requires w.Valid() && res > 0
    ensures DrmsCalls(Drms.Run(as_, w), Emitted(stream), env, res, w) == Drms.Run(as_ + DrmsStream(stream, env, res), w)
  {
    hide Drms.Run, CallsOf, DrmsAccesses;
    if |stream| == 0 {
      assert as_ + DrmsStream(stream, env, res) == as_;
    } else {
      var front, e := stream[..|stream| - 1], stream[|stream| - 1];
      DrmsStreamRun(as_, front, env, res, w);
      DrmsCallsAppend(Drms.Run(as_, w), Emitted(front), CallsOf(e), env, res, w);
      DrmsEventRun(as_ + DrmsStream(front, env, res), e, env, res, w);
      assert as_ + DrmsStream(front, env, res) + DrmsAccesses(e, env, res) == as_ + DrmsStream(stream, env, res);
    }
  }

  /** The same for the machine of all threads. */
  lemma DrmsMergedRun(calls: seq<Call>, pending: seq<EventQueues.Event>, stream: seq<EventQueues.Event>,
                      as_: seq<Drms.Action>, env: nat -> nat, res: nat, w: Drms.Params)
    requires w.Valid() && res > 0 && Faithful(calls, pending, stream)
    ensures Machine(DrmsCalls(Drms.Run(as_, w), calls + Emitted(pending), env, res, w))
         == Machine(Drms.Run(as_ + DrmsStream(stream, env, res), w))
  {
    hide Drms.Run, Faithful, DrmsCalls, DrmsStream, Machine;
    DrmsMergingIsInvisible(calls, pending, stream, Drms.Run(as_, w), env, res, w);
    DrmsStreamRun(as_, stream, env, res, w);
  }
}
