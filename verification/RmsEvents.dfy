module RmsEvents {
  // The read memory size told from the events alone. A call is open until a return matches it,
  // an access is profiled when some call is open and none of a skipped function is, and the
  // input of a call is what the profiled accesses since its entry read first.

  import opened ActivationStack
  import opened CallMatching
  import opened Rms

  // --- what the events say ---

  function MarkOf(e: Event): Mark {
    match e
    case Enter(skip) => Call(skip)
    case Exit => Return
    case Touch(_) => Other
  }

  function Marks(es: seq<Event>): (ms: seq<Mark>)
    ensures |ms| == |es|
  {
    seq(|es|, k requires 0 <= k < |es| => MarkOf(es[k]))
  }

  ghost predicate ProfiledTouch(es: seq<Event>, k: nat) {
    k < |es| && es[k].Touch? && Profiled(Marks(es), k)
  }

  // The profiled accesses among the first k events.
  ghost function Accesses(es: seq<Event>, k: nat): seq<Access>
    requires k <= |es|
  {
    if k == 0 then []
    else Accesses(es, k - 1) + (if ProfiledTouch(es, k - 1) then [es[k - 1].access] else [])
  }

  // At event k a profiled access reads granule g, the first to touch it since the call at i.
  ghost predicate FirstReads(es: seq<Event>, i: nat, k: nat, g: nat) {
    && i < k && ProfiledTouch(es, k) && es[k].access == Access(g, true)
    && forall j :: i < j < k && ProfiledTouch(es, j) ==> es[j].access.granule != g
  }

  // The input of the call at i: the granules read before they were written since.
  ghost function Input(es: seq<Event>, i: nat): set<nat> {
    set k: nat | k < |es| && es[k].Touch? && FirstReads(es, i, k, es[k].access.granule) :: es[k].access.granule
  }

  // --- the machine against the events ---

  ghost predicate Tells(es: seq<Event>, k: nat, c: Config)
    requires k <= |es|
  {
    var o := OpenCalls(Marks(es), k);
    && PartsAt(Marks(es), k, Parts(|c.thread.frames|, c.thread.hidden))
    && |c.entries| == |c.thread.frames|
    && c.history == Accesses(es, k)
    && forall x :: 0 <= x < |c.entries| ==> c.entries[x] == |Accesses(es, o[x])|
  }

  lemma PartsNext(c: Config, e: Event, w: Params)
    requires w.Valid() && |c.entries| == |c.thread.frames|
    ensures var n := Next(c, e, w);
      && Parts(|n.thread.frames|, n.thread.hidden) == Moved(Parts(|c.thread.frames|, c.thread.hidden), MarkOf(e))
      && |n.entries| == |n.thread.frames|
  {
  }

  lemma {:induction false} TellsNext(es: seq<Event>, k: nat, c: Config, w: Params)
    requires w.Valid() && 0 < k <= |es| && Tells(es, k - 1, c)
    ensures Tells(es, k, Next(c, es[k - 1], w))
  {
    hide PartsAt, Profiled, Fold, Touched;
    var ms, p := Marks(es), Parts(|c.thread.frames|, c.thread.hidden);
    PartsTell(ms, k - 1, p);
    PartsStep(ms, k, p);
    PartsNext(c, es[k - 1], w);
    PartsLength(ms, k - 1, p);
  }

  lemma NothingTells(es: seq<Event>, w: Params)
    requires w.Valid()
    ensures Tells(es, 0, Run([], w))
  {
    NoParts(Marks(es));
  }

  lemma {:induction false} RunTells(es: seq<Event>, k: nat, w: Params)
    requires w.Valid() && k <= |es|
    ensures Tells(es, k, Run(es[..k], w))
  {
    hide Tells, Next;
    if k == 0 {
      assert es[..0] == [];
      NothingTells(es, w);
    } else {
      RunTells(es, k - 1, w);
      assert es[..k][..k - 1] == es[..k - 1];
      TellsNext(es, k, Run(es[..k - 1], w), w);
    }
  }

  /**
   For every stream of events: the history holds the profiled accesses in order, the profiled
   activations are the open calls below the first one of a skipped function, and each was
   entered after the profiled accesses that precede its call.
   */
  lemma {:induction false} RunFromEvents(es: seq<Event>, w: Params)
    requires w.Valid()
    ensures var c := Run(es, w); var o := OpenCalls(Marks(es), |es|);
      && c.history == Accesses(es, |es|)
      && |c.entries| == |c.thread.frames| <= |o|
      && (forall i: nat :: i in o <==> Open(Marks(es), i, |es|))
      && (forall x :: 0 <= x < |c.entries| ==> o[x] < |es| && es[o[x]] == Enter(false) && c.entries[x] == |Accesses(es, o[x])|)
      && (|c.entries| < |o| ==> o[|c.entries|] < |es| && es[o[|c.entries|]] == Enter(true))
  {
    hide Open, Accesses, Run, Profiled;
    RunTells(es, |es|, w);
    assert es[..|es|] == es;
    OpenCallsAreOpen(Marks(es), |es|);
  }

  // --- the history of a call against its events ---

  lemma {:induction false} AccessesGrow(es: seq<Event>, j: nat, k: nat)
    requires j <= k <= |es|
    ensures |Accesses(es, j)| <= |Accesses(es, k)| && Accesses(es, k)[..|Accesses(es, j)|] == Accesses(es, j)
    ensures j < k && ProfiledTouch(es, j) ==>
      |Accesses(es, j)| < |Accesses(es, k)| && Accesses(es, k)[|Accesses(es, j)|] == es[j].access
    decreases k
  {
    hide ProfiledTouch;
    if j < k { AccessesGrow(es, j, k - 1); }
  }

  // The event of a place in the history.
  lemma {:induction false} EventOf(es: seq<Event>, k: nat, m: nat) returns (j: nat)
    requires k <= |es| && m < |Accesses(es, k)|
    ensures j < k && ProfiledTouch(es, j) && |Accesses(es, j)| == m && Accesses(es, k)[m] == es[j].access
  {
    if m < |Accesses(es, k - 1)| {
      j := EventOf(es, k - 1, m);
    } else {
      j := k - 1;
    }
  }

  lemma {:induction false} CallIsNoTouch(es: seq<Event>, i: nat, j: nat)
    requires i < |es| && !es[i].Touch? && j < |es| && ProfiledTouch(es, j)
    ensures |Accesses(es, i)| <= |Accesses(es, j)| <==> i < j
  {
    if i < j {
      AccessesGrow(es, i, j);
    } else {
      AccessesGrow(es, j, i);
    }
  }

  lemma {:induction false} FirstReadInHistory(es: seq<Event>, i: nat, k: nat)
    requires i < |es| && !es[i].Touch? && ProfiledTouch(es, k)
    ensures var h, p, m := Accesses(es, |es|), |Accesses(es, i)|, |Accesses(es, k)|;
      && m < |h| && h[m] == es[k].access
      && (FirstReads(es, i, k, es[k].access.granule) <==> p <= m && h[m].read && FreshAt(h, p, m))
  {
    hide Profiled, Accesses;
    var h, p, m, g := Accesses(es, |es|), |Accesses(es, i)|, |Accesses(es, k)|, es[k].access.granule;
    AccessesGrow(es, k, |es|);
    CallIsNoTouch(es, i, k);
    if FreshAt(h, p, m) {
      forall j | i < j < k && ProfiledTouch(es, j) ensures es[j].access.granule != g {
        CallIsNoTouch(es, i, j);
        AccessesGrow(es, j, k);
        AccessesGrow(es, j, |es|);
      }
    }
    if forall j :: i < j < k && ProfiledTouch(es, j) ==> es[j].access.granule != g {
      forall q | p <= q < m ensures h[q].granule != g {
        assert h[..m] == Accesses(es, k);
        var j := EventOf(es, k, q);
        CallIsNoTouch(es, i, j);
      }
    }
  }

  lemma {:induction false} InputIsReadFirst(es: seq<Event>, i: nat)
    requires i < |es| && !es[i].Touch?
    ensures Input(es, i) == ReadFirst(Accesses(es, |es|), |Accesses(es, i)|)
  {
    hide Accesses, FirstReads, FreshAt, Profiled;
    var h, p := Accesses(es, |es|), |Accesses(es, i)|;
    forall g | g in Input(es, i) ensures g in ReadFirst(h, p) {
      var k: nat :| k < |es| && es[k].Touch? && FirstReads(es, i, k, g) && es[k].access.granule == g;
      FirstTouches(es, i, k, g);
      FirstReadInHistory(es, i, k);
    }
    forall g | g in ReadFirst(h, p) ensures g in Input(es, i) {
      var m :| p <= m < |h| && h[m].read && FreshAt(h, p, m) && h[m].granule == g;
      var k := EventOf(es, |es|, m);
      FirstReadInHistory(es, i, k);
    }
  }

  lemma FirstTouches(es: seq<Event>, i: nat, k: nat, g: nat)
    requires FirstReads(es, i, k, g)
    ensures ProfiledTouch(es, k)
  {
  }

  // --- main results ---

  /**
   In every stream of events, for the open calls below the first one of a skipped function:
   the partial sizes from a call upwards add up to the number of granules that were read
   since its entry before anything else touched them.
   */
  lemma {:induction false} SizesFromEvents(es: seq<Event>, w: Params, x: nat)
    requires w.Valid() && Shallow(es, w) && x < |Run(es, w).thread.frames|
    ensures var o := OpenCalls(Marks(es), |es|);
      x < |o| && Suffix(Sizes(Run(es, w).thread.frames), x) == |Input(es, o[x])|
  {
    hide Run, Shallow, Suffix, Accesses, ReadFirst, Input;
    RunFromEvents(es, w);
    SizesAreExact(es, w, x);
    InputIsReadFirst(es, OpenCalls(Marks(es), |es|)[x]);
  }

  /**
   What is recorded when a profiled call returns is the size of its input: there is such a
   call exactly when the events are profiled at this point, and it is the last one open.
   */
  lemma {:induction false} RecordedFromEvents(es: seq<Event>, w: Params, i: nat)
    requires w.Valid() && Shallow(es, w) && Profiled(Marks(es), |es|)
    requires Open(Marks(es), i, |es|) && forall j: nat :: i < j < |es| ==> !Open(Marks(es), j, |es|)
    ensures var frames := Run(es, w).thread.frames;
      |frames| > 0 && frames[|frames| - 1].inputSize == |Input(es, i)|
  {
    hide Run, Shallow, Open, Accesses, ReadFirst, Input, Profiled;
    var c, ms := Run(es, w), Marks(es);
    var o := OpenCalls(ms, |es|);
    RunFromEvents(es, w);
    RunTells(es, |es|, w);
    assert es[..|es|] == es;
    PartsTell(ms, |es|, Parts(|c.thread.frames|, c.thread.hidden));
    OpenCallsAreOpen(ms, |es|);
    LastIs(o, i, |es|);
    SizesFromEvents(es, w, |o| - 1);
    SuffixTop(Sizes(c.thread.frames));
  }

  lemma LastIs(o: seq<nat>, i: nat, k: nat)
    requires Ascending(o, k) && i in o && forall j: nat :: i < j < k ==> j !in o
    ensures |o| > 0 && o[|o| - 1] == i
  {
    assert o[|o| - 1] in o;
  }
}
