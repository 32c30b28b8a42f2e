module DrmsStrays {
  // The input charged to other threads, exactly. When the counter runs out, a granule that
  // was never written but shares a segment with a written one becomes older, for every thread
  // that never used that segment, than a write: the first read of it by such a thread is
  // charged although nobody produced the value. Over every run the counts are the input from
  // other threads and these stray reads, and nothing else.

  import opened ActivationStack
  import opened ShadowMap
  import opened DrmsHistory
  import opened DrmsCompression
  import opened Drms
  import opened DrmsExact

  // --- stray reads, from the history and the places at which the counter ran out ---

  // Some write so far was to the segment of g.
  ghost predicate SegmentWritten(h: seq<Event>, g: nat, seg: nat)
    requires seg > 0
  {
    exists k :: 0 <= k < |h| && Writes(h[k], h[k].granule) && g in Segment(h[k].granule, seg)
  }

  ghost predicate SegmentUsed(h: seq<Event>, who: nat, g: nat, seg: nat)
    requires seg > 0
  {
    exists k :: 0 <= k < |h| && AccessBy(h[k], who, h[k].granule) && g in Segment(h[k].granule, seg)
  }

  // The counter ran out, at one of the positions `outs`, after a write to the segment of g
  // and before any access of `who` to it.
  ghost predicate Exposed(h: seq<Event>, outs: set<nat>, who: nat, g: nat, seg: nat)
    requires seg > 0
  {
    exists o :: o in outs && o <= |h| && SegmentWritten(h[..o], g, seg) && !SegmentUsed(h[..o], who, g, seg)
  }

  ghost predicate Stale(h: seq<Event>, outs: set<nat>, who: nat, g: nat, seg: nat)
    requires seg > 0
  {
    LastAccess(h, who, g) == -1 && LastWrite(h, g) == -1 && Exposed(h, outs, who, g, seg)
  }

  // After history h, event e is a stray read.
  ghost predicate Stray(h: seq<Event>, e: Event, outs: set<nat>, who: nat, seg: nat)
    requires seg > 0
  {
    e.Access? && e.who == who && e.read && Stale(h, outs, who, e.granule, seg)
  }

  ghost function StrayReads(h: seq<Event>, outs: set<nat>, who: nat, p: nat, seg: nat): set<nat>
    requires seg > 0
  {
    set k: nat | p <= k < |h| && Stray(h[..k], h[k], outs, who, seg)
  }

  // The lengths the history had when the counter ran out: after one bump, after one more
  // action, and during a run.
  function OutsAfterBump(c: Config, w: Params, outs: set<nat>): set<nat> {
    if c.counter + 1 == w.limit then outs + {|c.history|} else outs
  }

  function OutsAfter(c: Config, a: Action, w: Params, outs: set<nat>): set<nat> {
    if Bumps(c, a) then OutsAfterBump(c, w, outs) else outs
  }

  function Outs(run: seq<Action>, w: Params): set<nat>
    requires w.Valid()
  {
    if |run| == 0 then {}
    else
      var r, a := run[..|run| - 1], run[|run| - 1];
      OutsAfter(Run(r, w), a, w, Outs(r, w))
  }

  // --- the invariant, beside the one of the sizes ---

  ghost predicate Tight(th: Thread, global: Shadow, h: seq<Event>, outs: set<nat>, seg: nat)
    requires seg > 0
  {
    && (forall g :: g in th.shadow <==> SegmentUsed(h, th.who, g, seg))
    && forall g :: Cell(th.shadow, g) < Cell(global, g) <==> Renewed(h, th.who, g) || Stale(h, outs, th.who, g, seg)
  }

  ghost predicate Charged(th: Thread, h: seq<Event>, outs: set<nat>, seg: nat)
    requires seg > 0
  {
    && |th.entries| == |th.frames|
    && forall i :: 0 <= i < |th.frames| ==>
      Suffix(ThreadCounts(th.frames), i)
      == ThreadInput(h, th.who, th.entries[i]) + |StrayReads(h, outs, th.who, th.entries[i], seg)|
  }

  ghost predicate GlobalTight(global: Shadow, h: seq<Event>, outs: set<nat>, seg: nat)
    requires seg > 0
  {
    && (forall g :: g in global <==> SegmentWritten(h, g, seg))
    && forall g :: Cell(global, g) > 0 <==>
      LastWrite(h, g) >= 0 || exists o :: o in outs && o <= |h| && SegmentWritten(h[..o], g, seg)
  }

  ghost predicate Exact(th: Thread, c: Config, outs: set<nat>, seg: nat)
    requires seg > 0
  {
    Tight(th, c.global, c.history, outs, seg) && Charged(th, c.history, outs, seg)
  }

  ghost predicate StrayInv(c: Config, outs: set<nat>, seg: nat)
    requires seg > 0
  {
    && (forall o :: o in outs ==> o <= |c.history|)
    && (c.exact <==> outs == {})
    && GlobalTight(c.global, c.history, outs, seg)
    && forall t :: t in c.threads ==> Exact(c.threads[t], c, outs, seg)
  }

  // --- one more event ---

  lemma SegmentStep(h: seq<Event>, e: Event, who: nat, g: nat, seg: nat)
    requires seg > 0
    ensures SegmentWritten(h + [e], g, seg) <==>
      SegmentWritten(h, g, seg) || (Writes(e, e.granule) && g in Segment(e.granule, seg))
    ensures SegmentUsed(h + [e], who, g, seg) <==>
      SegmentUsed(h, who, g, seg) || (AccessBy(e, who, e.granule) && g in Segment(e.granule, seg))
  {
    hide Segment;
    var n := h + [e];
    assert n[|h|] == e;
    assert forall k :: 0 <= k < |h| ==> n[k] == h[k];
  }

  lemma ExposedStep(h: seq<Event>, e: Event, outs: set<nat>, who: nat, g: nat, seg: nat)
    requires seg > 0 && forall o :: o in outs ==> o <= |h|
    ensures Exposed(h + [e], outs, who, g, seg) <==> Exposed(h, outs, who, g, seg)
    ensures Stale(h + [e], outs, who, g, seg) <==>
      Stale(h, outs, who, g, seg) && !AccessBy(e, who, g) && !Writes(e, g)
  {
    hide SegmentWritten, SegmentUsed, LastAccess, LastWrite, AccessBy, Writes;
    assert forall o :: 0 <= o <= |h| ==> (h + [e])[..o] == h[..o];
    LastStep(h, e, who, g);
  }

  lemma {:induction false} StrayStep(h: seq<Event>, e: Event, outs: set<nat>, who: nat, p: nat, seg: nat)
    requires seg > 0 && p <= |h|
    ensures |StrayReads(h + [e], outs, who, p, seg)|
         == |StrayReads(h, outs, who, p, seg)| + (if Stray(h, e, outs, who, seg) then 1 else 0)
  {
    hide Stray;
    var n := h + [e];
    assert n[..|h|] == h;
    assert forall k :: 0 <= k < |h| ==> n[..k] == h[..k] && n[k] == h[k];
    assert StrayReads(n, outs, who, p, seg)
        == StrayReads(h, outs, who, p, seg) + (if Stray(h, e, outs, who, seg) then {|h|} else {});
    AddIf(StrayReads(h, outs, who, p, seg), |h|, Stray(h, e, outs, who, seg));
  }

  // A value somebody produced is not read astray.
  lemma NeverBoth(h: seq<Event>, outs: set<nat>, who: nat, g: nat, seg: nat)
    requires seg > 0 && Stale(h, outs, who, g, seg)
    ensures !Renewed(h, who, g) && !KernelLast(h, g)
  {
  }

  // A later overflow exposes nothing that was read before.
  lemma {:induction false} StrayLater(h: seq<Event>, outs: set<nat>, who: nat, k: nat, seg: nat)
    requires seg > 0 && k < |h|
    ensures Stray(h[..k], h[k], outs + {|h|}, who, seg) <==> Stray(h[..k], h[k], outs, who, seg)
  {
    hide SegmentWritten, SegmentUsed, LastAccess, LastWrite;
    var g := h[k].granule;
    assert |h[..k]| == k;
    assert forall o :: o in outs + {|h|} && o <= k <==> o in outs && o <= k;
    assert Exposed(h[..k], outs + {|h|}, who, g, seg) <==> Exposed(h[..k], outs, who, g, seg);
  }

  lemma {:induction false} OutsLater(h: seq<Event>, outs: set<nat>, who: nat, p: nat, seg: nat)
    requires seg > 0
    ensures StrayReads(h, outs + {|h|}, who, p, seg) == StrayReads(h, outs, who, p, seg)
  {
    hide Stray;
    forall k: nat | k < |h| {
      StrayLater(h, outs, who, k, seg);
    }
  }

  // --- the counter runs out ---

  lemma {:induction false} OutGlobal(c: Config, ids: set<nat>, outs: set<nat>, seg: nat)
    requires seg > 0 && StrayInv(c, outs, seg)
    ensures GlobalTight(CompressedGlobal(ids, c.global), c.history, outs + {|c.history|}, seg)
  {
    var h := c.history;
    var n := CompressedGlobal(ids, c.global);
    assert h[..|h|] == h;
    forall g
      ensures Cell(n, g) > 0 <==>
        LastWrite(h, g) >= 0 || exists o :: o in outs + {|h|} && o <= |h| && SegmentWritten(h[..o], g, seg)
    {
      WrittenSegment(h, g, seg);
      if o :| o in outs + {|h|} && o <= |h| && SegmentWritten(h[..o], g, seg) { SegmentPrefix(h, o, g, seg); }
      if g in c.global {
        assert |h| in outs + {|h|} && SegmentWritten(h[..|h|], g, seg);
      }
    }
  }

  lemma WrittenSegment(h: seq<Event>, g: nat, seg: nat)
    requires seg > 0
    ensures LastWrite(h, g) >= 0 ==> SegmentWritten(h, g, seg)
  {
    var k := LastWrite(h, g);
    if k >= 0 {
      assert h[k].granule == g && g in Segment(g, seg);
    }
  }

  lemma UsedSegment(h: seq<Event>, who: nat, g: nat, seg: nat)
    requires seg > 0
    ensures LastAccess(h, who, g) >= 0 ==> SegmentUsed(h, who, g, seg)
  {
    var k := LastAccess(h, who, g);
    if k >= 0 {
      assert h[k].granule == g && g in Segment(g, seg);
    }
  }

  lemma SegmentPrefix(h: seq<Event>, o: nat, g: nat, seg: nat)
    requires seg > 0 && o <= |h| && SegmentWritten(h[..o], g, seg)
    ensures SegmentWritten(h, g, seg)
  {
    var k :| 0 <= k < |h[..o]| && Writes(h[..o][k], h[..o][k].granule) && g in Segment(h[..o][k].granule, seg);
    assert h[k] == h[..o][k];
  }

  lemma {:induction false} OutTight(th: Thread, c: Config, ids: set<nat>, outs: set<nat>, seg: nat)
    requires seg > 0 && Tight(th, c.global, c.history, outs, seg) && GlobalTight(c.global, c.history, outs, seg)
    ensures Tight(CompressedThread(ids, c.global, th), CompressedGlobal(ids, c.global), c.history, outs + {|c.history|}, seg)
  {
    var h := c.history;
    var d, n := CompressedThread(ids, c.global, th), CompressedGlobal(ids, c.global);
    forall g
      ensures Cell(d.shadow, g) < Cell(n, g) <==>
        Renewed(h, th.who, g) || Stale(h, outs + {|h|}, th.who, g, seg)
    {
      GlobalAnswer(ids, c.global, th.shadow, g);
      ExposedNow(h, outs, th.who, g, seg);
      UsedSegment(h, th.who, g, seg);
    }
  }

  lemma ExposedNow(h: seq<Event>, outs: set<nat>, who: nat, g: nat, seg: nat)
    requires seg > 0
    ensures Exposed(h, outs + {|h|}, who, g, seg) <==>
      Exposed(h, outs, who, g, seg) || (SegmentWritten(h, g, seg) && !SegmentUsed(h, who, g, seg))
  {
    hide SegmentWritten, SegmentUsed;
    assert h[..|h|] == h;
    assert |h| in outs + {|h|};
  }

  lemma {:induction false} OutCharged(th: Thread, c: Config, ids: set<nat>, outs: set<nat>, seg: nat)
    requires seg > 0 && Charged(th, c.history, outs, seg)
    ensures Charged(CompressedThread(ids, c.global, th), c.history, outs + {|c.history|}, seg)
  {
    hide StrayReads, ThreadInput, Suffix;
    var d := CompressedThread(ids, c.global, th);
    assert ThreadCounts(d.frames) == ThreadCounts(th.frames);
    forall i | 0 <= i < |th.entries| {
      OutsLater(c.history, outs, th.who, th.entries[i], seg);
    }
  }

  lemma {:induction false} BumpStrays(c: Config, w: Params, outs: set<nat>)
    requires w.Valid() && StrayInv(c, outs, w.segment)
    ensures StrayInv(Bump(c, w), OutsAfterBump(c, w, outs), w.segment)
  {
    hide GlobalTight, Tight, Charged, CompressedGlobal;
    var d := Bump(c, w);
    if c.counter + 1 == w.limit {
      var ids := Ids(c.threads);
      assert |c.history| in OutsAfterBump(c, w, outs);
      OutGlobal(c, ids, outs, w.segment);
      forall t | t in d.threads ensures Exact(d.threads[t], d, outs + {|c.history|}, w.segment) {
        assert Exact(c.threads[t], c, outs, w.segment);
        OutTight(c.threads[t], c, ids, outs, w.segment);
        OutCharged(c.threads[t], c, ids, outs, w.segment);
      }
    } else {
      forall t | t in d.threads ensures Exact(d.threads[t], d, outs, w.segment) {
        assert Exact(c.threads[t], c, outs, w.segment);
      }
    }
  }

  // --- threads, calls and returns ---

  lemma {:induction false} StartedStrays(c: Config, tid: nat, outs: set<nat>, seg: nat)
    requires seg > 0 && NamesInv(c) && StrayInv(c, outs, seg)
    ensures StrayInv(Started(c, tid), outs, seg)
  {
    hide GlobalTight, Charged;
    var d := Started(c, tid);
    var th := Thread([], [], map[], c.born, []);
    NewcomerTight(c, outs, seg);
    ChargedNothing(th, c.history, outs, seg);
    forall t | t in d.threads ensures Exact(d.threads[t], d, outs, seg) {
      if t != tid { assert Exact(c.threads[t], c, outs, seg); }
    }
  }

  lemma {:induction false} NewcomerTight(c: Config, outs: set<nat>, seg: nat)
    requires seg > 0 && NamesInv(c) && StrayInv(c, outs, seg)
    ensures Tight(Thread([], [], map[], c.born, []), c.global, c.history, outs, seg)
  {
    var h := c.history;
    assert forall o, g :: 0 <= o <= |h| ==> !SegmentUsed(h[..o], c.born, g, seg);
    assert h[..|h|] == h;
    forall g
      ensures LastAccess(h, c.born, g) == -1
      ensures Renewed(h, c.born, g) <==> LastWrite(h, g) >= 0
    {
    }
  }

  lemma ChargedNothing(th: Thread, h: seq<Event>, outs: set<nat>, seg: nat)
    requires seg > 0 && |th.frames| == |th.entries| == 0
    ensures Charged(th, h, outs, seg)
  {
  }

  // Replacing a thread, or changing which one runs.
  lemma ReplaceStrays(c: Config, t: nat, th: Thread, outs: set<nat>, seg: nat)
    requires seg > 0 && StrayInv(c, outs, seg) && t in c.threads && Exact(th, c, outs, seg)
    ensures StrayInv(c.(threads := c.threads[t := th]), outs, seg)
  {
    hide GlobalTight, Tight, Charged;
    var d := c.(threads := c.threads[t := th]);
    forall u | u in d.threads ensures Exact(d.threads[u], d, outs, seg) {
      if u != t { assert Exact(c.threads[u], c, outs, seg); }
    }
  }

  lemma CurrentStrays(c: Config, d: Config, outs: set<nat>, seg: nat)
    requires seg > 0 && StrayInv(c, outs, seg) && d == c.(threads := d.threads, current := d.current)
    requires forall t :: t in d.threads ==> t in c.threads && d.threads[t] == c.threads[t]
    ensures StrayInv(d, outs, seg)
  {
    hide GlobalTight, Tight, Charged;
    forall t | t in d.threads ensures Exact(d.threads[t], d, outs, seg) {
      assert Exact(c.threads[t], c, outs, seg);
    }
  }

  lemma {:induction false} SwitchedStrays(c: Config, tid: nat, w: Params, outs: set<nat>)
    requires w.Valid() && NamesInv(c) && StrayInv(c, outs, w.segment)
    ensures StrayInv(Switched(c, tid, w), if tid != c.current then OutsAfterBump(c, w, outs) else outs, w.segment)
  {
    if tid != c.current {
      hide StrayInv, Started;
      BumpStrays(c, w, outs);
      BumpNames(c, w);
      var b := Bump(c, w);
      var d := if tid in b.threads then b else Started(b, tid);
      if tid !in b.threads { StartedStrays(b, tid, OutsAfterBump(c, w, outs), w.segment); }
      CurrentStrays(d, d.(current := tid), OutsAfterBump(c, w, outs), w.segment);
      SwitchedIsBump(c, tid, w);
    }
  }

  lemma SwitchedIsBump(c: Config, tid: nat, w: Params)
    requires w.Valid() && tid != c.current
    ensures var b := Bump(c, w); var d := if tid in b.threads then b else Started(b, tid);
      Switched(c, tid, w) == d.(current := tid)
  {
  }

  lemma {:induction false} PushedCharged(th: Thread, id: nat, h: seq<Event>, outs: set<nat>, seg: nat)
    requires seg > 0 && Charged(th, h, outs, seg)
    ensures Charged(th.(frames := th.frames + [NewActivation(id)], entries := th.entries + [|h|]), h, outs, seg)
  {
    hide ThreadInput, Stray;
    var frames := th.frames + [NewActivation(id)];
    assert ThreadCounts(frames) == ThreadCounts(th.frames) + [0];
    assert StrayReads(h, outs, th.who, |h|, seg) == {};
    NothingYet(h, th.who, |h|);
    forall i | 0 <= i < |frames|
      ensures Suffix(ThreadCounts(frames), i) == if i < |th.frames| then Suffix(ThreadCounts(th.frames), i) else 0
    {
      if i < |th.frames| {
        SuffixAppend(ThreadCounts(th.frames), 0, i);
      } else {
        SuffixTop(ThreadCounts(frames));
      }
    }
  }

  lemma HiddenExact(th: Thread, hidden: seq<bool>, c: Config, outs: set<nat>, seg: nat)
    requires seg > 0 && Exact(th, c, outs, seg)
    ensures Exact(th.(hidden := hidden), c, outs, seg)
  {
  }

  lemma {:induction false} EnteredStrays(c: Config, skip: bool, w: Params, outs: set<nat>)
    requires w.Valid() && c.current in c.threads && StrayInv(c, outs, w.segment)
    ensures StrayInv(Entered(c, skip, w), if Bumps(c, Enter(skip)) then OutsAfterBump(c, w, outs) else outs, w.segment)
  {
    hide GlobalTight, Tight, Charged, Bump;
    var th := c.threads[c.current];
    assert Exact(th, c, outs, w.segment);
    if skip || |th.hidden| > 0 {
      HiddenExact(th, th.hidden + [skip], c, outs, w.segment);
      ReplaceStrays(c, c.current, th.(hidden := th.hidden + [skip]), outs, w.segment);
    } else {
      BumpStrays(c, w, outs);
      BumpKeys(c, w);
      var d, now := Bump(c, w), OutsAfterBump(c, w, outs);
      var th := d.threads[c.current];
      assert Exact(th, d, now, w.segment);
      PushedCharged(th, d.counter, d.history, now, w.segment);
      var n := th.(frames := th.frames + [NewActivation(d.counter)], entries := th.entries + [|d.history|]);
      TightSame(th, n, d.global, d.history, now, w.segment);
      ReplaceStrays(d, c.current, n, now, w.segment);
    }
  }

  lemma BumpKeys(c: Config, w: Params)
    ensures Bump(c, w).threads.Keys == c.threads.Keys
    ensures Bump(c, w).history == c.history && Bump(c, w).current == c.current
  {
  }

  lemma TightSame(th: Thread, d: Thread, global: Shadow, h: seq<Event>, outs: set<nat>, seg: nat)
    requires seg > 0 && Tight(th, global, h, outs, seg) && d.who == th.who && d.shadow == th.shadow
    ensures Tight(d, global, h, outs, seg)
  {
  }

  lemma {:induction false} ReturnedStrays(c: Config, tid: nat, outs: set<nat>, seg: nat)
    requires seg > 0 && tid in c.threads && StrayInv(c, outs, seg)
    ensures StrayInv(Returned(c, tid), outs, seg)
  {
    hide ThreadInput, StrayReads, Stale, Renewed, Fold;
    var th := c.threads[tid];
    assert Exact(th, c, outs, seg);
    if |th.hidden| > 0 {
      ReplaceStrays(c, tid, th.(hidden := th.hidden[..|th.hidden| - 1]), outs, seg);
    } else if |th.frames| > 0 && |th.entries| > 0 {
      var d := th.(frames := Fold(th.frames), entries := th.entries[..|th.entries| - 1]);
      forall i | 0 <= i < |d.frames|
        ensures Suffix(ThreadCounts(d.frames), i) == Suffix(ThreadCounts(th.frames), i)
      {
        FoldSum(th.frames, i);
      }
      ReplaceStrays(c, tid, d, outs, seg);
    }
  }

  // --- accesses ---

  lemma GlobalEvent(counter: nat, global: Shadow, h: seq<Event>, outs: set<nat>, e: Event, seg: nat)
    requires seg > 0 && counter > 0 && GlobalTight(global, h, outs, seg)
    requires forall o :: o in outs ==> o <= |h|
    ensures GlobalTight(Written(global, e, counter, seg), h + [e], outs, seg)
  {
    hide SegmentWritten, LastWrite;
    assert forall o :: 0 <= o <= |h| ==> (h + [e])[..o] == h[..o];
    forall g
      ensures LastWrite(h + [e], g) == if Writes(e, g) then |h| else LastWrite(h, g)
      ensures SegmentWritten(h + [e], g, seg) <==>
        SegmentWritten(h, g, seg) || (Writes(e, e.granule) && g in Segment(e.granule, seg))
    {
      LastStep(h, e, 0, g);
      SegmentStep(h, e, 0, g, seg);
    }
  }

  lemma {:induction false} BystanderTight(th: Thread, counter: nat, global: Shadow, h: seq<Event>, outs: set<nat>, e: Event, seg: nat)
    requires seg > 0 && Tight(th, global, h, outs, seg) && Behind(th, counter)
    requires !(e.Access? && e.who == th.who)
    requires forall o :: o in outs ==> o <= |h|
    ensures Tight(th, Written(global, e, counter, seg), h + [e], outs, seg)
  {
    hide Stale, SegmentUsed, SegmentWritten;
    forall g
      ensures SegmentUsed(h + [e], th.who, g, seg) <==> SegmentUsed(h, th.who, g, seg)
      ensures Renewed(h + [e], th.who, g) <==> Renewed(h, th.who, g) || Writes(e, g)
      ensures Stale(h + [e], outs, th.who, g, seg) <==> Stale(h, outs, th.who, g, seg) && !Writes(e, g)
    {
      LastStep(h, e, th.who, g);
      SegmentStep(h, e, th.who, g, seg);
      ExposedStep(h, e, outs, th.who, g, seg);
    }
  }

  lemma {:induction false} BystanderCharged(th: Thread, h: seq<Event>, outs: set<nat>, e: Event, seg: nat)
    requires seg > 0 && Charged(th, h, outs, seg) && !(e.Access? && e.who == th.who)
    requires forall i :: 0 <= i < |th.entries| ==> th.entries[i] <= |h|
    ensures Charged(th, h + [e], outs, seg)
  {
    hide ThreadInput, StrayReads, Stale, Renewed;
    forall i | 0 <= i < |th.frames|
      ensures ThreadInput(h + [e], th.who, th.entries[i]) == ThreadInput(h, th.who, th.entries[i])
      ensures |StrayReads(h + [e], outs, th.who, th.entries[i], seg)| == |StrayReads(h, outs, th.who, th.entries[i], seg)|
    {
      InputStep(h, e, th.who, th.entries[i]);
      StrayStep(h, e, outs, th.who, th.entries[i], seg);
    }
  }

  lemma {:induction false} OwnTight(th: Thread, counter: nat, global: Shadow, io: set<nat>, h: seq<Event>, outs: set<nat>, e: Event, seg: nat)
    requires seg > 0 && |th.frames| > 0 && Tight(th, global, h, outs, seg)
    requires e.Access? && e.who == th.who
    requires forall g :: Cell(global, g) <= counter
    requires forall o :: o in outs ==> o <= |h|
    ensures Tight(Accessing(th, counter, global, io, e, seg), Written(global, e, counter, seg), h + [e], outs, seg)
  {
    hide Stale, SegmentUsed, SegmentWritten;
    forall g
      ensures SegmentUsed(h + [e], th.who, g, seg) <==> SegmentUsed(h, th.who, g, seg) || g in Segment(e.granule, seg)
      ensures Renewed(h + [e], th.who, g) <==> Renewed(h, th.who, g) && g != e.granule
      ensures Stale(h + [e], outs, th.who, g, seg) <==> Stale(h, outs, th.who, g, seg) && g != e.granule
    {
      LastStep(h, e, th.who, g);
      SegmentStep(h, e, th.who, g, seg);
      ExposedStep(h, e, outs, th.who, g, seg);
    }
  }

  lemma {:induction false} OwnCharged(th: Thread, counter: nat, global: Shadow, io: set<nat>, h: seq<Event>, outs: set<nat>, e: Event, seg: nat)
    requires seg > 0 && |th.frames| > 0 && Increasing(th.frames)
    requires Tight(th, global, h, outs, seg) && Charged(th, h, outs, seg)
    requires forall i :: 0 <= i < |th.entries| ==> th.entries[i] <= |h|
    requires e.Access? && e.who == th.who
    requires forall g :: g in io <==> KernelLast(h, g)
    ensures Charged(Accessing(th, counter, global, io, e, seg), h + [e], outs, seg)
  {
    hide ThreadInput, StrayReads, Stale, Renewed, KernelLast, Counted;
    var g := e.granule;
    var prev, written := Cell(th.shadow, g), Cell(global, g);
    if Stale(h, outs, th.who, g, seg) { NeverBoth(h, outs, th.who, g, seg); }
    forall i | 0 <= i < |th.frames|
      ensures Suffix(ThreadCounts(Updated(th, e, global, io)), i)
        == ThreadInput(h + [e], th.who, th.entries[i]) + |StrayReads(h + [e], outs, th.who, th.entries[i], seg)|
    {
      InputStep(h, e, th.who, th.entries[i]);
      StrayStep(h, e, outs, th.who, th.entries[i], seg);
      if e.read { CountedSums(th.frames, prev, written, g in io, i); }
    }
  }

  lemma {:induction false} TouchedStrays(c: Config, g: nat, read: bool, write: bool, w: Params, outs: set<nat>)
    requires Inv(c, w) && Tracked(c) && StrayInv(c, outs, w.segment)
    ensures StrayInv(Touched(c, g, read, write, w), outs, w.segment)
  {
    hide GlobalTight, Tight, Charged, Versioned, SizesExact, StatsExact, Counted, Stored, KernelLast, DistinctIds;
    var th := c.threads[c.current];
    var e := Access(th.who, g, read, write);
    var d := Touched(c, g, read, write, w);
    GlobalEvent(c.counter, c.global, c.history, outs, e, w.segment);
    assert Sound(th, c) && Exact(th, c, outs, w.segment);
    OwnTight(th, c.counter, c.global, c.io, c.history, outs, e, w.segment);
    OwnCharged(th, c.counter, c.global, c.io, c.history, outs, e, w.segment);
    forall t | t in d.threads ensures Exact(d.threads[t], d, outs, w.segment) {
      assert Sound(c.threads[t], c) && Exact(c.threads[t], c, outs, w.segment);
      if t != c.current {
        BystanderTight(c.threads[t], c.counter, c.global, c.history, outs, e, w.segment);
        BystanderCharged(c.threads[t], c.history, outs, e, w.segment);
      }
    }
  }

  lemma {:induction false} KernelStoredStrays(c: Config, g: nat, w: Params, outs: set<nat>)
    requires Inv(c, w) && JustBumped(c) && StrayInv(c, outs, w.segment)
    ensures StrayInv(KernelStored(c, g, w), outs, w.segment)
  {
    hide GlobalTight, Tight, Charged, Versioned, SizesExact, StatsExact, Stored, DistinctIds, NamesInv;
    var d := KernelStored(c, g, w);
    var e := KernelWrite(g);
    if Tracked(c) {
      GlobalEvent(c.counter, c.global, c.history, outs, e, w.segment);
      forall t | t in d.threads ensures Exact(d.threads[t], d, outs, w.segment) {
        assert Sound(c.threads[t], c) && Exact(c.threads[t], c, outs, w.segment);
        BystanderTight(c.threads[t], c.counter, c.global, c.history, outs, e, w.segment);
        BystanderCharged(c.threads[t], c.history, outs, e, w.segment);
      }
    }
  }

  lemma {:induction false} AllKernelStoredStrays(c: Config, gs: seq<nat>, w: Params, outs: set<nat>)
    requires Inv(c, w) && JustBumped(c) && StrayInv(c, outs, w.segment)
    ensures StrayInv(AllKernelStored(c, gs, w), outs, w.segment)
  {
    assert w.Valid();
    hide Inv, JustBumped, StrayInv, KernelStored;
    if |gs| > 0 {
      var r := gs[..|gs| - 1];
      AllKernelStoredKeeps(c, r, w);
      AllKernelStoredStrays(c, r, w, outs);
      KernelStoredStrays(AllKernelStored(c, r, w), gs[|gs| - 1], w, outs);
    }
  }

  // --- every run ---

  lemma {:induction false} StepStrays(c: Config, a: Action, w: Params, outs: set<nat>)
    requires w.Valid() && StrayInv(c, outs, w.segment) && Inv(c, w) && Enabled(c, a, w)
    ensures StrayInv(Step(c, a, w), OutsAfter(c, a, w, outs), w.segment)
  {
    hide Sound, WritesSound, DistinctIds, NamesInv, JustBumped, Behind, StrayInv, Touched, Bump, Switched, Entered, Returned, AllKernelStored;
    match a
    case Switch(tid) => SwitchedStrays(c, tid, w, outs);
    case Idle => CurrentStrays(c, c.(current := 0), outs, w.segment);
    case Create(tid) => StartedStrays(c, tid, outs, w.segment);
    case Finish(tid) => CurrentStrays(c, c.(threads := c.threads - {tid}, current := 0), outs, w.segment);
    case Enter(skip) => EnteredStrays(c, skip, w, outs);
    case Return(tid) => ReturnedStrays(c, tid, outs, w.segment);
    case Touch(g, read, write) => if Tracked(c) { TouchedStrays(c, g, read, write, w, outs); }
    case Syscall(tid, gs) => SyscallStrays(c, tid, gs, w, outs);
  }

  lemma {:induction false} SyscallStrays(c: Config, tid: nat, gs: seq<nat>, w: Params, outs: set<nat>)
    requires w.Valid() && StrayInv(c, outs, w.segment) && Inv(c, w) && Enabled(c, Syscall(tid, gs), w)
    ensures StrayInv(Step(c, Syscall(tid, gs), w), OutsAfterBump(c, w, outs), w.segment)
  {
    hide Inv, NamesInv, JustBumped, BumpEnabled, StrayInv, Bump, Switched, AllKernelStored;
    NamesHold(c, w);
    if tid == c.current {
      BumpKeeps(c, w);
      BumpStrays(c, w, outs);
    } else {
      SwitchedKeeps(c, tid, w);
      SwitchedStrays(c, tid, w, outs);
    }
    AllKernelStoredStrays(if tid == c.current then Bump(c, w) else Switched(c, tid, w), gs, w, OutsAfterBump(c, w, outs));
  }

  lemma NamesHold(c: Config, w: Params)
    requires Inv(c, w)
    ensures w.Valid() && NamesInv(c)
  {
    hide NamesInv;
  }

  lemma {:induction false} RunStrays(run: seq<Action>, w: Params)
    requires w.Valid() && Legal(run, w)
    ensures StrayInv(Run(run, w), Outs(run, w), w.segment)
  {
    hide Step, Enabled, Inv, OutsAfter;
    if |run| == 0 {
    } else {
      hide StrayInv;
      var r := run[..|run| - 1];
      RunKeeps(r, w);
      RunStrays(r, w);
      StepStrays(Run(r, w), run[|run| - 1], w, Outs(r, w));
    }
  }

  // The test that charges a read, in every state of every run.
  lemma {:induction false} ChargedExactlyWhen(run: seq<Action>, w: Params, t: nat, g: nat)
    requires w.Valid() && Legal(run, w) && t in Run(run, w).threads
    ensures var c := Run(run, w); var th := c.threads[t];
      Cell(th.shadow, g) < Cell(c.global, g) <==>
        Renewed(c.history, th.who, g) || Stale(c.history, Outs(run, w), th.who, g, w.segment)
    ensures Run(run, w).exact <==> Outs(run, w) == {}
  {
    RunStrays(run, w);
    hide Run, Legal, Outs, Charged, GlobalTight, Stale, Renewed;
    assert Exact(Run(run, w).threads[t], Run(run, w), Outs(run, w), w.segment);
  }

  // For every thread and every activation, in every interleaving and after any number of
  // overflows: the partial counts from that activation up add up to the input produced by
  // other threads and the stray reads since the activation was entered.
  lemma {:induction false} ThreadInputIsExact(run: seq<Action>, w: Params, t: nat, i: nat)
    requires w.Valid() && Legal(run, w)
    requires t in Run(run, w).threads && i < |Run(run, w).threads[t].frames|
    ensures var c := Run(run, w); var th := c.threads[t];
      && |th.entries| == |th.frames|
      && Suffix(ThreadCounts(th.frames), i) == ThreadInput(c.history, th.who, th.entries[i])
           + |StrayReads(c.history, Outs(run, w), th.who, th.entries[i], w.segment)|
      && (Suffix(ThreadCounts(th.frames), i) == ThreadInput(c.history, th.who, th.entries[i])
          <==> StrayReads(c.history, Outs(run, w), th.who, th.entries[i], w.segment) == {})
  {
    RunStrays(run, w);
    hide Run, Legal, Outs, Suffix, Tight, GlobalTight, StrayReads;
    assert Exact(Run(run, w).threads[t], Run(run, w), Outs(run, w), w.segment);
  }

  // What is recorded as input from other threads when the running activation returns.
  lemma {:induction false} RecordedThreadInput(run: seq<Action>, w: Params, t: nat)
    requires w.Valid() && Legal(run, w)
    requires t in Run(run, w).threads && |Run(run, w).threads[t].frames| > 0
    ensures var c := Run(run, w); var th := c.threads[t]; var top := |th.frames| - 1;
      && |th.entries| == |th.frames|
      && th.frames[top].cumulThread == ThreadInput(c.history, th.who, th.entries[top])
           + |StrayReads(c.history, Outs(run, w), th.who, th.entries[top], w.segment)|
  {
    hide Run, Legal, Outs, ThreadInput, StrayReads, Suffix;
    var frames := Run(run, w).threads[t].frames;
    ThreadInputIsExact(run, w, t, |frames| - 1);
    SuffixTop(ThreadCounts(frames));
  }

  // --- a run with a stray read ---

  lemma LegalStep(run: seq<Action>, k: nat, w: Params)
    requires w.Valid() && k < |run| && Legal(run[..k], w) && Enabled(Run(run[..k], w), run[k], w)
    ensures Legal(run[..k + 1], w) && Run(run[..k + 1], w) == Step(Run(run[..k], w), run[k], w)
  {
    assert run[..k + 1][..k] == run[..k];
  }

  // Thread 1 writes granule 1 and thread 2 starts; system calls that store nothing move the
  // counter to its last value, and it runs out when thread 2 enters a function, which then reads
  // granule 0. Nobody wrote it, and yet it is charged to thread 1.
  function StrayRun(limit: nat): seq<Action>
    requires limit > 6
  {
    [Switch(1), Enter(false), Touch(1, false, true), Return(1), Switch(2)] + seq(limit - 5, _ => Syscall(2, []))
    + [Enter(false), Touch(0, true, false)]
  }

  // Granule 1 is written at time 3.
  function FirstWrite(segment: nat): Shadow
    requires segment > 0
  {
    Stored(map[], 1, 3, segment)
  }

  function FirstThread(segment: nat): Thread
    requires segment > 0
  {
    Thread([], [], FirstWrite(segment), 0, [])
  }

  // The first four actions leave granule 1 written.
  lemma FirstThreadRuns(run: seq<Action>, w: Params)
    requires w.Valid() && run == StrayRun(w.limit)
    ensures Legal(run[..4], w)
    ensures Run(run[..4], w) == Config(3, 1, map[1 := FirstThread(w.segment)], FirstWrite(w.segment), {},
                                       [Access(0, 1, false, true)], 1, true)
  {
    hide Legal, Run, Stored, StrayRun;
    ActionsAt(run, w);
    var m := FirstWrite(w.segment);
    LegalNothing(w);
    assert run[..0] == [];
    LegalStep(run, 0, w);
    assert Run(run[..1], w) == Config(2, 1, map[1 := Thread([], [], map[], 0, [])], map[], {}, [], 1, true);
    LegalStep(run, 1, w);
    var idle := Run(run[..1], w).threads[1];
    assert idle.frames + [NewActivation(3)] == [NewActivation(3)] && idle.entries + [0] == [0];
    assert Run(run[..2], w) == Config(3, 1, map[1 := Thread([NewActivation(3)], [], map[], 0, [0])], map[], {}, [], 1, true);
    LegalStep(run, 2, w);
    assert Run(run[..3], w) == Config(3, 1, map[1 := Thread([NewActivation(3)], [], m, 0, [0])], m, {},
                                      [Access(0, 1, false, true)], 1, true);
    LegalStep(run, 3, w);
  }

  lemma ActionsAt(run: seq<Action>, w: Params)
    requires w.Valid() && run == StrayRun(w.limit)
    ensures |run| == w.limit + 2
    ensures run[0] == Switch(1) && run[1] == Enter(false) && run[2] == Touch(1, false, true) && run[3] == Return(1)
    ensures run[4] == Switch(2) && forall k :: 5 <= k < w.limit ==> run[k] == Syscall(2, [])
    ensures run[w.limit] == Enter(false) && run[w.limit + 1] == Touch(0, true, false)
  {
  }

  lemma LegalNothing(w: Params)
    requires w.Valid()
    ensures Legal([], w) && Run([], w) == Initial()
  {
  }

  function BothThreads(segment: nat): map<nat, Thread>
    requires segment > 0
  {
    map[1 := FirstThread(segment), 2 := Thread([], [], map[], 1, [])]
  }

  // Then thread 2 starts and the counter comes, one by one, to its last value.
  lemma {:induction false} SecondThreadWaits(run: seq<Action>, w: Params, k: nat)
    requires w.Valid() && run == StrayRun(w.limit) && 5 <= k <= w.limit
    ensures Legal(run[..k], w)
    ensures Run(run[..k], w) == Config(k - 1, 2, BothThreads(w.segment), FirstWrite(w.segment), {},
                                       [Access(0, 1, false, true)], 2, true)
  {
    hide Legal, Run, Stored, StrayRun;
    ActionsAt(run, w);
    if k == 5 {
      FirstThreadRuns(run, w);
      LegalStep(run, 4, w);
    } else {
      SecondThreadWaits(run, w, k - 1);
      LegalStep(run, k - 1, w);
    }
  }

  // The counter runs out.
  lemma {:induction false} CounterRunsOut(run: seq<Action>, w: Params)
    requires w.Valid() && w.segment > 1 && run == StrayRun(w.limit)
    ensures var n := w.limit + 1;
      && Legal(run[..n], w)
      && Run(run[..n], w).history == [Access(0, 1, false, true)] && Run(run[..n], w).current == 2
      && Run(run[..n], w).io == {} && 2 in Run(run[..n], w).threads
      && Run(run[..n], w).threads[2] == Thread([NewActivation(6)], [], map[], 1, [1])
      && Cell(Run(run[..n], w).global, 0) == 1
  {
    hide Legal, Run, Stored, StrayRun;
    ActionsAt(run, w);
    SecondThreadWaits(run, w, w.limit);
    var c := Run(run[..w.limit], w);
    assert Ids(c.threads) == {};
    LegalStep(run, w.limit, w);
    NeighbourRenumbered(w.segment);
    assert CompressedLocal({}, c.global, map[]) == map[];
  }

  // Granule 0 shares the segment of granule 1, and its zero becomes a one.
  lemma NeighbourRenumbered(segment: nat)
    requires segment > 1
    ensures Cell(CompressedGlobal({}, FirstWrite(segment)), 0) == 1
  {
    var m := FirstWrite(segment);
    assert 0 in Segment(1, segment);
    assert Cell(m, 0) == 0;
    assert 0 in m && m[0] == 0;
    assert Rank({}, 0) == 0;
  }

  // Whatever the limit of the counter, and in segments of more than one granule, there is a legal
  // run in which a read is charged to another thread that nobody produced the value of.
  lemma {:induction false} OverchargedRun(w: Params)
    requires w.Valid() && w.segment > 1
    ensures var run := StrayRun(w.limit); var c := Run(run, w);
      && Legal(run, w)
      && 2 in c.threads && |c.threads[2].frames| == |c.threads[2].entries| == 1
      && c.threads[2].frames[0].cumulThread == 1
      && ThreadInput(c.history, c.threads[2].who, c.threads[2].entries[0]) == 0
      && DynamicSize(c.history, c.threads[2].who, c.threads[2].entries[0]) == 1
  {
    hide Legal, Run, Stored, StrayRun;
    var run := StrayRun(w.limit);
    ActionsAt(run, w);
    CounterRunsOut(run, w);
    LegalStep(run, w.limit + 1, w);
    assert run[..w.limit + 2] == run;
    var c := Run(run, w);
    var h := [Access(0, 1, false, true)];
    assert c.history == h + [Access(1, 0, true, false)];
    InputStep(h, Access(1, 0, true, false), 1, 1);
    NothingYet(h, 1, 1);
  }
}
