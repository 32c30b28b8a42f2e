module DrmsExact {
  // The dynamic input sizes are exact: what every step of the interleaved machine keeps,
  // and what follows for every run.

  import opened ActivationStack
  import opened ShadowMap
  import opened DrmsHistory
  import opened DrmsCompression
  import opened Drms

  // --- the invariant, thread by thread ---

  ghost predicate Ordered(th: Thread, counter: nat) {
    && |th.entries| == |th.frames|
    && Increasing(th.frames)
    && (forall i :: 0 <= i < |th.frames| ==> 0 < th.frames[i].id <= counter)
    && forall g :: Cell(th.shadow, g) <= counter
  }

  // A private cell tells, for every activation, whether the thread accessed the
  // granule since that activation was entered.
  ghost predicate Located(th: Thread, h: seq<Event>) {
    && |th.entries| == |th.frames|
    && (forall i :: 0 <= i < |th.entries| ==> th.entries[i] <= |h|)
    && (forall g :: LastAccess(h, th.who, g) >= 0 ==> g in th.shadow)
    && forall g, i :: 0 <= i < |th.frames| ==>
      (th.frames[i].id <= Cell(th.shadow, g) <==> th.entries[i] <= LastAccess(h, th.who, g))
  }

  // A private cell is older than the global one when somebody else wrote the granule
  // since; once the counter ran out, possibly also when the thread never accessed it.
  ghost predicate Versioned(th: Thread, global: Shadow, h: seq<Event>, exact: bool) {
    forall g ::
      && (Renewed(h, th.who, g) ==> Cell(th.shadow, g) < Cell(global, g))
      && (Cell(th.shadow, g) < Cell(global, g) ==>
            Renewed(h, th.who, g) || (!exact && LastAccess(h, th.who, g) == -1))
  }

  ghost predicate SizesExact(th: Thread, h: seq<Event>) {
    && |th.entries| == |th.frames|
    && forall i :: 0 <= i < |th.frames| ==>
      Suffix(Sizes(th.frames), i) == DynamicSize(h, th.who, th.entries[i])
  }

  ghost predicate StatsExact(th: Thread, h: seq<Event>, exact: bool) {
    && |th.entries| == |th.frames|
    && forall i :: 0 <= i < |th.frames| ==>
      && Suffix(SyscallCounts(th.frames), i) == KernelInput(h, th.who, th.entries[i])
      && Suffix(ThreadCounts(th.frames), i) >= ThreadInput(h, th.who, th.entries[i])
      && (exact ==> Suffix(ThreadCounts(th.frames), i) == ThreadInput(h, th.who, th.entries[i]))
      && Suffix(SyscallCounts(th.frames), i) + Suffix(ThreadCounts(th.frames), i) <= Suffix(Sizes(th.frames), i)
  }

  ghost predicate ThreadInv(th: Thread, counter: nat, global: Shadow, h: seq<Event>, exact: bool) {
    && Ordered(th, counter)
    && Located(th, h)
    && Versioned(th, global, h, exact)
    && SizesExact(th, h)
    && StatsExact(th, h, exact)
  }

  // The invariant of thread th in configuration c.
  ghost predicate Sound(th: Thread, c: Config) {
    ThreadInv(th, c.counter, c.global, c.history, c.exact)
  }

  ghost predicate Behind(th: Thread, counter: nat) {
    forall g :: Cell(th.shadow, g) < counter
  }

  ghost predicate GlobalInv(counter: nat, global: Shadow, io: set<nat>, h: seq<Event>, exact: bool) {
    && (forall g :: Cell(global, g) <= counter)
    && (forall g :: LastWrite(h, g) >= 0 ==> Cell(global, g) > 0)
    && (forall g :: exact && Cell(global, g) > 0 ==> LastWrite(h, g) >= 0)
    && (forall g :: g in io <==> KernelLast(h, g))
  }

  ghost predicate WritesSound(c: Config) {
    GlobalInv(c.counter, c.global, c.io, c.history, c.exact)
  }

  ghost predicate NamesInv(c: Config) {
    && 0 !in c.threads
    && (c.current == 0 || c.current in c.threads)
    && (forall t :: t in c.threads ==> c.threads[t].who < c.born)
    && (forall t, u :: t in c.threads && u in c.threads && t != u ==> c.threads[t].who != c.threads[u].who)
    && (forall k :: 0 <= k < |c.history| && c.history[k].Access? ==> c.history[k].who < c.born)
  }

  ghost predicate DistinctIds(threads: map<nat, Thread>) {
    forall t, u, i, j :: t in threads && u in threads && t != u
      && 0 <= i < |threads[t].frames| && 0 <= j < |threads[u].frames|
      ==> threads[t].frames[i].id != threads[u].frames[j].id
  }

  ghost predicate Inv(c: Config, w: Params) {
    && w.Valid()
    && 0 < c.counter < w.limit
    && NamesInv(c)
    && WritesSound(c)
    && DistinctIds(c.threads)
    && (forall t :: t in c.threads ==> Sound(c.threads[t], c))
    && (forall t :: t in c.threads && c.current != 0 && t != c.current ==> Behind(c.threads[t], c.counter))
  }

  // The state right after an increment of the counter: nobody used its new value yet.
  ghost predicate JustBumped(c: Config) {
    forall t :: t in c.threads ==> Behind(c.threads[t], c.counter)
  }

  // --- the counter ---

  lemma CompressedOrder(ids: set<nat>, th: Thread, global: Shadow)
    requires |th.entries| == |th.frames| && Increasing(th.frames)
    requires forall i :: 0 <= i < |th.frames| ==> 0 < th.frames[i].id && th.frames[i].id in ids
    ensures var d := CompressedThread(ids, global, th);
      Ordered(d, 3 * (|ids| + 2)) && Behind(d, 3 * (|ids| + 2))
      && forall i :: 0 <= i < |d.frames| ==> d.frames[i].id < 3 * (|ids| + 2)
  {
    var d := CompressedThread(ids, global, th);
    forall i | 0 <= i < |th.frames| ensures 0 < d.frames[i].id < 3 * (|ids| + 2) {
      RankMonotone(ids, 0, th.frames[i].id);
    }
    forall i, j | 0 <= i < j < |th.frames| ensures d.frames[i].id < d.frames[j].id {
      RankMonotone(ids, th.frames[i].id, th.frames[j].id);
    }
    forall g ensures Cell(d.shadow, g) < 3 * (|ids| + 2) {
      CounterAhead(ids, global, th.shadow, g);
    }
  }

  lemma CompressedLocates(ids: set<nat>, th: Thread, global: Shadow, h: seq<Event>)
    requires Located(th, h)
    requires forall i :: 0 <= i < |th.frames| ==> 0 < th.frames[i].id && th.frames[i].id in ids
    ensures Located(CompressedThread(ids, global, th), h)
  {
    var d := CompressedThread(ids, global, th);
    forall g, i | 0 <= i < |th.frames|
      ensures d.frames[i].id <= Cell(d.shadow, g) <==> th.entries[i] <= LastAccess(h, th.who, g)
    {
      LocalAnswer(ids, global, th.shadow, g, th.frames[i].id);
    }
  }

  lemma {:induction false} CompressedVersions(ids: set<nat>, th: Thread, global: Shadow, h: seq<Event>, exact: bool)
    requires Located(th, h) && Versioned(th, global, h, exact)
    ensures Versioned(CompressedThread(ids, global, th), CompressedGlobal(ids, global), h, false)
  {
    var d := CompressedThread(ids, global, th);
    forall g
      ensures Renewed(h, th.who, g) ==> Cell(d.shadow, g) < Cell(CompressedGlobal(ids, global), g)
      ensures Cell(d.shadow, g) < Cell(CompressedGlobal(ids, global), g) ==>
        Renewed(h, th.who, g) || LastAccess(h, th.who, g) == -1
    {
      GlobalAnswer(ids, global, th.shadow, g);
    }
  }

  lemma CompressedCounts(ids: set<nat>, th: Thread, global: Shadow, h: seq<Event>, exact: bool)
    requires SizesExact(th, h) && StatsExact(th, h, exact)
    ensures SizesExact(CompressedThread(ids, global, th), h) && StatsExact(CompressedThread(ids, global, th), h, false)
  {
    var d := CompressedThread(ids, global, th);
    assert Sizes(d.frames) == Sizes(th.frames);
    assert SyscallCounts(d.frames) == SyscallCounts(th.frames);
    assert ThreadCounts(d.frames) == ThreadCounts(th.frames);
  }

  lemma {:induction false} BumpThread(c: Config, t: nat, w: Params)
    requires Inv(c, w) && t in c.threads
    ensures var d := Bump(c, w);
      && Sound(d.threads[t], d) && Behind(d.threads[t], d.counter)
      && forall i :: 0 <= i < |d.threads[t].frames| ==> d.threads[t].frames[i].id < d.counter
  {
    hide Located, Versioned, SizesExact, StatsExact, CompressedThread, CompressedGlobal, GlobalInv, NamesInv, DistinctIds;
    assert Sound(c.threads[t], c);
    if c.counter + 1 == w.limit {
      CompressedSound(Ids(c.threads), c.threads[t], c);
    }
  }

  lemma CompressedSound(ids: set<nat>, th: Thread, c: Config)
    requires Sound(th, c) && forall i :: 0 <= i < |th.frames| ==> th.frames[i].id in ids
    ensures var d := CompressedThread(ids, c.global, th); var counter := 3 * (|ids| + 2);
      && ThreadInv(d, counter, CompressedGlobal(ids, c.global), c.history, false) && Behind(d, counter)
      && forall i :: 0 <= i < |d.frames| ==> d.frames[i].id < counter
  {
    hide Located, Versioned, SizesExact, StatsExact, CompressedThread, CompressedGlobal;
    CompressedOrder(ids, th, c.global);
    CompressedLocates(ids, th, c.global, c.history);
    CompressedVersions(ids, th, c.global, c.history, c.exact);
    CompressedCounts(ids, th, c.global, c.history, c.exact);
  }

  lemma CompressedDistinct(c: Config, w: Params)
    requires DistinctIds(c.threads)
    ensures DistinctIds(Bump(c, w).threads)
  {
    var d := Bump(c, w);
    if c.counter + 1 == w.limit {
      var ids := Ids(c.threads);
      forall t, u, i, j | t in c.threads && u in c.threads && t != u
        && 0 <= i < |c.threads[t].frames| && 0 <= j < |c.threads[u].frames|
        ensures d.threads[t].frames[i].id != d.threads[u].frames[j].id
      {
        RankDecides(ids, c.threads[t].frames[i].id, c.threads[u].frames[j].id);
        RankDecides(ids, c.threads[u].frames[j].id, c.threads[t].frames[i].id);
      }
    }
  }

  lemma BumpGlobal(c: Config, w: Params)
    requires WritesSound(c)
    ensures WritesSound(Bump(c, w))
  {
    if c.counter + 1 == w.limit {
      var ids := Ids(c.threads);
      forall g ensures Cell(CompressedGlobal(ids, c.global), g) <= 3 * (|ids| + 2) {
        CounterAhead(ids, c.global, map[], g);
      }
    }
  }

  lemma BumpNames(c: Config, w: Params)
    requires NamesInv(c)
    ensures NamesInv(Bump(c, w))
    ensures Bump(c, w).threads.Keys == c.threads.Keys
  {
  }

  lemma {:induction false} BumpKeeps(c: Config, w: Params)
    requires Inv(c, w) && BumpEnabled(c, w)
    ensures Inv(Bump(c, w), w) && JustBumped(Bump(c, w))
  {
    hide Ordered, Located, Versioned, SizesExact, StatsExact, GlobalInv, DistinctIds, NamesInv;
    var d := Bump(c, w);
    BumpNames(c, w);
    BumpGlobal(c, w);
    CompressedDistinct(c, w);
    assert 0 < d.counter < w.limit;
    forall t | t in d.threads ensures Sound(d.threads[t], d) && Behind(d.threads[t], d.counter) {
      BumpThread(c, t, w);
    }
  }

  // --- thread switches and thread starts ---

  lemma NewcomerInv(c: Config)
    requires WritesSound(c) && NamesInv(c)
    ensures Sound(Thread([], [], map[], c.born, []), c)
  {
    var th := Thread([], [], map[], c.born, []);
    forall g ensures LastAccess(c.history, c.born, g) == -1
      ensures Renewed(c.history, c.born, g) <==> LastWrite(c.history, g) >= 0
    {
    }
  }

  lemma {:induction false} StartedKeeps(c: Config, tid: nat, w: Params)
    requires Inv(c, w) && tid > 0 && tid !in c.threads
    ensures Inv(Started(c, tid), w)
  {
    hide Ordered, Located, Versioned, SizesExact, StatsExact, GlobalInv;
    var d := Started(c, tid);
    NewcomerInv(c);
    forall t | t in d.threads ensures Sound(d.threads[t], d) {
      if t != tid { assert Sound(c.threads[t], c); }
    }
  }

  lemma FinishedKeeps(c: Config, tid: nat, w: Params)
    requires Inv(c, w) && tid in c.threads
    ensures Inv(c.(threads := c.threads - {tid}, current := 0), w)
  {
    hide Ordered, Located, Versioned, SizesExact, StatsExact, GlobalInv;
    var d := c.(threads := c.threads - {tid}, current := 0);
    forall t | t in d.threads ensures Sound(d.threads[t], d) {
      assert Sound(c.threads[t], c);
    }
  }

  // A bump that also changes the running thread: what a switch starts with.
  lemma {:induction false} SwitchBumpKeeps(c: Config, tid: nat, w: Params)
    requires Inv(c, w) && BumpEnabled(c, w)
    ensures var b := Bump(c, w); var d := Bump(c.(current := tid), w);
      d == b.(current := tid) && b.threads.Keys == c.threads.Keys && Inv(b, w) && JustBumped(b)
  {
    BumpKeeps(c, w);
    BumpNames(c, w);
  }

  lemma {:induction false} SwitchedKeeps(c: Config, tid: nat, w: Params)
    requires Inv(c, w) && (tid != c.current ==> BumpEnabled(c, w)) && tid > 0
    ensures Inv(Switched(c, tid, w), w)
    ensures tid != c.current ==> JustBumped(Switched(c, tid, w))
    ensures Switched(c, tid, w).current == tid
  {
    hide Ordered, Located, Versioned, SizesExact, StatsExact, GlobalInv, DistinctIds, NamesInv;
    if tid != c.current {
      SwitchBumpKeeps(c, tid, w);
      var b := Bump(c, w);
      var d := if tid in b.threads then b else Started(b, tid);
      if tid !in b.threads { StartedKeeps(b, tid, w); }
      RenamedKeeps(d, tid, w);
      assert Switched(c, tid, w) == d.(current := tid);
    }
  }

  lemma RenamedKeeps(d: Config, tid: nat, w: Params)
    requires Inv(d, w) && JustBumped(d) && tid in d.threads
    ensures Inv(d.(current := tid), w) && JustBumped(d.(current := tid))
  {
    hide Ordered, Located, Versioned, SizesExact, StatsExact, GlobalInv;
    var e := d.(current := tid);
    forall t | t in e.threads ensures Sound(e.threads[t], e) {
      assert Sound(d.threads[t], d);
    }
  }

  // --- calls and returns ---

  // Replacing one thread by one that satisfies the invariant.
  lemma ReplaceKeeps(c: Config, t: nat, th: Thread, w: Params)
    requires Inv(c, w) && t in c.threads && th.who == c.threads[t].who
    requires Sound(th, c)
    requires c.current != 0 && t != c.current ==> Behind(th, c.counter)
    requires forall u, i, j ::
      u in c.threads && u != t && 0 <= i < |th.frames| && 0 <= j < |c.threads[u].frames| ==>
      th.frames[i].id != c.threads[u].frames[j].id
    ensures Inv(c.(threads := c.threads[t := th]), w)
  {
    hide Ordered, Located, Versioned, SizesExact, StatsExact, GlobalInv;
    var d := c.(threads := c.threads[t := th]);
    forall u | u in d.threads ensures Sound(d.threads[u], d) {
      if u != t { assert Sound(c.threads[u], c); }
    }
  }

  lemma PushedCounts(th: Thread, id: nat, h: seq<Event>, exact: bool)
    requires SizesExact(th, h) && StatsExact(th, h, exact)
    ensures var d := th.(frames := th.frames + [NewActivation(id)], entries := th.entries + [|h|]);
      SizesExact(d, h) && StatsExact(d, h, exact)
  {
    hide DynamicSize, KernelInput, ThreadInput;
    var frames := th.frames + [NewActivation(id)];
    assert Sizes(frames) == Sizes(th.frames) + [0];
    assert SyscallCounts(frames) == SyscallCounts(th.frames) + [0];
    assert ThreadCounts(frames) == ThreadCounts(th.frames) + [0];
    forall i | 0 <= i < |frames|
      ensures Suffix(Sizes(frames), i) == if i < |th.frames| then Suffix(Sizes(th.frames), i) else 0
      ensures Suffix(SyscallCounts(frames), i) == if i < |th.frames| then Suffix(SyscallCounts(th.frames), i) else 0
      ensures Suffix(ThreadCounts(frames), i) == if i < |th.frames| then Suffix(ThreadCounts(th.frames), i) else 0
    {
      if i < |th.frames| {
        SuffixAppend(Sizes(th.frames), 0, i);
        SuffixAppend(SyscallCounts(th.frames), 0, i);
        SuffixAppend(ThreadCounts(th.frames), 0, i);
      } else {
        SuffixTop(Sizes(frames));
        SuffixTop(SyscallCounts(frames));
        SuffixTop(ThreadCounts(frames));
      }
    }
    NothingYet(h, th.who, |h|);
  }

  lemma PushedThreadInv(th: Thread, c: Config)
    requires Sound(th, c) && Behind(th, c.counter) && c.counter > 0
    requires forall i :: 0 <= i < |th.frames| ==> th.frames[i].id < c.counter
    ensures Sound(th.(frames := th.frames + [NewActivation(c.counter)], entries := th.entries + [|c.history|]), c)
  {
    hide SizesExact, StatsExact;
    PushedCounts(th, c.counter, c.history, c.exact);
  }

  lemma HiddenThreadInv(th: Thread, hidden: seq<bool>, c: Config)
    requires Sound(th, c)
    ensures Sound(th.(hidden := hidden), c)
  {
  }

  lemma {:induction false} EnteredKeeps(c: Config, skip: bool, w: Params)
    requires Inv(c, w) && c.current in c.threads && (Bumps(c, Enter(skip)) ==> BumpEnabled(c, w))
    ensures Inv(Entered(c, skip, w), w)
  {
    hide Ordered, Located, Versioned, SizesExact, StatsExact, GlobalInv;
    var th := c.threads[c.current];
    if skip || |th.hidden| > 0 {
      HiddenThreadInv(th, th.hidden + [skip], c);
      ReplaceKeeps(c, c.current, th.(hidden := th.hidden + [skip]), w);
    } else {
      BumpKeeps(c, w);
      BumpNames(c, w);
      BumpThread(c, c.current, w);
      var d := Bump(c, w);
      var th := d.threads[c.current];
      PushedThreadInv(th, d);
      forall u | u in d.threads && u != c.current
        ensures forall j :: 0 <= j < |d.threads[u].frames| ==> d.threads[u].frames[j].id < d.counter
      {
        BumpThread(c, u, w);
      }
      ReplaceKeeps(d, c.current, th.(
        frames := th.frames + [NewActivation(d.counter)], entries := th.entries + [|c.history|]), w);
    }
  }

  lemma PoppedThreadInv(th: Thread, c: Config)
    requires Sound(th, c) && |th.frames| > 0
    ensures Sound(th.(frames := Fold(th.frames), entries := th.entries[..|th.entries| - 1]), c)
  {
    var d := th.(frames := Fold(th.frames), entries := th.entries[..|th.entries| - 1]);
    assert forall i :: 0 <= i < |d.frames| ==> d.frames[i].id == th.frames[i].id;
    forall i | 0 <= i < |d.frames|
      ensures Suffix(Sizes(d.frames), i) == Suffix(Sizes(th.frames), i)
      ensures Suffix(SyscallCounts(d.frames), i) == Suffix(SyscallCounts(th.frames), i)
      ensures Suffix(ThreadCounts(d.frames), i) == Suffix(ThreadCounts(th.frames), i)
    {
      FoldSum(th.frames, i);
    }
  }

  lemma PoppedIds(th: Thread)
    requires |th.frames| > 0
    ensures forall i :: 0 <= i < |Fold(th.frames)| ==> Fold(th.frames)[i].id == th.frames[i].id
  {
  }

  lemma {:induction false} ReturnedKeeps(c: Config, tid: nat, w: Params)
    requires Inv(c, w) && tid in c.threads
    ensures Inv(Returned(c, tid), w)
  {
    hide Ordered, Located, Versioned, SizesExact, StatsExact, GlobalInv, Fold;
    var th := c.threads[tid];
    assert Sound(th, c);
    if |th.hidden| > 0 {
      HiddenThreadInv(th, th.hidden[..|th.hidden| - 1], c);
      ReplaceKeeps(c, tid, th.(hidden := th.hidden[..|th.hidden| - 1]), w);
    } else if |th.frames| > 0 && |th.entries| > 0 {
      PoppedThreadInv(th, c);
      PoppedIds(th);
      ReplaceKeeps(c, tid, th.(frames := Fold(th.frames), entries := th.entries[..|th.entries| - 1]), w);
    }
  }

  // --- accesses ---

  lemma InducedSums(s: seq<Activation>, kernel: bool, i: nat)
    requires i < |s|
    ensures Suffix(Sizes(Induced(s, kernel)), i) == Suffix(Sizes(s), i) + 1
    ensures Suffix(SyscallCounts(Induced(s, kernel)), i) == Suffix(SyscallCounts(s), i) + (if kernel then 1 else 0)
    ensures Suffix(ThreadCounts(Induced(s, kernel)), i) == Suffix(ThreadCounts(s), i) + (if kernel then 0 else 1)
  {
    var t := |s| - 1;
    var r := Induced(s, kernel);
    assert Sizes(r) == Sizes(s)[t := Sizes(s)[t] + 1];
    assert SyscallCounts(r) == SyscallCounts(s)[t := SyscallCounts(s)[t] + (if kernel then 1 else 0)];
    assert ThreadCounts(r) == ThreadCounts(s)[t := ThreadCounts(s)[t] + (if kernel then 0 else 1)];
    SuffixUpdate(Sizes(s), t, Sizes(r)[t], i);
    SuffixUpdate(SyscallCounts(s), t, SyscallCounts(r)[t], i);
    SuffixUpdate(ThreadCounts(s), t, ThreadCounts(r)[t], i);
  }

  lemma CountedSums(s: seq<Activation>, prev: nat, written: nat, kernel: bool, i: nat)
    requires i < |s| && Increasing(s)
    ensures var r := Counted(s, prev, written, kernel);
      && Suffix(Sizes(r), i) == Suffix(Sizes(s), i) + (if prev < written || prev < s[i].id then 1 else 0)
      && Suffix(SyscallCounts(r), i) == Suffix(SyscallCounts(s), i) + (if prev < written && kernel then 1 else 0)
      && Suffix(ThreadCounts(r), i) == Suffix(ThreadCounts(s), i) + (if prev < written && !kernel then 1 else 0)
  {
    assert s[i].id <= s[|s| - 1].id;
    if prev < written {
      InducedSums(s, kernel, i);
    } else if prev < s[|s| - 1].id {
      CreditSum(s, prev, i);
      CreditShape(s, prev);
      assert SyscallCounts(Credit(s, prev)) == SyscallCounts(s);
      assert ThreadCounts(Credit(s, prev)) == ThreadCounts(s);
    }
  }

  lemma CountedIds(s: seq<Activation>, prev: nat, written: nat, kernel: bool)
    requires |s| > 0
    ensures forall i :: 0 <= i < |s| ==> Counted(s, prev, written, kernel)[i].id == s[i].id
  {
    if prev >= written && prev < s[|s| - 1].id {
      CreditShape(s, prev);
    }
  }

  // The global shadow memory after event e at time `counter`.
  function Written(global: Shadow, e: Event, counter: nat, segment: nat): Shadow
    requires segment > 0
  {
    if Writes(e, e.granule) then Stored(global, e.granule, counter, segment) else global
  }

  lemma BystanderVersions(th: Thread, counter: nat, global: Shadow, h: seq<Event>, exact: bool, e: Event, seg: nat)
    requires seg > 0 && Versioned(th, global, h, exact)
    requires !(e.Access? && e.who == th.who)
    requires Behind(th, counter)
    ensures Versioned(th, Written(global, e, counter, seg), h + [e], exact)
  {
    forall g
      ensures LastAccess(h + [e], th.who, g) == LastAccess(h, th.who, g)
      ensures Renewed(h + [e], th.who, g) <==> (Renewed(h, th.who, g) || Writes(e, g))
    {
      LastStep(h, e, th.who, g);
    }
  }

  // An event of somebody else.
  lemma {:induction false} BystanderKeeps(th: Thread, counter: nat, global: Shadow, h: seq<Event>, exact: bool, e: Event, seg: nat)
    requires seg > 0 && ThreadInv(th, counter, global, h, exact)
    requires !(e.Access? && e.who == th.who)
    requires Behind(th, counter)
    ensures ThreadInv(th, counter, Written(global, e, counter, seg), h + [e], exact)
  {
    BystanderVersions(th, counter, global, h, exact, e, seg);
    hide Versioned;
    forall g ensures LastAccess(h + [e], th.who, g) == LastAccess(h, th.who, g) {
      LastStep(h, e, th.who, g);
    }
    forall i | 0 <= i < |th.frames|
      ensures DynamicSize(h + [e], th.who, th.entries[i]) == DynamicSize(h, th.who, th.entries[i])
      ensures KernelInput(h + [e], th.who, th.entries[i]) == KernelInput(h, th.who, th.entries[i])
      ensures ThreadInput(h + [e], th.who, th.entries[i]) == ThreadInput(h, th.who, th.entries[i])
    {
      InputStep(h, e, th.who, th.entries[i]);
    }
  }

  lemma OwnVersions(th: Thread, counter: nat, global: Shadow, h: seq<Event>, exact: bool, e: Event, seg: nat)
    requires seg > 0 && Versioned(th, global, h, exact) && counter > 0
    requires e.Access? && e.who == th.who
    requires forall g :: Cell(global, g) <= counter
    ensures Versioned(th.(shadow := Stored(th.shadow, e.granule, counter, seg)),
                      Written(global, e, counter, seg), h + [e], exact)
  {
    forall g
      ensures LastAccess(h + [e], th.who, g) == if g == e.granule then |h| else LastAccess(h, th.who, g)
      ensures LastForeign(h + [e], th.who, g) == LastForeign(h, th.who, g) < |h|
    {
      LastStep(h, e, th.who, g);
    }
  }

  lemma OwnLocates(th: Thread, counter: nat, h: seq<Event>, e: Event, seg: nat)
    requires seg > 0 && Located(th, h) && Ordered(th, counter)
    requires e.Access? && e.who == th.who
    ensures Located(th.(shadow := Stored(th.shadow, e.granule, counter, seg)), h + [e])
    ensures Ordered(th.(shadow := Stored(th.shadow, e.granule, counter, seg)), counter)
  {
    hide LastForeign, LastWrite, LastAccess;
    var d := th.(shadow := Stored(th.shadow, e.granule, counter, seg));
    assert e.granule in Segment(e.granule, seg);
    forall g ensures LastAccess(h + [e], th.who, g) == if g == e.granule then |h| else LastAccess(h, th.who, g) {
      LastStep(h, e, th.who, g);
    }
    forall g, i | 0 <= i < |d.frames|
      ensures d.frames[i].id <= Cell(d.shadow, g) <==> d.entries[i] <= LastAccess(h + [e], d.who, g)
    {
      assert th.frames[i].id <= Cell(th.shadow, g) <==> th.entries[i] <= LastAccess(h, th.who, g);
    }
  }

  // The frames of the accessing thread.
  function Updated(th: Thread, e: Event, global: Shadow, io: set<nat>): (r: seq<Activation>)
    requires |th.frames| > 0 && e.Access?
    ensures |r| == |th.frames|
  {
    if e.read then Counted(th.frames, Cell(th.shadow, e.granule), Cell(global, e.granule), e.granule in io) else th.frames
  }

  lemma OwnCountsAt(th: Thread, global: Shadow, io: set<nat>, h: seq<Event>, exact: bool, e: Event, i: nat)
    requires i < |th.frames| && Increasing(th.frames) && Located(th, h) && Versioned(th, global, h, exact)
    requires SizesExact(th, h) && StatsExact(th, h, exact)
    requires e.Access? && e.who == th.who
    requires forall g :: g in io <==> KernelLast(h, g)
    ensures var r := Updated(th, e, global, io); var n := h + [e]; var p := th.entries[i];
      && Suffix(Sizes(r), i) == DynamicSize(n, th.who, p)
      && Suffix(SyscallCounts(r), i) == KernelInput(n, th.who, p)
      && Suffix(ThreadCounts(r), i) >= ThreadInput(n, th.who, p)
      && (exact ==> Suffix(ThreadCounts(r), i) == ThreadInput(n, th.who, p))
      && Suffix(SyscallCounts(r), i) + Suffix(ThreadCounts(r), i) <= Suffix(Sizes(r), i)
  {
    var g := e.granule;
    var prev, written := Cell(th.shadow, g), Cell(global, g);
    InputStep(h, e, th.who, th.entries[i]);
    if KernelLast(h, g) && LastAccess(h, th.who, g) == -1 { KernelIsForeign(h, th.who, g); }
    assert th.frames[i].id <= prev <==> th.entries[i] <= LastAccess(h, th.who, g);
    if e.read {
      CountedSums(th.frames, prev, written, g in io, i);
    }
  }

  // A granule the thread never accessed, last written by the kernel, is renewed.
  lemma KernelIsForeign(h: seq<Event>, who: nat, g: nat)
    requires KernelLast(h, g) && LastAccess(h, who, g) == -1
    ensures Renewed(h, who, g)
  {
    assert ForeignWrite(h[LastWrite(h, g)], who, g);
  }

  // The accessing thread afterwards.
  function Accessing(th: Thread, counter: nat, global: Shadow, io: set<nat>, e: Event, seg: nat): Thread
    requires seg > 0 && |th.frames| > 0 && e.Access?
  {
    th.(frames := Updated(th, e, global, io), shadow := Stored(th.shadow, e.granule, counter, seg))
  }

  lemma {:induction false} OwnCounts(th: Thread, counter: nat, global: Shadow, io: set<nat>, h: seq<Event>, exact: bool, e: Event, seg: nat)
    requires seg > 0 && |th.frames| > 0 && Increasing(th.frames) && Located(th, h) && Versioned(th, global, h, exact)
    requires SizesExact(th, h) && StatsExact(th, h, exact)
    requires e.Access? && e.who == th.who
    requires forall g :: g in io <==> KernelLast(h, g)
    ensures SizesExact(Accessing(th, counter, global, io, e, seg), h + [e])
    ensures StatsExact(Accessing(th, counter, global, io, e, seg), h + [e], exact)
  {
    hide Updated, Stored, Suffix, DynamicSize, KernelInput, ThreadInput, Located, Versioned, KernelLast;
    forall i | 0 <= i < |th.frames|
      ensures var r := Updated(th, e, global, io); var n := h + [e]; var p := th.entries[i];
        && Suffix(Sizes(r), i) == DynamicSize(n, th.who, p)
        && Suffix(SyscallCounts(r), i) == KernelInput(n, th.who, p)
        && Suffix(ThreadCounts(r), i) >= ThreadInput(n, th.who, p)
        && (exact ==> Suffix(ThreadCounts(r), i) == ThreadInput(n, th.who, p))
        && Suffix(SyscallCounts(r), i) + Suffix(ThreadCounts(r), i) <= Suffix(Sizes(r), i)
    {
      OwnCountsAt(th, global, io, h, exact, e, i);
    }
  }

  lemma AccessingIds(th: Thread, counter: nat, global: Shadow, io: set<nat>, e: Event, seg: nat)
    requires seg > 0 && |th.frames| > 0 && e.Access?
    ensures forall i :: 0 <= i < |th.frames| ==> Accessing(th, counter, global, io, e, seg).frames[i].id == th.frames[i].id
  {
    CountedIds(th.frames, Cell(th.shadow, e.granule), Cell(global, e.granule), e.granule in io);
  }

  lemma {:induction false} OwnKeeps(th: Thread, counter: nat, global: Shadow, io: set<nat>, h: seq<Event>, exact: bool, e: Event, seg: nat)
    requires seg > 0 && counter > 0 && ThreadInv(th, counter, global, h, exact)
    requires |th.frames| > 0 && e.Access? && e.who == th.who
    requires GlobalInv(counter, global, io, h, exact)
    ensures ThreadInv(Accessing(th, counter, global, io, e, seg), counter, Written(global, e, counter, seg), h + [e], exact)
  {
    hide SizesExact, StatsExact, LastAccess, LastForeign, LastWrite, Counted, Stored, Updated, Written;
    AccessingIds(th, counter, global, io, e, seg);
    OwnVersions(th, counter, global, h, exact, e, seg);
    OwnLocates(th, counter, h, e, seg);
    OwnCounts(th, counter, global, io, h, exact, e, seg);
  }

  lemma GlobalKeeps(counter: nat, global: Shadow, io: set<nat>, h: seq<Event>, exact: bool, e: Event, seg: nat)
    requires seg > 0 && counter > 0 && GlobalInv(counter, global, io, h, exact)
    ensures GlobalInv(counter, Written(global, e, counter, seg),
              if !Writes(e, e.granule) then io else if e.KernelWrite? then io + {e.granule} else io - {e.granule},
              h + [e], exact)
  {
    forall g
      ensures LastWrite(h + [e], g) == if Writes(e, g) then |h| else LastWrite(h, g)
      ensures KernelLast(h + [e], g) == if Writes(e, g) then e.KernelWrite? else KernelLast(h, g)
    {
      LastStep(h, e, 0, g);
    }
  }

  lemma {:induction false} TouchedKeeps(c: Config, g: nat, read: bool, write: bool, w: Params)
    requires Inv(c, w) && Tracked(c)
    ensures Inv(Touched(c, g, read, write, w), w)
  {
    hide Ordered, Located, Versioned, SizesExact, StatsExact, GlobalInv, Counted, Stored;
    var th := c.threads[c.current];
    var e := Access(th.who, g, read, write);
    var d := Touched(c, g, read, write, w);
    OwnKeeps(th, c.counter, c.global, c.io, c.history, c.exact, e, w.segment);
    GlobalKeeps(c.counter, c.global, c.io, c.history, c.exact, e, w.segment);
    CountedIds(th.frames, Cell(th.shadow, g), Cell(c.global, g), g in c.io);
    forall t | t in d.threads ensures Sound(d.threads[t], d) {
      if t != c.current {
        BystanderKeeps(c.threads[t], c.counter, c.global, c.history, c.exact, e, w.segment);
      }
    }
  }

  lemma {:induction false} KernelStoredKeeps(c: Config, g: nat, w: Params)
    requires Inv(c, w) && JustBumped(c)
    ensures Inv(KernelStored(c, g, w), w) && JustBumped(KernelStored(c, g, w))
    ensures KernelStored(c, g, w).threads == c.threads && KernelStored(c, g, w).counter == c.counter
  {
    hide Ordered, Located, Versioned, SizesExact, StatsExact, GlobalInv;
    var d := KernelStored(c, g, w);
    if Tracked(c) {
      GlobalKeeps(c.counter, c.global, c.io, c.history, c.exact, KernelWrite(g), w.segment);
      forall t | t in d.threads ensures Sound(d.threads[t], d) {
        BystanderKeeps(c.threads[t], c.counter, c.global, c.history, c.exact, KernelWrite(g), w.segment);
      }
    }
  }

  lemma {:induction false} AllKernelStoredKeeps(c: Config, gs: seq<nat>, w: Params)
    requires Inv(c, w) && JustBumped(c)
    ensures Inv(AllKernelStored(c, gs, w), w) && JustBumped(AllKernelStored(c, gs, w))
  {
    assert w.Valid();
    hide Inv, JustBumped, KernelStored;
    if |gs| > 0 {
      AllKernelStoredKeeps(c, gs[..|gs| - 1], w);
      KernelStoredKeeps(AllKernelStored(c, gs[..|gs| - 1], w), gs[|gs| - 1], w);
    }
  }

  // --- main results ---

  lemma StepKeeps(c: Config, a: Action, w: Params)
    requires Inv(c, w) && Enabled(c, a, w)
    ensures Inv(Step(c, a, w), w)
  {
    hide Sound, GlobalInv, DistinctIds, JustBumped, Behind;
    match a
    case Switch(tid) => SwitchedKeeps(c, tid, w);
    case Idle =>
      var d := c.(current := 0);
      forall t | t in d.threads ensures Sound(d.threads[t], d) { SoundTransfers(c.threads[t], c, d); }
    case Create(tid) => StartedKeeps(c, tid, w);
    case Finish(tid) => FinishedKeeps(c, tid, w);
    case Enter(skip) => EnteredKeeps(c, skip, w);
    case Return(tid) => ReturnedKeeps(c, tid, w);
    case Touch(g, read, write) => if Tracked(c) { TouchedKeeps(c, g, read, write, w); }
    case Syscall(tid, gs) =>
      if tid == c.current { BumpKeeps(c, w); } else { SwitchedKeeps(c, tid, w); }
      AllKernelStoredKeeps(if tid == c.current then Bump(c, w) else Switched(c, tid, w), gs, w);
  }

  lemma SoundTransfers(th: Thread, c: Config, d: Config)
    requires Sound(th, c) && d == c.(current := d.current)
    ensures Sound(th, d)
  {
  }

  lemma {:induction false} RunKeeps(run: seq<Action>, w: Params)
    requires w.Valid() && Legal(run, w)
    ensures Inv(Run(run, w), w)
  {
    hide Step, Enabled;
    if |run| == 0 {
    } else {
      hide Inv;
      RunKeeps(run[..|run| - 1], w);
      StepKeeps(Run(run[..|run| - 1], w), run[|run| - 1], w);
    }
  }

  // For every thread and every activation on its stack, in every interleaving: the
  // partial sizes from that activation up add up to its dynamic read memory size.
  lemma {:induction false} SizesAreExact(run: seq<Action>, w: Params, t: nat, i: nat)
    requires w.Valid() && Legal(run, w)
    requires t in Run(run, w).threads && i < |Run(run, w).threads[t].frames|
    ensures var c := Run(run, w); var th := c.threads[t];
      && |th.entries| == |th.frames|
      && Suffix(Sizes(th.frames), i) == DynamicSize(c.history, th.who, th.entries[i])
      && Suffix(SyscallCounts(th.frames), i) == KernelInput(c.history, th.who, th.entries[i])
      && Suffix(ThreadCounts(th.frames), i) >= ThreadInput(c.history, th.who, th.entries[i])
      && (c.exact ==> Suffix(ThreadCounts(th.frames), i) == ThreadInput(c.history, th.who, th.entries[i]))
      && Suffix(SyscallCounts(th.frames), i) + Suffix(ThreadCounts(th.frames), i) <= Suffix(Sizes(th.frames), i)
  {
    RunKeeps(run, w);
    hide Run, Legal, Suffix, NamesInv, DistinctIds, WritesSound, Ordered, Located, Versioned;
    assert Sound(Run(run, w).threads[t], Run(run, w));
  }

  // What is recorded when the running activation of a thread returns.
  lemma {:induction false} RecordedIsExact(run: seq<Action>, w: Params, t: nat)
    requires w.Valid() && Legal(run, w)
    requires t in Run(run, w).threads && |Run(run, w).threads[t].frames| > 0
    ensures var c := Run(run, w); var th := c.threads[t]; var top := th.frames[|th.frames| - 1];
      && |th.entries| == |th.frames|
      && top.inputSize == DynamicSize(c.history, th.who, th.entries[|th.frames| - 1])
      && top.cumulSyscall == KernelInput(c.history, th.who, th.entries[|th.frames| - 1])
      && top.cumulThread >= ThreadInput(c.history, th.who, th.entries[|th.frames| - 1])
      && (c.exact ==> top.cumulThread == ThreadInput(c.history, th.who, th.entries[|th.frames| - 1]))
      && top.cumulSyscall + top.cumulThread <= top.inputSize
  {
    hide Run, Legal, DynamicSize, KernelInput, ThreadInput, Suffix;
    var frames := Run(run, w).threads[t].frames;
    SizesAreExact(run, w, t, |frames| - 1);
    SuffixTop(Sizes(frames));
    SuffixTop(SyscallCounts(frames));
    SuffixTop(ThreadCounts(frames));
  }
}
