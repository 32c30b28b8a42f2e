module ProfileFiles {
  // What reading and merging profiles keep: everything printing relies on.

  import opened Common
  import opened Bindings
  import opened Profiles
  import opened ProfileMerge
  import opened Decimals
  import opened ProfileText

  // --- what reading and merging keep ---

  // The maps are in order and the running totals are the column sums.
  ghost predicate Sound(n: nat, outer: Outer, summary: Counts) {
    && AllUniform(outer, n) && Ordered(outer) && NoEmptyLines(outer) && summary == OuterTotal(outer, n)
  }

  lemma {:induction false} PutNoEmpty(o: Outer, key: FileFn, m: Inner)
    requires NoEmptyLines(o) && |m| > 0
    ensures NoEmptyLines(Put(CmpFileFn, o, key, m))
  {
    if |o| > 0 {
      PutNoEmpty(o[1..], key, m);
    }
  }

  lemma AddedSound(n: nat, st: Reading, line: ULong, c: Counts)
    requires |c| == n && Sound(n, st.outer, st.summary)
    ensures Consistent(n, st) && Sound(n, Added(st, line, c).outer, Added(st, line, c).summary)
  {
    var key := (st.fl, st.fn);
    AddCountsKeeps(st.outer, key, line, c);
    AddCountsTotal(st.outer, key, line, c);
    LinesUniform(st.outer, n, key);
    PutNoEmpty(st.outer, key, AddLine(Lines(st.outer, key), line, c));
  }

  lemma {:induction false} BodySound(n: nat, st: Reading, lines: seq<string>)
    requires Consistent(n, st) && Sound(n, st.outer, st.summary)
    ensures match Body(n, st, lines) case None => true case Some(r) => n > 0 && Sound(n, r.0, r.1)
    decreases |lines|
  {
    hide Sound, AddCounts, Numbers;
    if |lines| > 0 {
      var line := lines[0];
      if |line| > 0 && IsDigit(line[0]) {
        HandleKeeps(n, st, line);
        if HandleCounts(n, st, line).Some? {
          var xs := Numbers(line).value;
          AddedSound(n, st, xs[0], xs[1..]);
          BodySound(n, HandleCounts(n, st, line).value, lines[1..]);
        }
      } else if Starts(line, "fn=") {
        BodySound(n, st.(fn := line[3..]), lines[1..]);
      } else if Starts(line, "fl=") {
        BodySound(n, st.(fl := line[3..]), lines[1..]);
      }
    }
  }

  lemma LeadingDescsAre(lines: seq<string>)
    ensures forall i :: 0 <= i < LeadingDescs(lines) ==> Starts(lines[i], "desc: ")
  {
  }

  /** Every profile that is read can be printed, its totals being the column sums. */
  lemma ReadIsPrintable(lines: seq<string>)
    ensures Parse(lines).Some? ==> Printable(Parse(lines).value)
  {
    hide Body, EventCount, AllUniform, Ordered, NoEmptyLines, OuterTotal;
    if Parse(lines).Some? {
      var k := LeadingDescs(lines);
      var n := EventCount(lines[k + 1], 6);
      LeadingDescsAre(lines);
      NothingSound(n);
      BodySound(n, Reading([], Zeros(n), "???", "???"), lines[k + 2..]);
    }
  }

  lemma NothingSound(n: nat)
    ensures Sound(n, [], Zeros(n))
  {
  }

  lemma {:induction false} MergeNoEmpty(d: Outer, s: Outer, n: nat)
    requires AllUniform(d, n) && AllUniform(s, n) && NoEmptyLines(d) && NoEmptyLines(s)
    ensures NoEmptyLines(MergeOuter(d, s, n))
    decreases |s|
  {
    hide MergedLines;
    if |s| > 0 {
      var key, m := s[0].0, MergedLines(d, s[0].0, s[0].1, n);
      MergedNoEmpty(d, key, s[0].1, n);
      PutOuter(d, n, key, m);
      PutNoEmpty(d, key, m);
      MergeNoEmpty(Put(CmpFileFn, d, key, m), s[1..], n);
    }
  }

  lemma {:induction false} MergeInnerNoEmpty(d: Inner, s: Inner, n: nat)
    requires Uniform(d, n) && Uniform(s, n) && |d| > 0
    ensures |MergeInner(d, s, n)| > 0
    decreases |s|
  {
    if |s| > 0 {
      PutUniform(d, n, s[0].0, AddedCounts(d, s[0].0, s[0].1));
      MergeInnerNoEmpty(AddLine(d, s[0].0, s[0].1), s[1..], n);
    }
  }

  lemma {:induction false} MergedNoEmpty(o: Outer, key: FileFn, m: Inner, n: nat)
    requires AllUniform(o, n) && Uniform(m, n) && NoEmptyLines(o) && |m| > 0
    ensures |MergedLines(o, key, m, n)| > 0
  {
    GetAllUniform(o, n, key);
    GetNoEmpty(o, key);
    if Get(CmpFileFn, o, key).Some? {
      MergeInnerNoEmpty(Get(CmpFileFn, o, key).value, m, n);
    }
  }

  lemma {:induction false} GetNoEmpty(o: Outer, key: FileFn)
    requires NoEmptyLines(o)
    ensures Get(CmpFileFn, o, key).Some? ==> |Get(CmpFileFn, o, key).value| > 0
  {
    if |o| > 0 {
      GetNoEmpty(o[1..], key);
    }
  }

  lemma MergeSound(n: nat, d: Outer, ds: Counts, s: Outer, ss: Counts)
    requires Sound(n, d, ds) && Sound(n, s, ss)
    ensures Sound(n, MergeOuter(d, s, n), Plus(ds, ss))
  {
    MergeIsSum(d, s, n, ("", ""), 0);
    MergeTotal(d, s, n);
    MergeNoEmpty(d, s, n);
  }

  // --- merging whole profiles ---

  ghost predicate Mergeable(p: Profile, q: Profile) {
    && AllUniform(p.outer, p.nEvents) && AllUniform(q.outer, p.nEvents)
    && |p.summary| == |q.summary|
  }

  ghost function MergedProfile(p: Profile, q: Profile): Profile
    requires Mergeable(p, q)
  {
    p.(outer := MergeOuter(p.outer, q.outer, p.nEvents), summary := Plus(p.summary, q.summary))
  }

  lemma MergedPrintable(p: Profile, q: Profile)
    requires Printable(p) && Printable(q) && p.events == q.events
    ensures p.nEvents == q.nEvents && Mergeable(p, q) && Printable(MergedProfile(p, q))
    ensures Ordered(p.outer) && Ordered(q.outer)
  {
    MergeSound(p.nEvents, p.outer, p.summary, q.outer, q.summary);
  }

  /**
   The sum of two profiles of the same events: the description and command lines are those of the
   profile merged into, and at every file, function and line stand the counts of both, added
   column by column modulo 2^64, or those of the only one that has some.
   */
  lemma MergedIsSum(p: Profile, q: Profile, key: FileFn, line: ULong)
    requires Printable(p) && Printable(q) && p.events == q.events
    ensures Mergeable(p, q)
    ensures var m := MergedProfile(p, q); var a, b := At(p.outer, key, line), At(q.outer, key, line);
      && m.desc == p.desc && m.cmd == p.cmd && m.events == p.events && m.nEvents == p.nEvents
      && (a.Some? ==> |a.value| == p.nEvents) && (b.Some? ==> |b.value| == p.nEvents)
      && (a.None? ==> At(m.outer, key, line) == b)
      && (b.None? ==> At(m.outer, key, line) == a)
      && (a.Some? && b.Some? ==>
            && At(m.outer, key, line).Some? && |At(m.outer, key, line).value| == p.nEvents
            && forall e :: 0 <= e < p.nEvents ==> At(m.outer, key, line).value[e] == (a.value[e] + b.value[e]) % ULONG)
      && |m.summary| == |p.summary| == |q.summary|
      && forall e :: 0 <= e < |m.summary| ==> m.summary[e] == (p.summary[e] + q.summary[e]) % ULONG
  {
    hide MergeOuter, At, Ordered, EventCount;
    MergedPrintable(p, q);
    MergeIsSum(p.outer, q.outer, p.nEvents, key, line);
  }

  // --- a number that is not read back ---

  function Single(x: ULong): Profile {
    Profile(["desc: a"], "cmd: a", "events: I", 1, [(("f", "g"), [(1, [x])])], [x])
  }

  lemma SinglePrintable(x: ULong)
    ensures Printable(Single(x)) && (AllSmall(Single(x)) <==> x < SIGNED)
  {
    var p := Single(x);
    assert Starts("desc: a", "desc: ") && Starts("cmd: a", "cmd: ") && Starts("events: I", "events: ");
    assert EventCount("events: I", 8) == 0 && EventCount("events: I", 7) == 1 && EventCount("events: I", 6) == 1;
    var m: Inner := [(1, [x])];
    assert m[1..] == [] && InnerTotal(m, 1) == Plus([x], Zeros(1)) == [x];
    assert p.outer[1..] == [] && OuterTotal(p.outer, 1) == Plus([x], Zeros(1));
    assert p.outer[0].1[0].1[0] == x;
  }

  /**
   Two profiles that are read back exactly, and whose sum is printed but not read: each counts
   2^62 events of one line.
   */
  lemma SumNotRead()
    ensures var p := Single(SIGNED / 2);
      && Printable(p) && Parse(Show(p)) == Some(p)
      && Mergeable(p, p) && MergedProfile(p, p) == Single(SIGNED)
      && Printable(Single(SIGNED)) && Parse(Show(Single(SIGNED))) == None
  {
    hide Parse, Show, Printable, AllSmall, MergeOuter, Plus;
    var p := Single(SIGNED / 2);
    SinglePrintable(SIGNED / 2);
    SinglePrintable(SIGNED);
    RoundTrip(p);
    RoundTrip(Single(SIGNED));
    SingleMerge(SIGNED / 2);
  }

  lemma SingleMerge(x: ULong)
    requires x + x < ULONG
    ensures var p := Single(x); Mergeable(p, p) && MergedProfile(p, p) == Single(x + x)
  {
    hide Order, Plus;
    OrdersOfKeys();
    var o, m, c := Single(x).outer, Single(x).outer[0].1, Single(x).summary;
    SinglePlus(x);
    assert Get(CmpLine, m, 1) == Some(c) && m[1..] == [];
    assert AddLine(m, 1, c) == [(1, Plus(c, c))];
    assert MergeInner(m, m, 1) == MergeInner(AddLine(m, 1, c), [], 1);
    assert Get(CmpFileFn, o, ("f", "g")) == Some(m) && o[1..] == [];
    assert MergedLines(o, ("f", "g"), m, 1) == [(1, [x + x])];
    assert Put(CmpFileFn, o, ("f", "g"), [(1, [x + x])]) == Single(x + x).outer;
    assert MergeOuter(Single(x + x).outer, o[1..], 1) == Single(x + x).outer;
    assert MergeOuter(o, o, 1) == Single(x + x).outer;
    assert MergedProfile(Single(x), Single(x)).summary == [x + x];
  }

  lemma SinglePlus(x: ULong)
    requires x + x < ULONG
    ensures Plus([x], [x]) == [x + x]
  {
  }
}
