module ProfileText {
  // Profiles as text. What show_CacheProfFile prints, parse_CacheProfFile reads back as the same
  // profile, exactly when every number fits the signed format it is printed in.

  import opened Common
  import opened Bindings
  import opened Profiles
  import opened Decimals

  datatype Profile = Profile(desc: seq<string>, cmd: string, events: string, nEvents: nat,
                             outer: Outer, summary: Counts)

  predicate Starts(s: string, prefix: string) {
    |s| >= |prefix| && s[..|prefix|] == prefix
  }

  // --- printing ---

  function CountLine(line: ULong, c: Counts): string {
    Signed(line) + "   " + ShowCounts(c)
  }

  function ShowInner(m: Inner): seq<string> {
    if |m| == 0 then [] else [CountLine(m[0].0, m[0].1)] + ShowInner(m[1..])
  }

  function ShowOuter(o: Outer): seq<string> {
    if |o| == 0 then []
    else ["fl=" + o[0].0.0, "fn=" + o[0].0.1] + ShowInner(o[0].1) + ShowOuter(o[1..])
  }

  function SummaryLine(c: Counts): string {
    "summary:" + ShowTotals(c)
  }

  function Show(p: Profile): seq<string> {
    p.desc + [p.cmd, p.events] + ShowOuter(p.outer) + [SummaryLine(p.summary)]
  }

  // --- parsing ---

  datatype Reading = Reading(outer: Outer, summary: Counts, fl: string, fn: string)

  predicate Consistent(n: nat, st: Reading) {
    AllUniform(st.outer, n) && |st.summary| == n
  }

  // handle_counts, or nothing on a parse error.
  function HandleCounts(n: nat, st: Reading, text: string): Option<Reading>
    requires Consistent(n, st)
  {
    match Numbers(text)
    case None => None
    case Some(xs) =>
      if |xs| != n + 1 || n == 0 then None
      else Some(st.(outer := AddCounts(st.outer, (st.fl, st.fn), xs[0], xs[1..]), summary := Plus(st.summary, xs[1..])))
  }

  lemma HandleKeeps(n: nat, st: Reading, text: string)
    requires Consistent(n, st)
    ensures HandleCounts(n, st, text).Some? ==> Consistent(n, HandleCounts(n, st, text).value)
  {
    match Numbers(text)
    case None =>
    case Some(xs) =>
      if |xs| == n + 1 {
        var m := Lines(st.outer, (st.fl, st.fn));
        LinesUniform(st.outer, n, (st.fl, st.fn));
        PutUniform(m, n, xs[0], AddedCounts(m, xs[0], xs[1..]));
        PutOuter(st.outer, n, (st.fl, st.fn), AddLine(m, xs[0], xs[1..]));
      }
  }

  // The stated totals must be the computed ones.
  function Finish(n: nat, st: Reading, line: string): Option<(Outer, Counts)>
    requires |line| >= 8
  {
    if Numbers(line[8..]) == Some(st.summary) && |st.summary| == n && n > 0 then Some((st.outer, st.summary)) else None
  }

  // The lines after the events line.
  function Body(n: nat, st: Reading, lines: seq<string>): Option<(Outer, Counts)>
    requires Consistent(n, st)
    decreases |lines|
  {
    if |lines| == 0 then None
    else
      var line := lines[0];
      if |line| > 0 && IsDigit(line[0]) then
        HandleKeeps(n, st, line);
        match HandleCounts(n, st, line)
        case None => None
        case Some(r) => Body(n, r, lines[1..])
      else if Starts(line, "fn=") then Body(n, st.(fn := line[3..]), lines[1..])
      else if Starts(line, "fl=") then Body(n, st.(fl := line[3..]), lines[1..])
      else if Starts(line, "summary: ") then (if |lines| == 1 then Finish(n, st, line) else None)
      else None
  }

  // The number of events: the letters that follow a space.
  function EventCount(events: string, from: nat): nat
    requires from <= |events|
    decreases |events| - from
  {
    if from + 1 >= |events| then 0
    else EventCount(events, from + 1) + (if events[from] == ' ' && IsAlpha(events[from + 1]) then 1 else 0)
  }

  predicate IsAlpha(c: char) {
    'a' <= c <= 'z' || 'A' <= c <= 'Z'
  }

  function LeadingDescs(lines: seq<string>): (k: nat)
    ensures k <= |lines|
  {
    if |lines| == 0 || !Starts(lines[0], "desc: ") then 0 else 1 + LeadingDescs(lines[1..])
  }

  function Parse(lines: seq<string>): Option<Profile> {
    var k := LeadingDescs(lines);
    if k == 0 || |lines| < k + 2 || !Starts(lines[k], "cmd: ") || !Starts(lines[k + 1], "events: ") then None
    else
      var n := EventCount(lines[k + 1], 6);
      match Body(n, Reading([], Zeros(n), "???", "???"), lines[k + 2..])
      case None => None
      case Some(r) => Some(Profile(lines[..k], lines[k], lines[k + 1], n, r.0, r.1))
  }

  // --- printed lines are read ---

  ghost predicate SmallInner(m: Inner) {
    forall i :: 0 <= i < |m| ==> m[i].0 < SIGNED && Small(m[i].1)
  }

  ghost predicate SmallOuter(o: Outer) {
    forall i :: 0 <= i < |o| ==> SmallInner(o[i].1)
  }

  lemma CountLineRead(line: ULong, c: Counts)
    ensures line < SIGNED ==>
      Numbers(CountLine(line, c)) == if Small(c) then Some([line] + c) else None
    ensures var s := CountLine(line, c); |s| > 0 && (line < SIGNED <==> IsDigit(s[0])) && s[0] != 'f' && s[0] != 's'
  {
    hide Numbers, ShowCounts;
    var t := "   " + ShowCounts(c);
    assert seq(3, _ => ' ') == "   ";
    CountsRead(3, c);
    if line < SIGNED {
      assert seq(0, _ => ' ') + Dec(line) + t == CountLine(line, c);
      NumberRead(0, line, t);
    }
  }

  // The last key so far, with the lines read for it, is where new lines go.
  function AtEnd(front: Outer, key: FileFn, done: Inner): Outer {
    if |done| == 0 then front else front + [(key, done)]
  }

  lemma AddAtEnd(front: Outer, key: FileFn, done: Inner, line: ULong, c: Counts)
    requires AllUniform(AtEnd(front, key, done), |c|)
    requires AllBelow(CmpFileFn, front, key) && AllBelow(CmpLine, done, line)
    ensures AddCounts(AtEnd(front, key, done), key, line, c) == front + [(key, done + [(line, c)])]
  {
    OrdersOfKeys();
    var m := done + [(line, c)];
    assert done + [] == done && front + [] == front;
    PutAfter(CmpLine, done, [], line, c);
    DelAfter(CmpLine, done, [], line);
    if |done| == 0 {
      PutAfter(CmpFileFn, front, [], key, m);
      DelAfter(CmpFileFn, front, [], key);
    } else {
      PutAfter(CmpFileFn, front, [(key, done)], key, m);
      DelAfter(CmpFileFn, front, [(key, done)], key);
    }
  }

  ghost predicate After(key: FileFn, front: Outer, done: Inner, todo: Inner) {
    && AllBelow(CmpFileFn, front, key) && Sorted(CmpLine, done + todo)
  }

  // One printed line of counts.
  lemma {:induction false} LineStep(n: nat, st: Reading, line: ULong, c: Counts, rest: seq<string>)
    requires Consistent(n, st) && |c| == n > 0
    ensures Body(n, st, [CountLine(line, c)] + rest)
      == if line < SIGNED && Small(c) then
           AddedKeeps(n, st, line, c);
           Body(n, Added(st, line, c), rest)
         else None
  {
    hide AddCounts, Plus, Numbers, CountLine, ShowCounts;
    var s := CountLine(line, c);
    CountLineRead(line, c);
    assert ([s] + rest)[1..] == rest;
    if line < SIGNED {
      if Small(c) {
        assert ([line] + c)[1..] == c;
      }
    }
  }

  function Added(st: Reading, line: ULong, c: Counts): Reading
    requires Consistent(|c|, st)
  {
    st.(outer := AddCounts(st.outer, (st.fl, st.fn), line, c), summary := Plus(st.summary, c))
  }

  lemma AddedKeeps(n: nat, st: Reading, line: ULong, c: Counts)
    requires Consistent(n, st) && |c| == n
    ensures Consistent(n, Added(st, line, c))
  {
    var m := Lines(st.outer, (st.fl, st.fn));
    LinesUniform(st.outer, n, (st.fl, st.fn));
    PutUniform(m, n, line, AddedCounts(m, line, c));
    PutOuter(st.outer, n, (st.fl, st.fn), AddLine(m, line, c));
  }

  // The printed lines of one key.
  lemma {:induction false} InnerRead(n: nat, st: Reading, front: Outer, done: Inner, todo: Inner, rest: seq<string>)
    requires n > 0 && Consistent(n, st) && Uniform(todo, n)
    requires st.outer == AtEnd(front, (st.fl, st.fn), done) && After((st.fl, st.fn), front, done, todo)
    ensures var r := st.(outer := AtEnd(front, (st.fl, st.fn), done + todo), summary := Plus(st.summary, InnerTotal(todo, n)));
      && Consistent(n, r)
      && Body(n, st, ShowInner(todo) + rest) == if SmallInner(todo) then Body(n, r, rest) else None
    decreases |todo|
  {
    hide Plus, AddCounts, CountLine, Body, Small;
    PlusLaws(st.summary, Zeros(n), Zeros(n));
    if |todo| == 0 {
      assert done + todo == done && ShowInner(todo) + rest == rest;
    } else {
      var (line, c) := todo[0];
      var key := (st.fl, st.fn);
      var more := ShowInner(todo[1..]) + rest;
      assert ShowInner(todo) + rest == [CountLine(line, c)] + more;
      LineStep(n, st, line, c, more);
      assert AllBelow(CmpLine, done, line) by {
        assert forall i :: 0 <= i < |done| ==> (done + todo)[i] == done[i];
        assert (done + todo)[|done|] == todo[0];
      }
      AddAtEnd(front, key, done, line, c);
      AddedKeeps(n, st, line, c);
      var done' := done + [todo[0]];
      assert done' + todo[1..] == done + todo;
      InnerRead(n, Added(st, line, c), front, done', todo[1..], rest);
      PlusLaws(st.summary, c, InnerTotal(todo[1..], n));
    }
  }

  ghost predicate NoEmptyLines(o: Outer) {
    forall i :: 0 <= i < |o| ==> |o[i].1| > 0
  }

  function End(n: nat, outer: Outer, summary: Counts, line: string): Option<(Outer, Counts)>
    requires |line| >= 8
  {
    Finish(n, Reading(outer, summary, "", ""), line)
  }

  lemma LastLine(n: nat, st: Reading, line: string)
    requires Consistent(n, st) && Starts(line, "summary: ")
    ensures Body(n, st, [line]) == End(n, st.outer, st.summary, line)
  {
    assert line[0] == line[..9][0] == 's';
    assert line[..3][0] == 's';
  }

  lemma KeyLines(n: nat, st: Reading, key: FileFn, rest: seq<string>)
    requires Consistent(n, st)
    ensures Body(n, st, ["fl=" + key.0, "fn=" + key.1] + rest) == Body(n, st.(fl := key.0, fn := key.1), rest)
  {
    var l, f := "fl=" + key.0, "fn=" + key.1;
    var all := [l, f] + rest;
    assert l[..3] == "fl=" && f[..3] == "fn=" && l[3..] == key.0 && f[3..] == key.1;
    assert all[1..] == [f] + rest && ([f] + rest)[1..] == rest;
    assert Body(n, st, all) == Body(n, st.(fl := key.0), [f] + rest);
  }

  // All printed keys and the summary line.
  lemma {:induction false} OuterRead(n: nat, st: Reading, todo: Outer, line: string)
    requires n > 0 && Consistent(n, st) && AllUniform(todo, n) && NoEmptyLines(todo) && Starts(line, "summary: ")
    requires Sorted(CmpFileFn, st.outer + todo) && forall i :: 0 <= i < |todo| ==> Sorted(CmpLine, todo[i].1)
    ensures Body(n, st, ShowOuter(todo) + [line])
      == if SmallOuter(todo) then End(n, st.outer + todo, Plus(st.summary, OuterTotal(todo, n)), line) else None
    decreases |todo|
  {
    hide Plus, AddCounts, CountLine, Body, Small, SmallInner, Finish, InnerTotal, ShowInner;
    PlusLaws(st.summary, Zeros(n), Zeros(n));
    if |todo| == 0 {
      assert st.outer + todo == st.outer && ShowOuter(todo) + [line] == [line];
      LastLine(n, st, line);
    } else {
      var (key, m) := todo[0];
      var more := ShowOuter(todo[1..]) + [line];
      assert ShowOuter(todo) + [line] == ["fl=" + key.0, "fn=" + key.1] + (ShowInner(m) + more);
      KeyLines(n, st, key, ShowInner(m) + more);
      assert AllBelow(CmpFileFn, st.outer, key) by {
        var all := st.outer + todo;
        assert forall i :: 0 <= i < |st.outer| ==> all[i] == st.outer[i];
        assert all[|st.outer|] == todo[0];
      }
      assert [] + m == m;
      InnerRead(n, st.(fl := key.0, fn := key.1), st.outer, [], m, more);
      var outer := st.outer + [todo[0]];
      assert outer + todo[1..] == st.outer + todo;
      var t := InnerTotal(m, n);
      OuterRead(n, Reading(outer, Plus(st.summary, t), key.0, key.1), todo[1..], line);
      PlusLaws(st.summary, t, OuterTotal(todo[1..], n));
      assert SmallOuter(todo) <==> SmallInner(m) && SmallOuter(todo[1..]);
    }
  }

  // --- the whole file ---

  // What a profile that was read and merged looks like.
  ghost predicate Printable(p: Profile) {
    && |p.desc| > 0 && (forall i :: 0 <= i < |p.desc| ==> Starts(p.desc[i], "desc: "))
    && Starts(p.cmd, "cmd: ") && Starts(p.events, "events: ")
    && p.nEvents == EventCount(p.events, 6) && p.nEvents > 0
    && AllUniform(p.outer, p.nEvents) && Ordered(p.outer) && NoEmptyLines(p.outer)
    && p.summary == OuterTotal(p.outer, p.nEvents)
  }

  ghost predicate AllSmall(p: Profile) {
    SmallOuter(p.outer) && Small(p.summary)
  }

  lemma {:induction false} DescsRead(descs: seq<string>, rest: seq<string>)
    requires forall i :: 0 <= i < |descs| ==> Starts(descs[i], "desc: ")
    requires |rest| > 0 && Starts(rest[0], "cmd: ")
    ensures LeadingDescs(descs + rest) == |descs|
  {
    if |descs| == 0 {
      assert descs + rest == rest;
      assert rest[0][..5][0] == 'c' && (|rest[0]| >= 6 ==> rest[0][..6][0] == 'c');
    } else {
      assert (descs + rest)[1..] == descs[1..] + rest;
      DescsRead(descs[1..], rest);
    }
  }

  lemma SummaryRead(n: nat, outer: Outer, summary: Counts)
    requires n == |summary| > 0
    ensures Starts(SummaryLine(summary), "summary: ")
    ensures End(n, outer, summary, SummaryLine(summary)) == if Small(summary) then Some((outer, summary)) else None
  {
    var line, t := SummaryLine(summary), ShowTotals(summary);
    assert t[0] == ' ';
    assert line[..9] == "summary:" + t[..1] == "summary: ";
    assert line[8..] == t;
    TotalsRead(summary);
  }

  /**
   The round trip: a printed profile is read back as the same profile if and only if all its
   numbers are below 2^63, and not read at all otherwise.
   */
  lemma {:induction false} RoundTrip(p: Profile)
    requires Printable(p)
    ensures Parse(Show(p)) == if AllSmall(p) then Some(p) else None
  {
    hide Plus, Body, Small, SmallOuter, Finish, OuterTotal, ShowOuter, EventCount, ShowTotals;
    var n, line := p.nEvents, SummaryLine(p.summary);
    var body := ShowOuter(p.outer) + [line];
    var lines := Show(p);
    assert lines == p.desc + ([p.cmd, p.events] + body);
    DescsRead(p.desc, [p.cmd, p.events] + body);
    var k := |p.desc|;
    assert lines[..k] == p.desc && lines[k] == p.cmd && lines[k + 1] == p.events && lines[k + 2..] == body;
    var st := Reading([], Zeros(n), "???", "???");
    SummaryRead(n, p.outer, p.summary);
    assert [] + p.outer == p.outer;
    OuterRead(n, st, p.outer, line);
    PlusLaws(p.summary, Zeros(n), Zeros(n));
    PlusLaws(Zeros(n), p.summary, Zeros(n));
  }
}
