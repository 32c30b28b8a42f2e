module ProfileReading {
  // What a profile read from text says, told from the lines: which texts are read at all, and
  // for every file, function and line number the counts that its count lines add up to.

  import opened Common
  import opened Bindings
  import opened Profiles
  import opened ProfileMerge
  import opened Decimals
  import opened ProfileText

  // --- the lines ---

  // Line i is one of counts.
  predicate CountLineAt(lines: seq<string>, i: nat) {
    i < |lines| && |lines[i]| > 0 && IsDigit(lines[i][0])
  }

  // It has a line number and n counts, and nothing else.
  predicate WellCounted(lines: seq<string>, i: nat, n: nat) {
    CountLineAt(lines, i) && Numbers(lines[i]).Some? && |Numbers(lines[i]).value| == n + 1
  }

  // The rest of the latest line before i, from line b on, that starts with the prefix.
  function Latest(lines: seq<string>, b: nat, i: nat, prefix: string): string
    requires i <= |lines|
  {
    if i <= b then "???"
    else if Starts(lines[i - 1], prefix) then lines[i - 1][|prefix|..]
    else Latest(lines, b, i - 1, prefix)
  }

  // Line i counts for this file, function and line number.
  predicate CountsFor(lines: seq<string>, b: nat, i: nat, n: nat, key: FileFn, line: ULong) {
    && b <= i && WellCounted(lines, i, n)
    && (Latest(lines, b, i, "fl="), Latest(lines, b, i, "fn=")) == key
    && Numbers(lines[i]).value[0] == line
  }

  // The sums of column e over those of the lines b..m, and over all count lines.
  function ColumnSum(lines: seq<string>, b: nat, m: nat, n: nat, key: FileFn, line: ULong, e: nat): nat
    requires m <= |lines| && e < n
  {
    if m <= b then 0
    else
      var before := ColumnSum(lines, b, m - 1, n, key, line, e);
      if CountsFor(lines, b, m - 1, n, key, line) then before + Numbers(lines[m - 1]).value[e + 1] else before
  }

  function TotalSum(lines: seq<string>, b: nat, m: nat, n: nat, e: nat): nat
    requires m <= |lines| && e < n
  {
    if m <= b then 0
    else
      var before := TotalSum(lines, b, m - 1, n, e);
      if WellCounted(lines, m - 1, n) then before + Numbers(lines[m - 1]).value[e + 1] else before
  }

  // A line between the header and the summary.
  predicate BodyLine(lines: seq<string>, i: nat, n: nat)
    requires i < |lines|
  {
    if CountLineAt(lines, i) then WellCounted(lines, i, n) else Starts(lines[i], "fn=") || Starts(lines[i], "fl=")
  }

  // The last line states the sums.
  predicate SummaryAt(lines: seq<string>, b: nat, i: nat, n: nat)
    requires i < |lines|
  {
    && Starts(lines[i], "summary: ")
    && match Numbers(lines[i][8..])
       case None => false
       case Some(t) => |t| == n && forall e :: 0 <= e < n ==> t[e] == TotalSum(lines, b, i, n, e) % ULONG
  }

  // --- the reader against the lines ---

  // The state after the lines b..i.
  ghost predicate Reads(lines: seq<string>, b: nat, i: nat, n: nat, st: Reading)
    requires i <= |lines|
  {
    && Consistent(n, st)
    && st.fl == Latest(lines, b, i, "fl=") && st.fn == Latest(lines, b, i, "fn=")
    && (forall e :: 0 <= e < n ==> st.summary[e] == TotalSum(lines, b, i, n, e) % ULONG)
    && Placed(lines, b, i, n, st.outer)
  }

  ghost predicate Placed(lines: seq<string>, b: nat, i: nat, n: nat, outer: Outer)
    requires i <= |lines|
  {
    forall key: FileFn, line: ULong :: PlacedAt(lines, b, i, n, outer, key, line)
  }

  // The counts of one place are the sums of the lines for it, and absent without such a line.
  ghost predicate PlacedAt(lines: seq<string>, b: nat, i: nat, n: nat, outer: Outer, key: FileFn, line: ULong)
    requires i <= |lines|
  {
    match At(outer, key, line)
    case None => forall j :: b <= j < i ==> !CountsFor(lines, b, j, n, key, line)
    case Some(c) =>
      && (exists j :: b <= j < i && CountsFor(lines, b, j, n, key, line))
      && |c| == n && forall e :: 0 <= e < n ==> c[e] == ColumnSum(lines, b, i, n, key, line, e) % ULONG
  }

  lemma SumOneMore(x: nat, y: ULong)
    ensures (x % ULONG + y) % ULONG == (x + y) % ULONG
  {
    assert x == (x / ULONG) * ULONG + x % ULONG;
  }

  // The counts of every place after one more line of counts.
  lemma {:induction false} AtAdded(o: Outer, key: FileFn, line: ULong, c: Counts, k: FileFn, l: ULong)
    requires AllUniform(o, |c|)
    ensures At(AddCounts(o, key, line, c), k, l) ==
      if (k, l) == (key, line)
      then Some(match At(o, key, line) case None => c
                case Some(was) => LinesUniform(o, |c|, key); GetUniform(Lines(o, key), |c|, line); Plus(was, c))
      else At(o, k, l)
  {
    hide Plus, Order;
    OrdersOfKeys();
    LinesUniform(o, |c|, key);
    var m := AddLine(Lines(o, key), line, c);
    GetPut(CmpFileFn, o, key, m, k);
    GetPut(CmpLine, Lines(o, key), line, AddedCounts(Lines(o, key), line, c), l);
  }

  lemma {:induction false} CountStep(lines: seq<string>, b: nat, i: nat, n: nat, st: Reading)
    requires b <= i < |lines| && n > 0 && Reads(lines, b, i, n, st) && WellCounted(lines, i, n)
    ensures HandleCounts(n, st, lines[i]).Some? && Reads(lines, b, i + 1, n, HandleCounts(n, st, lines[i]).value)
  {
    hide Numbers, AddCounts, Plus, At;
    var xs := Numbers(lines[i]).value;
    var key := (st.fl, st.fn);
    var r := HandleCounts(n, st, lines[i]).value;
    HandleKeeps(n, st, lines[i]);
    NotKeyLine(lines, i);
    forall e | 0 <= e < n ensures r.summary[e] == TotalSum(lines, b, i + 1, n, e) % ULONG {
      PlusAtPlace(st.summary, xs[1..], e);
      SumOneMore(TotalSum(lines, b, i, n, e), xs[e + 1]);
    }
    var next := i + 1;
    forall k: FileFn, l: ULong ensures PlacedAt(lines, b, next, n, r.outer, k, l) {
      AtAdded(st.outer, key, xs[0], xs[1..], k, l);
      assert PlacedAt(lines, b, i, n, st.outer, k, l);
      assert CountsFor(lines, b, i, n, k, l) <==> (k, l) == (key, xs[0]);
      PlaceStep(lines, b, i, n, st.outer, r.outer, k, l);
    }
  }

  lemma PlusAtPlace(a: Counts, c: Counts, e: nat)
    requires |a| == |c| && e < |a|
    ensures Plus(a, c)[e] == (a[e] + c[e]) % ULONG
  {
  }

  lemma NotKeyLine(lines: seq<string>, i: nat)
    requires CountLineAt(lines, i)
    ensures !Starts(lines[i], "fl=") && !Starts(lines[i], "fn=") && !Starts(lines[i], "summary: ")
  {
    assert |lines[i]| >= 3 ==> lines[i][..3][0] == lines[i][0];
    assert |lines[i]| >= 9 ==> lines[i][..9][0] == lines[i][0];
  }

  lemma {:induction false} NothingSummed(lines: seq<string>, b: nat, m: nat, n: nat, key: FileFn, line: ULong, e: nat)
    requires m <= |lines| && e < n && forall j :: b <= j < m ==> !CountsFor(lines, b, j, n, key, line)
    ensures ColumnSum(lines, b, m, n, key, line, e) == 0
  {
    if b < m { NothingSummed(lines, b, m - 1, n, key, line, e); }
  }

  // One place through one line of counts.
  lemma {:induction false} PlaceStep(lines: seq<string>, b: nat, i: nat, n: nat, o: Outer, r: Outer, key: FileFn, line: ULong)
    requires b <= i < |lines| && WellCounted(lines, i, n) && PlacedAt(lines, b, i, n, o, key, line)
    requires At(r, key, line) ==
      if CountsFor(lines, b, i, n, key, line) then Some(match At(o, key, line) case None => Numbers(lines[i]).value[1..]
                                                        case Some(was) => Plus(was, Numbers(lines[i]).value[1..]))
      else At(o, key, line)
    ensures PlacedAt(lines, b, i + 1, n, r, key, line)
  {
    hide Numbers, Plus, CountsFor, At, WellCounted;
    if CountsFor(lines, b, i, n, key, line) {
      CountsForIs(lines, b, i, n, key, line);
      var c := Numbers(lines[i]).value[1..];
      forall e | 0 <= e < n
        ensures At(r, key, line).value[e] == ColumnSum(lines, b, i + 1, n, key, line, e) % ULONG
      {
        match At(o, key, line)
        case None => NothingSummed(lines, b, i, n, key, line, e);
        case Some(was) =>
          PlusAtPlace(was, c, e);
          SumOneMore(ColumnSum(lines, b, i, n, key, line, e), c[e]);
      }
    }
  }

  lemma CountsForIs(lines: seq<string>, b: nat, i: nat, n: nat, key: FileFn, line: ULong)
    requires CountsFor(lines, b, i, n, key, line)
    ensures Numbers(lines[i]).Some? && |Numbers(lines[i]).value| == n + 1 && i < |lines|
  {
  }

  // A line that names a file or a function.
  lemma {:induction false} KeyStep(lines: seq<string>, b: nat, i: nat, n: nat, st: Reading)
    requires b <= i < |lines| && Reads(lines, b, i, n, st) && !CountLineAt(lines, i)
    ensures Starts(lines[i], "fn=") ==> Reads(lines, b, i + 1, n, st.(fn := lines[i][3..]))
    ensures Starts(lines[i], "fl=") ==> Reads(lines, b, i + 1, n, st.(fl := lines[i][3..]))
  {
    hide Numbers, At;
    assert Starts(lines[i], "fn=") ==> lines[i][..3][1] == 'n';
    assert Starts(lines[i], "fl=") ==> lines[i][..3][1] == 'l';
    var next := i + 1;
    forall k: FileFn, l: ULong ensures PlacedAt(lines, b, next, n, st.outer, k, l) {
      assert PlacedAt(lines, b, i, n, st.outer, k, l);
      SamePlace(lines, b, i, n, st.outer, k, l);
    }
  }

  lemma SamePlace(lines: seq<string>, b: nat, i: nat, n: nat, o: Outer, key: FileFn, line: ULong)
    requires b <= i < |lines| && PlacedAt(lines, b, i, n, o, key, line) && !CountsFor(lines, b, i, n, key, line)
    ensures PlacedAt(lines, b, i + 1, n, o, key, line)
  {
    hide CountsFor, At;
  }

  lemma FinishStep(lines: seq<string>, b: nat, i: nat, n: nat, st: Reading)
    requires b <= i < |lines| && n > 0 && Reads(lines, b, i, n, st) && Starts(lines[i], "summary: ")
    ensures Finish(n, st, lines[i]) == if SummaryAt(lines, b, i, n) then Some((st.outer, st.summary)) else None
  {
    hide Numbers, Placed;
    if SummaryAt(lines, b, i, n) {
      assert Numbers(lines[i][8..]).value == st.summary;
    }
  }

  // The lines from i on can be read.
  ghost predicate RestReadable(lines: seq<string>, b: nat, i: nat, n: nat) {
    && n > 0 && i < |lines| && (forall j :: i <= j < |lines| - 1 ==> BodyLine(lines, j, n))
    && SummaryAt(lines, b, |lines| - 1, n)
  }

  lemma SummaryIsNoKey(line: string)
    ensures Starts(line, "summary: ") ==> !Starts(line, "fn=") && !Starts(line, "fl=") && !IsDigit(line[0])
  {
    assert |line| >= 9 ==> line[..9][0] == line[0] && line[..3][0] == line[0];
  }

  lemma {:induction false} BodyReads(lines: seq<string>, b: nat, i: nat, n: nat, st: Reading)
    requires b <= i <= |lines| && Reads(lines, b, i, n, st)
    ensures Body(n, st, lines[i..]).Some? <==> RestReadable(lines, b, i, n)
    ensures Body(n, st, lines[i..]).Some? ==>
      var (outer, summary) := Body(n, st, lines[i..]).value;
      && Placed(lines, b, |lines| - 1, n, outer) && |summary| == n
      && forall e :: 0 <= e < n ==> summary[e] == TotalSum(lines, b, |lines| - 1, n, e) % ULONG
    decreases |lines| - i
  {
    hide Numbers, Placed, AddCounts, Plus, SummaryAt;
    if i < |lines| {
      var line, rest := lines[i], lines[i..];
      assert rest[0] == line && rest[1..] == lines[i + 1..];
      SummaryIsNoKey(lines[|lines| - 1]);
      SummaryIsNoKey(line);
      SummaryStarts(lines, b, |lines| - 1, n);
      assert RestReadable(lines, b, i, n) && i < |lines| - 1 ==> BodyLine(lines, i, n);
      if CountLineAt(lines, i) {
        NotKeyLine(lines, i);
        HandleKeeps(n, st, line);
        if n > 0 && WellCounted(lines, i, n) {
          CountStep(lines, b, i, n, st);
          BodyReads(lines, b, i + 1, n, HandleCounts(n, st, line).value);
        }
      } else if Starts(line, "fn=") {
        KeyStep(lines, b, i, n, st);
        BodyReads(lines, b, i + 1, n, st.(fn := line[3..]));
      } else if Starts(line, "fl=") {
        KeyStep(lines, b, i, n, st);
        BodyReads(lines, b, i + 1, n, st.(fl := line[3..]));
      } else if Starts(line, "summary: ") {
        if |rest| == 1 {
          if n > 0 { FinishStep(lines, b, i, n, st); }
        }
      }
    }
  }

  lemma SummaryStarts(lines: seq<string>, b: nat, i: nat, n: nat)
    requires i < |lines|
    ensures SummaryAt(lines, b, i, n) ==> Starts(lines[i], "summary: ")
  {
  }

  // --- the header ---

  // The spaces before a letter, from the colon of the events line on.
  predicate EventPlace(events: string, p: nat) {
    p + 1 < |events| && events[p] == ' ' && IsAlpha(events[p + 1])
  }

  function EventPlaces(events: string, from: nat): set<nat> {
    set p: nat | from <= p < |events| && EventPlace(events, p)
  }

  lemma {:induction false} EventsCounted(events: string, from: nat)
    requires from <= |events|
    ensures EventCount(events, from) == |EventPlaces(events, from)|
    decreases |events| - from
  {
    if from + 1 >= |events| {
      assert EventPlaces(events, from) == {};
    } else {
      EventsCounted(events, from + 1);
      assert EventPlaces(events, from) == EventPlaces(events, from + 1) + (if EventPlace(events, from) then {from} else {});
    }
  }

  // k description lines, a command line and an events line that names n events.
  ghost predicate Header(lines: seq<string>, k: nat, n: nat) {
    && 0 < k && k + 2 <= |lines|
    && (forall i :: 0 <= i < k ==> Starts(lines[i], "desc: "))
    && Starts(lines[k], "cmd: ") && Starts(lines[k + 1], "events: ")
    && n == |EventPlaces(lines[k + 1], 6)|
  }

  lemma {:induction false} DescsCounted(lines: seq<string>, k: nat)
    requires k <= |lines| && (forall i :: 0 <= i < k ==> Starts(lines[i], "desc: "))
    requires k < |lines| && !Starts(lines[k], "desc: ")
    ensures LeadingDescs(lines) == k
  {
    if k > 0 {
      DescsCounted(lines[1..], k - 1);
    }
  }

  lemma {:induction false} DescsAre(lines: seq<string>)
    ensures forall i :: 0 <= i < LeadingDescs(lines) ==> Starts(lines[i], "desc: ")
  {
    if |lines| > 0 && Starts(lines[0], "desc: ") {
      DescsAre(lines[1..]);
      forall i | 0 <= i < LeadingDescs(lines) ensures Starts(lines[i], "desc: ") {
        if i > 0 { assert lines[i] == lines[1..][i - 1]; }
      }
    }
  }

  lemma HeaderParsed(lines: seq<string>, k: nat, n: nat)
    requires Header(lines, k, n)
    ensures k == LeadingDescs(lines) && n == EventCount(lines[k + 1], 6)
  {
    assert lines[k][0] == lines[k][..5][0] == 'c';
    assert |lines[k]| >= 6 ==> lines[k][..6][0] == 'c';
    DescsCounted(lines, k);
    EventsCounted(lines[k + 1], 6);
  }

  lemma NothingRead(lines: seq<string>, b: nat, n: nat)
    requires b <= |lines|
    ensures Reads(lines, b, b, n, Reading([], Zeros(n), "???", "???"))
  {
  }

  // --- main results ---

  /**
   A text is read if and only if it starts with description lines, a command line and an events
   line with at least one event, ends with a summary line that states the column sums of its
   count lines, and holds only lines of as many counts as there are events, and lines that
   name a file or a function, in between.
   */
  lemma {:induction false} ReadExactlyWhen(lines: seq<string>)
    ensures Parse(lines).Some? <==> exists k: nat, n: nat :: Header(lines, k, n) && RestReadable(lines, k + 2, k + 2, n)
  {
    hide Body, RestReadable, Reads, EventCount;
    if exists k: nat, n: nat :: Header(lines, k, n) && RestReadable(lines, k + 2, k + 2, n) {
      var k: nat, n: nat :| Header(lines, k, n) && RestReadable(lines, k + 2, k + 2, n);
      HeaderParsed(lines, k, n);
      NothingRead(lines, k + 2, n);
      BodyReads(lines, k + 2, k + 2, n, Reading([], Zeros(n), "???", "???"));
    }
    if Parse(lines).Some? {
      var k := LeadingDescs(lines);
      DescsAre(lines);
      var n := |EventPlaces(lines[k + 1], 6)|;
      assert Header(lines, k, n);
      HeaderParsed(lines, k, n);
      NothingRead(lines, k + 2, n);
      BodyReads(lines, k + 2, k + 2, n, Reading([], Zeros(n), "???", "???"));
    }
  }

  /**
   In every profile that is read, the counts of a file, function and line number are, column by
   column, the sums modulo 2^64 of the count lines with that number whose latest lines "fl=" and "fn="
   before them name the two ("???" when there is none); without such a line they are absent.
   */
  lemma {:induction false} CountsAreSums(lines: seq<string>, k: nat, n: nat, key: FileFn, line: ULong)
    requires Parse(lines).Some? && Header(lines, k, n)
    ensures var p := Parse(lines).value; var b := k + 2; var last := |lines| - 1;
      && b <= last
      && p.desc == lines[..k] && p.cmd == lines[k] && p.events == lines[k + 1] && p.nEvents == n
      && |p.summary| == n && (forall e :: 0 <= e < n ==> p.summary[e] == TotalSum(lines, b, last, n, e) % ULONG)
      && (At(p.outer, key, line).None? <==> forall i :: b <= i < last ==> !CountsFor(lines, b, i, n, key, line))
      && (At(p.outer, key, line).Some? ==>
            var c := At(p.outer, key, line).value;
            |c| == n && forall e :: 0 <= e < n ==> c[e] == ColumnSum(lines, b, last, n, key, line, e) % ULONG)
  {
    hide Body, RestReadable, Reads, EventCount, CountsFor, At;
    HeaderParsed(lines, k, n);
    NothingRead(lines, k + 2, n);
    BodyReads(lines, k + 2, k + 2, n, Reading([], Zeros(n), "???", "???"));
    RestLong(lines, k + 2, n);
    assert PlacedAt(lines, k + 2, |lines| - 1, n, Parse(lines).value.outer, key, line);
  }

  lemma RestLong(lines: seq<string>, b: nat, n: nat)
    ensures RestReadable(lines, b, b, n) ==> b <= |lines| - 1
  {
  }
}
