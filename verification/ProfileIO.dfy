/** The loops that print a profile to a file and read one from it. */
module ProfileIO {
  import opened Common
  import opened Profiles
  import opened Decimals
  import opened ProfileText

  // The text of a file: every line ends in a newline.
  function Text(lines: seq<string>): string {
    if |lines| == 0 then "" else lines[0] + "\n" + Text(lines[1..])
  }

  // Repeated readline: the last line may lack its newline.
  function ReadLines(text: string, line: string): seq<string> {
    if |text| == 0 then (if |line| == 0 then [] else [line])
    else if text[0] == '\n' then [line] + ReadLines(text[1..], "")
    else ReadLines(text[1..], line + [text[0]])
  }

  ghost predicate NoNewlines(lines: seq<string>) {
    forall i :: 0 <= i < |lines| ==> '\n' !in lines[i]
  }

  lemma {:induction false} LineRead(line: string, before: string, rest: string)
    requires '\n' !in line
    ensures ReadLines(line + "\n" + rest, before) == [before + line] + ReadLines(rest, "")
    decreases |line|
  {
    if |line| == 0 {
      assert line + "\n" + rest == "\n" + rest && before + line == before;
    } else {
      assert (line + "\n" + rest)[1..] == line[1..] + "\n" + rest;
      LineRead(line[1..], before + [line[0]], rest);
      assert before + [line[0]] + line[1..] == before + line;
    }
  }

  lemma {:induction false} LinesRead(lines: seq<string>)
    requires NoNewlines(lines)
    ensures ReadLines(Text(lines), "") == lines
  {
    if |lines| > 0 {
      LineRead(lines[0], "", Text(lines[1..]));
      LinesRead(lines[1..]);
      assert "" + lines[0] == lines[0] && lines == [lines[0]] + lines[1..];
    }
  }

  /** The round trip of a file, for names and header lines without newlines. */
  lemma FileRoundTrip(p: Profile)
    requires Printable(p) && NoNewlines(Show(p))
    ensures Parse(ReadLines(Text(Show(p)), "")) == Some(p) <==> AllSmall(p)
  {
    LinesRead(Show(p));
    RoundTrip(p);
  }

  lemma {:induction false} TextAppend(a: seq<string>, b: seq<string>)
    ensures Text(a + b) == Text(a) + Text(b)
  {
    if |a| == 0 {
      assert a + b == b;
    } else {
      assert (a + b)[1..] == a[1..] + b;
      TextAppend(a[1..], b);
    }
  }

  lemma Printed(a: seq<string>, line: string)
    ensures Text(a + [line]) == Text(a) + line + "\n"
  {
    TextAppend(a, [line]);
    assert Text([line]) == line + "\n" + "";
  }

  // showCounts
  method PrintCounts(c: Counts) returns (f: string)
    ensures f == ShowCounts(c)
  {
    f := "";
    for i := 0 to |c|
      invariant f + ShowCounts(c[i..]) == ShowCounts(c)
    {
      assert c[i..][0] == c[i] && c[i..][1..] == c[i + 1..];
      f := f + Signed(c[i]) + " ";
    }
  }

  /** show_CacheProfFile */
  method PrintFile(p: Profile) returns (f: string)
    ensures f == Text(Show(p))
  {
    hide Text, ShowCounts, SummaryLine;
    ghost var shown := [];
    f := "";
    NoText();
    for i := 0 to |p.desc|
      invariant shown == p.desc[..i] && f == Text(shown)
    {
      Printed(shown, p.desc[i]);
      f, shown := f + p.desc[i] + "\n", shown + [p.desc[i]];
    }
    Printed(shown, p.cmd);
    f, shown := f + p.cmd + "\n", shown + [p.cmd];
    Printed(shown, p.events);
    f, shown := f + p.events + "\n", shown + [p.events];
    ghost var head := p.desc + [p.cmd, p.events];
    assert shown == head;
    for i := 0 to |p.outer|
      invariant shown + ShowOuter(p.outer[i..]) == head + ShowOuter(p.outer) && f == Text(shown)
    {
      f, shown := PrintKey(f, p.outer, i, shown);
    }
    assert shown == head + ShowOuter(p.outer);
    Printed(shown, SummaryLine(p.summary));
    f := f + SummaryLine(p.summary) + "\n";
    assert Show(p) == shown + [SummaryLine(p.summary)];
  }

  lemma NoText()
    ensures Text([]) == ""
  {
  }

  // The inner loop: the lines of a key.
  method PrintLines(f0: string, m: Inner, ghost shown0: seq<string>) returns (f: string, ghost shown: seq<string>)
    requires f0 == Text(shown0)
    ensures f == Text(shown) && shown == shown0 + ShowInner(m)
  {
    hide Text, ShowCounts;
    f, shown := f0, shown0;
    for j := 0 to |m|
      invariant shown + ShowInner(m[j..]) == shown0 + ShowInner(m) && f == Text(shown)
    {
      var counts := PrintCounts(m[j].1);
      ghost var line := CountLine(m[j].0, m[j].1);
      Printed(shown, line);
      assert m[j..][0] == m[j] && m[j..][1..] == m[j + 1..];
      f, shown := f + (Signed(m[j].0) + "   " + counts) + "\n", shown + [line];
    }
  }

  // One turn of the outer loop: a key and its lines.
  method PrintKey(f0: string, o: Outer, i: nat, ghost shown0: seq<string>) returns (f: string, ghost shown: seq<string>)
    requires i < |o| && f0 == Text(shown0)
    ensures f == Text(shown) && shown + ShowOuter(o[i + 1..]) == shown0 + ShowOuter(o[i..])
  {
    hide Text, ShowCounts, ShowOuter, ShowInner;
    ShownKey(o, i);
    f, shown := f0, shown0;
    var ((fi, fn), m) := o[i];
    Printed(shown, "fl=" + fi);
    f, shown := f + ("fl=" + fi) + "\n", shown + ["fl=" + fi];
    Printed(shown, "fn=" + fn);
    f, shown := f + ("fn=" + fn) + "\n", shown + ["fn=" + fn];
    f, shown := PrintLines(f, m, shown);
    assert shown == shown0 + (["fl=" + fi, "fn=" + fn] + ShowInner(m));
  }

  lemma ShownKey(o: Outer, i: nat)
    requires i < |o|
    ensures ShowOuter(o[i..]) == ["fl=" + o[i].0.0, "fn=" + o[i].0.1] + ShowInner(o[i].1) + ShowOuter(o[i + 1..])
  {
    assert o[i..][0] == o[i] && o[i..][1..] == o[i + 1..];
  }

  /** parse_CacheProfFile, on the lines of the file. */
  method ParseLines(lines: seq<string>) returns (r: Option<Profile>)
    ensures r == Parse(lines)
  {
    hide Numbers, AddCounts, Plus, EventCount;
    var k := 0;
    while k < |lines| && Starts(lines[k], "desc: ")
      invariant 0 <= k <= |lines| && LeadingDescs(lines) == k + LeadingDescs(lines[k..])
    {
      k := k + 1;
    }
    if k == 0 || |lines| < k + 2 || !Starts(lines[k], "cmd: ") || !Starts(lines[k + 1], "events: ") {
      return None;
    }
    var n := EventCount(lines[k + 1], 6);
    var st := Reading([], Zeros(n), "???", "???");
    ghost var answer := Body(n, st, lines[k + 2..]);
    var i := k + 2;
    while i < |lines|
      invariant k + 2 <= i <= |lines| && Consistent(n, st) && Body(n, st, lines[i..]) == answer
    {
      var line := lines[i];
      assert lines[i..][0] == line && lines[i..][1..] == lines[i + 1..];
      if |line| > 0 && IsDigit(line[0]) {
        HandleKeeps(n, st, line);
        var next := HandleCounts(n, st, line);
        if next.None? {
          return None;
        }
        st := next.value;
      } else if Starts(line, "fn=") {
        st := st.(fn := line[3..]);
      } else if Starts(line, "fl=") {
        st := st.(fl := line[3..]);
      } else if Starts(line, "summary: ") {
        if i + 1 < |lines| {
          return None;
        }
        var done := Finish(n, st, line);
        return if done.None? then None
               else Some(Profile(lines[..k], lines[k], lines[k + 1], n, done.value.0, done.value.1));
      } else {
        return None;
      }
      i := i + 1;
    }
    return None;
  }
}
