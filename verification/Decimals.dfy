module Decimals {
  // Numbers as cg_merge prints and reads them.

  import opened Common
  import opened Profiles

  const SIGNED: int := 0x8000_0000_0000_0000

  predicate IsDigit(c: char) {
    '0' <= c <= '9'
  }

  predicate IsSpace(c: char) {
    c == ' ' || '\t' <= c <= '\r'
  }

  function Digit(d: nat): (c: char)
    requires d < 10
    ensures IsDigit(c)
  {
    '0' + d as char
  }

  function DigitValue(c: char): (d: nat)
    requires IsDigit(c)
    ensures d < 10
  {
    c as int - '0' as int
  }

  predicate AllDigits(s: string) {
    forall i :: 0 <= i < |s| ==> IsDigit(s[i])
  }

  function Dec(n: nat): (s: string)
    ensures |s| > 0 && AllDigits(s)
  {
    if n < 10 then [Digit(n)] else Dec(n / 10) + [Digit(n % 10)]
  }

  // A 64-bit word printed as the signed number it also is.
  function Signed(w: ULong): (s: string)
    ensures |s| > 0
  {
    if w < SIGNED then Dec(w) else "-" + Dec(ULONG - w)
  }

  // The value of digits in 64-bit arithmetic, as parse_ULong accumulates it.
  function Value(s: string): ULong
    requires AllDigits(s)
  {
    if |s| == 0 then 0 else (Value(s[..|s| - 1]) * 10 + DigitValue(s[|s| - 1])) % ULONG
  }

  lemma {:induction false} ValueOfDec(n: ULong)
    ensures Value(Dec(n)) == n
  {
    if n < 10 {
      assert Value([Digit(n)][..0]) == 0;
    } else {
      ValueOfDec(n / 10);
      assert Dec(n)[..|Dec(n)| - 1] == Dec(n / 10);
    }
  }

  // The number of digits at the front.
  function Digits(s: string): (k: nat)
    ensures k <= |s| && AllDigits(s[..k]) && (k < |s| ==> !IsDigit(s[k]))
  {
    if |s| == 0 || !IsDigit(s[0]) then 0
    else
      var k := 1 + Digits(s[1..]);
      assert s[..k] == [s[0]] + s[1..][..k - 1];
      k
  }

  function SkipSpaces(s: string): (r: string)
    ensures |r| <= |s| && (|r| > 0 ==> !IsSpace(r[0]))
  {
    if |s| == 0 || !IsSpace(s[0]) then s else SkipSpaces(s[1..])
  }

  // All numbers of a line, or nothing when something else is found among them.
  function Numbers(s: string): Option<seq<ULong>>
    decreases |s|
  {
    var r := SkipSpaces(s);
    if |r| == 0 then Some([])
    else if !IsDigit(r[0]) then None
    else
      var k := Digits(r);
      match Numbers(r[k..])
      case None => None
      case Some(rest) => Some([Value(r[..k])] + rest)
  }

  // --- what digits and lines of numbers mean ---

  function Pow10(k: nat): nat {
    if k == 0 then 1 else 10 * Pow10(k - 1)
  }

  // Every digit times the power of ten of its place.
  function Weighted(s: string): nat
    requires AllDigits(s)
  {
    if |s| == 0 then 0 else DigitValue(s[0]) * Pow10(|s| - 1) + Weighted(s[1..])
  }

  lemma {:induction false} WeightedLast(s: string)
    requires AllDigits(s) && |s| > 0
    ensures Weighted(s) == 10 * Weighted(s[..|s| - 1]) + DigitValue(s[|s| - 1])
  {
    if |s| > 1 {
      WeightedLast(s[1..]);
      assert s[1..][..|s| - 2] == s[..|s| - 1][1..];
      TimesTen(DigitValue(s[0]), |s| - 2);
    } else {
      assert Pow10(0) == 1 && Weighted(s[1..]) == 0 && Weighted(s[..0]) == 0;
    }
  }

  lemma TimesTen(d: nat, k: nat)
    ensures d * Pow10(k + 1) == 10 * (d * Pow10(k))
  {
  }

  /** Digits are read as the number they are in base ten, modulo 2^64. */
  lemma {:induction false} ValueIsDecimal(s: string)
    requires AllDigits(s)
    ensures Value(s) == Weighted(s) % ULONG
  {
    hide Weighted;
    if |s| == 0 {
      WeightedNone();
    } else {
      ValueIsDecimal(s[..|s| - 1]);
      WeightedLast(s);
      TenTimes(Weighted(s[..|s| - 1]), DigitValue(s[|s| - 1]));
    }
  }

  lemma WeightedNone()
    ensures Weighted("") == 0
  {
  }

  lemma TenTimes(x: nat, d: nat)
    ensures (x % ULONG * 10 + d) % ULONG == (10 * x + d) % ULONG
  {
    var q, r := x / ULONG, x % ULONG;
    assert x == q * ULONG + r;
    assert 10 * x + d == 10 * q * ULONG + (10 * r + d);
  }

  /** A number is printed in base ten without leading zeros. */
  lemma {:induction false} DecIsDecimal(n: nat)
    ensures Weighted(Dec(n)) == n && (|Dec(n)| > 1 ==> Dec(n)[0] != '0')
    ensures n > 0 ==> Dec(n)[0] != '0'
  {
    hide Weighted;
    var s := Dec(n);
    WeightedLast(s);
    if n < 10 {
      assert s[..0] == "";
      WeightedNone();
    } else {
      DecIsDecimal(n / 10);
      assert s[..|s| - 1] == Dec(n / 10);
    }
  }

  /** A word is printed as the signed number it also is, negative ones after a minus sign. */
  lemma SignedIsDecimal(w: ULong)
    ensures w < SIGNED ==> AllDigits(Signed(w)) && Weighted(Signed(w)) == w
    ensures w >= SIGNED ==> Signed(w)[0] == '-' && AllDigits(Signed(w)[1..]) && Weighted(Signed(w)[1..]) == ULONG - w
  {
    DecIsDecimal(w);
    DecIsDecimal(ULONG - w);
    if w >= SIGNED {
      assert Signed(w)[1..] == Dec(ULONG - w);
    }
  }

  predicate StartsNumber(s: string, i: nat) {
    i < |s| && IsDigit(s[i]) && (i == 0 || !IsDigit(s[i - 1]))
  }

  // A stretch of digits that cannot be made longer.
  predicate WholeNumber(s: string, i: nat, e: nat) {
    i < e <= |s| && StartsNumber(s, i) && AllDigits(s[i..e]) && (e == |s| || !IsDigit(s[e]))
  }

  // The number of them that start before place i.
  function NumbersBefore(s: string, i: nat): nat
    requires i <= |s|
  {
    if i == 0 then 0
    else NumbersBefore(s, i - 1) + (if StartsNumber(s, i - 1) then 1 else 0)
  }

  lemma {:induction false} SkipAt(s: string, i: nat) returns (p: nat)
    requires i <= |s|
    ensures i <= p <= |s| && SkipSpaces(s[i..]) == s[p..]
    ensures (forall q :: i <= q < p ==> IsSpace(s[q])) && (p < |s| ==> !IsSpace(s[p]))
    decreases |s| - i
  {
    if i == |s| || !IsSpace(s[i]) {
      p := i;
    } else {
      assert s[i..][1..] == s[i + 1..];
      p := SkipAt(s, i + 1);
    }
  }

  // No number starts among spaces, and none inside a number.
  lemma {:induction false} NoneStart(s: string, i: nat, p: nat)
    requires i <= p <= |s| && forall q :: i <= q < p ==> !StartsNumber(s, q)
    ensures NumbersBefore(s, p) == NumbersBefore(s, i)
    decreases p
  {
    if i < p { NoneStart(s, i, p - 1); }
  }

  // Of the numbers xs found from place i on, the one of the stretch a..e stands in its place.
  predicate ReadAs(s: string, i: nat, xs: seq<ULong>, a: nat, e: nat)
    requires i <= |s|
  {
    WholeNumber(s, a, e) ==>
      && NumbersBefore(s, i) <= NumbersBefore(s, a) < NumbersBefore(s, i) + |xs|
      && xs[NumbersBefore(s, a) - NumbersBefore(s, i)] == Value(s[a..e])
  }

  // The numbers of s from place i on, which is not inside of one.
  lemma {:induction false} NumbersFrom(s: string, i: nat)
    requires i <= |s| && (i < |s| && IsDigit(s[i]) ==> StartsNumber(s, i))
    ensures Numbers(s[i..]).Some? <==> forall q :: i <= q < |s| ==> IsDigit(s[q]) || IsSpace(s[q])
    ensures Numbers(s[i..]).Some? ==> var xs := Numbers(s[i..]).value;
      && NumbersBefore(s, i) + |xs| == NumbersBefore(s, |s|)
      && forall a: nat, e: nat :: i <= a ==> ReadAs(s, i, xs, a, e)
    decreases |s| - i
  {
    hide Value, SkipSpaces, NumbersBefore, ReadAs;
    var p := SkipAt(s, i);
    NoneStart(s, i, p);
    if p == |s| {
      assert s[p..] == "";
      forall a: nat, e: nat | i <= a ensures ReadAs(s, i, [], a, e) {
        NoneReadAs(s, i, a, e);
      }
    } else if IsDigit(s[p]) {
      var m := DigitsAt(s, p);
      NumbersFrom(s, m);
      OneStarts(s, p, m);
      if Numbers(s[m..]).Some? {
        var ys := Numbers(s[m..]).value;
        assert Numbers(s[i..]).value == [Value(s[p..m])] + ys;
        forall a: nat, e: nat | i <= a ensures ReadAs(s, i, [Value(s[p..m])] + ys, a, e) {
          OneMoreReadAs(s, i, p, m, ys, a, e);
        }
      }
    }
  }

  lemma NoneReadAs(s: string, i: nat, a: nat, e: nat)
    requires i <= a && i <= |s| && forall q :: i <= q < |s| ==> IsSpace(s[q])
    ensures ReadAs(s, i, [], a, e)
  {
    hide Value, NumbersBefore;
    if WholeNumber(s, a, e) { WholeStarts(s, a, e); }
  }

  lemma {:induction false} OneMoreReadAs(s: string, i: nat, p: nat, m: nat, ys: seq<ULong>, a: nat, e: nat)
    requires i <= p < m <= |s| && i <= a && (forall q :: i <= q < p ==> IsSpace(s[q]))
    requires (forall q :: p <= q < m ==> IsDigit(s[q])) && (m < |s| ==> !IsDigit(s[m]))
    requires NumbersBefore(s, p) == NumbersBefore(s, i) && NumbersBefore(s, m) == NumbersBefore(s, p) + 1
    requires m <= a ==> ReadAs(s, m, ys, a, e)
    ensures ReadAs(s, i, [Value(s[p..m])] + ys, a, e)
  {
    hide Value, NumbersBefore;
    if WholeNumber(s, a, e) {
      WholeStarts(s, a, e);
      WholeAt(s, p, m, a, e);
    }
  }

  lemma WholeStarts(s: string, a: nat, e: nat)
    requires WholeNumber(s, a, e)
    ensures a < e <= |s| && IsDigit(s[a])
  {
  }

  // The end of the digits at p.
  lemma DigitsAt(s: string, p: nat) returns (m: nat)
    requires p < |s| && IsDigit(s[p])
    ensures p < m <= |s| && (forall q :: p <= q < m ==> IsDigit(s[q])) && (m < |s| ==> !IsDigit(s[m]))
    ensures var k := Digits(s[p..]); k == m - p && s[p..][..k] == s[p..m] && s[p..][k..] == s[m..]
  {
    var k := Digits(s[p..]);
    m := p + k;
    assert k > 0;
    forall q | p <= q < m ensures IsDigit(s[q]) {
      assert s[q] == s[p..][..k][q - p];
    }
    assert m < |s| ==> s[p..][k] == s[m];
  }

  lemma OneStarts(s: string, p: nat, m: nat)
    requires p < m <= |s| && StartsNumber(s, p) && forall q :: p <= q < m ==> IsDigit(s[q])
    ensures NumbersBefore(s, m) == NumbersBefore(s, p) + 1
  {
    NoneStart(s, p + 1, m);
  }

  // A whole number is the stretch of digits or lies behind it.
  lemma WholeAt(s: string, p: nat, m: nat, a: nat, e: nat)
    requires p < m <= |s| && (forall q :: p <= q < m ==> IsDigit(s[q])) && (m < |s| ==> !IsDigit(s[m]))
    requires WholeNumber(s, a, e)
    ensures a < p || (a == p && e == m) || a > m
    ensures IsDigit(s[a])
  {
    assert forall q :: a <= q < e ==> IsDigit(s[q]) by {
      forall q | a <= q < e ensures IsDigit(s[q]) { assert s[q] == s[a..e][q - a]; }
    }
  }

  /**
   A line of numbers is read if and only if it holds nothing but digits and white space, and
   then as its stretches of digits in order, each in base ten modulo 2^64.
   */
  lemma NumbersExactly(s: string)
    ensures Numbers(s).Some? <==> forall q :: 0 <= q < |s| ==> IsDigit(s[q]) || IsSpace(s[q])
    ensures Numbers(s).Some? ==> var xs := Numbers(s).value;
      && |xs| == NumbersBefore(s, |s|)
      && forall a: nat, e: nat :: WholeNumber(s, a, e) ==>
           NumbersBefore(s, a) < |xs| && xs[NumbersBefore(s, a)] == Weighted(s[a..e]) % ULONG
  {
    hide Weighted, Value, Numbers, NumbersBefore, ReadAs;
    assert s[0..] == s;
    NothingBefore(s);
    NumbersFrom(s, 0);
    if Numbers(s).Some? {
      forall a: nat, e: nat | WholeNumber(s, a, e)
        ensures NumbersBefore(s, a) < |Numbers(s).value|
        ensures Numbers(s).value[NumbersBefore(s, a)] == Weighted(s[a..e]) % ULONG
      {
        ReadsWhole(s, Numbers(s).value, a, e);
        ValueIsDecimal(s[a..e]);
      }
    }
  }

  lemma ReadsWhole(s: string, xs: seq<ULong>, a: nat, e: nat)
    requires ReadAs(s, 0, xs, a, e) && WholeNumber(s, a, e)
    ensures NumbersBefore(s, a) < |xs| && xs[NumbersBefore(s, a)] == Value(s[a..e])
  {
    NothingBefore(s);
  }

  lemma NothingBefore(s: string)
    ensures NumbersBefore(s, 0) == 0
  {
  }

  // --- reading back what was printed ---

  lemma {:induction false} DigitsBefore(s: string, t: string)
    requires AllDigits(s) && (|t| == 0 || !IsDigit(t[0]))
    ensures Digits(s + t) == |s|
  {
    if |s| == 0 {
      assert s + t == t;
    } else {
      assert (s + t)[1..] == s[1..] + t;
      DigitsBefore(s[1..], t);
    }
  }

  lemma {:induction false} SpacesSkipped(k: nat, t: string)
    requires |t| == 0 || !IsSpace(t[0])
    ensures SkipSpaces(seq(k, _ => ' ') + t) == t
  {
    var s := seq(k, _ => ' ');
    if k == 0 {
      assert s + t == t;
    } else {
      assert (s + t)[1..] == seq(k - 1, _ => ' ') + t;
      SpacesSkipped(k - 1, t);
    }
  }

  /** A number after spaces and before anything but a digit is read as it was printed. */
  lemma {:induction false} NumberRead(k: nat, n: ULong, t: string)
    requires |t| == 0 || !IsDigit(t[0])
    ensures Numbers(seq(k, _ => ' ') + Dec(n) + t)
      == match Numbers(t) case None => None case Some(rest) => Some([n] + rest)
  {
    var r := Dec(n) + t;
    assert seq(k, _ => ' ') + Dec(n) + t == seq(k, _ => ' ') + r;
    SpacesSkipped(k, r);
    DigitsBefore(Dec(n), t);
    assert r[..|Dec(n)|] == Dec(n) && r[|Dec(n)|..] == t;
    ValueOfDec(n);
  }

  /** Words from 2^63 on are printed with a minus sign, which is not read. */
  lemma NegativeNotRead(k: nat, w: ULong, t: string)
    requires w >= SIGNED
    ensures Numbers(seq(k, _ => ' ') + Signed(w) + t) == None
  {
    var r := Signed(w) + t;
    assert seq(k, _ => ' ') + Signed(w) + t == seq(k, _ => ' ') + r;
    SpacesSkipped(k, r);
  }

  // --- lists of numbers ---

  // showCounts: a space after each.
  function ShowCounts(c: Counts): string {
    if |c| == 0 then "" else Signed(c[0]) + " " + ShowCounts(c[1..])
  }

  // The summary: a space before each.
  function ShowTotals(c: Counts): string {
    if |c| == 0 then "" else " " + Signed(c[0]) + ShowTotals(c[1..])
  }

  ghost predicate Small(c: Counts) {
    forall i :: 0 <= i < |c| ==> c[i] < SIGNED
  }

  lemma OnlySpaces(k: nat)
    ensures Numbers(seq(k, _ => ' ')) == Some([])
  {
    SpacesSkipped(k, "");
    assert seq(k, _ => ' ') + "" == seq(k, _ => ' ');
  }

  lemma SignedIsDec(w: ULong)
    requires w < SIGNED
    ensures Signed(w) == Dec(w)
  {
  }

  lemma {:induction false} CountsRead(k: nat, c: Counts)
    ensures Numbers(seq(k, _ => ' ') + ShowCounts(c)) == if Small(c) then Some(c) else None
    decreases |c|
  {
    hide Numbers, Signed, Dec, SkipSpaces;
    var spaces := seq(k, _ => ' ');
    if |c| == 0 {
      OnlySpaces(k);
      assert spaces + ShowCounts(c) == spaces;
    } else {
      var t := " " + ShowCounts(c[1..]);
      assert spaces + ShowCounts(c) == spaces + Signed(c[0]) + t;
      if c[0] < SIGNED {
        CountsRead(1, c[1..]);
        SignedIsDec(c[0]);
        assert seq(1, _ => ' ') == " ";
        NumberRead(k, c[0], t);
        assert Small(c) <==> Small(c[1..]);
        assert c == [c[0]] + c[1..];
      } else {
        NegativeNotRead(k, c[0], t);
      }
    }
  }

  lemma {:induction false} TotalsRead(c: Counts)
    ensures Numbers(ShowTotals(c)) == if Small(c) then Some(c) else None
  {
    hide Numbers, Signed, Dec, SkipSpaces;
    if |c| == 0 {
      OnlySpaces(0);
      assert seq(0, _ => ' ') == "";
    } else {
      var t := ShowTotals(c[1..]);
      assert seq(1, _ => ' ') == " ";
      assert ShowTotals(c) == seq(1, _ => ' ') + Signed(c[0]) + t;
      if c[0] < SIGNED {
        TotalsRead(c[1..]);
        SignedIsDec(c[0]);
        NumberRead(1, c[0], t);
        assert Small(c) <==> Small(c[1..]);
        assert c == [c[0]] + c[1..];
      } else {
        NegativeNotRead(1, c[0], t);
      }
    }
  }
}
