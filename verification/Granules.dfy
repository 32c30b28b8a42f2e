module Granules {
  // The granules an access of `size` bytes at `addr` touches, after the access is widened
  // downwards to a granule boundary.

  import opened Common

  // Number of iterations of a loop that starts at the widened size and counts down by
  // the resolution while the size is positive.
  function Count(addr: nat, size: nat, res: nat): nat
    requires res > 0
  {
    (size + addr % res + res - 1) / res
  }

  // Granule g has a byte in [addr, addr + size).
  predicate Meets(g: nat, addr: nat, size: nat, res: nat) {
    g * res < addr + size && addr < (g + 1) * res && size > 0
  }

  // The granules touched are consecutive and are exactly those the access meets, unless
  // the access is empty and not aligned: then one granule is touched all the same.
  lemma {:induction false} RangeIsExact(addr: nat, size: nat, res: nat)
    requires res > 0
    ensures (forall g: nat :: addr / res <= g < addr / res + Count(addr, size, res) <==> Meets(g, addr, size, res))
       <==> (size > 0 || addr % res == 0)
    ensures size == 0 ==> Count(addr, size, res) == if addr % res == 0 then 0 else 1
  {
    var a, d := addr / res, addr % res;
    var n := Count(addr, size, res);
    assert addr == a * res + d;
    CeilingDivision(size + d, res);
    if size > 0 {
      forall g: nat ensures a <= g < a + n <==> Meets(g, addr, size, res) {
        TimesOrder(g, a, res);
        TimesOrder(a + n, g, res);
        GranuleMeets(g, a, d, n, size, res);
      }
    } else {
      if d > 0 { Quotient(1, d - 1, res); } else { Quotient(0, res - 1, res); }
      assert !Meets(a, addr, size, res);
      assert n > 0 ==> a <= a < a + n;
    }
  }

  lemma CeilingDivision(x: nat, d: nat)
    requires d > 0
    ensures var n := (x + d - 1) / d; x <= n * d < x + d
    ensures x == 0 <==> (x + d - 1) / d == 0
  {
    var n, r := (x + d - 1) / d, (x + d - 1) % d;
    assert x + d - 1 == n * d + r;
    if x == 0 { Quotient(0, d - 1, d); }
  }

  lemma {:induction false} TimesOrder(x: nat, y: nat, d: nat)
    requires d > 0
    ensures x < y <==> x * d < y * d
    ensures x < y ==> x * d + d <= y * d
  {
    var k: int := y - x;
    assert k * d == y * d - x * d;
    assert k >= 1 ==> k * d >= d;
    assert k <= 0 ==> k * d <= 0;
  }

  lemma {:induction false} GranuleMeets(g: nat, a: nat, d: nat, n: nat, size: nat, res: nat)
    requires res > 0 && d < res && size > 0 && size + d <= n * res < size + d + res
    ensures a <= g < a + n <==> Meets(g, a * res + d, size, res)
  {
    assert (g + 1) * res == g * res + res;
    assert (a + n) * res == a * res + n * res;
    TimesOrder(g, a, res);
    TimesOrder(g, a + n, res);
    TimesOrder(a + n, g, res);
    if g >= a + n { TimesOrder(a + n, g, res); assert g * res >= (a + n) * res; }
    if g >= a { assert g * res >= a * res by { assert (g - a) * res >= 0; } }
  }

  // Granule g is touched: it meets the access, or lies around the address of an empty one.
  predicate Reaches(g: nat, addr: nat, size: nat, res: nat) {
    g * res < addr + size && addr < (g + 1) * res
  }

  lemma {:induction false} AroundAddress(g: nat, a: nat, d: nat, res: nat)
    requires d < res
    ensures Reaches(g, a * res + d, 0, res) <==> d > 0 && g == a
  {
    TimesOrder(g, a, res);
    TimesOrder(a, g, res);
    assert (g + 1) * res == g * res + res;
    assert g == a ==> g * res == a * res;
  }

  /** The granules touched, whatever the size. */
  lemma {:induction false} RangeReaches(addr: nat, size: nat, res: nat, g: nat)
    requires res > 0
    ensures addr / res <= g < addr / res + Count(addr, size, res) <==> Reaches(g, addr, size, res)
    ensures size > 0 ==> (Reaches(g, addr, size, res) <==> Meets(g, addr, size, res))
  {
    hide Count;
    RangeIsExact(addr, size, res);
    assert addr == (addr / res) * res + addr % res;
    if size == 0 {
      AroundAddress(g, addr / res, addr % res, res);
    } else {
      assert Meets(g, addr, size, res) <==> addr / res <= g < addr / res + Count(addr, size, res);
    }
  }

  // Address a starts granule g.
  predicate Starts(a: int, g: nat, res: nat)
    requires res > 0
  {
    a >= 0 && a % res == 0 && a / res == g
  }

  // Before the loop the address is aligned downwards and the size grows by as much.
  lemma {:induction false} AlignedRange(addr: nat, size: nat, res: nat)
    requires res > 0
    ensures var d := addr % res;
      && d <= addr && Starts(addr - d, addr / res, res)
      && Count(addr, size, res) == Remaining(addr - d, size + d, res)
  {
    assert addr - addr % res == (addr / res) * res + 0;
    Quotient(addr / res, 0, res);
    CeilingDivision(size + addr % res, res);
  }

  // The iterations left when the address is `a` and the size is `left`.
  function Remaining(a: int, left: int, res: nat): nat
    requires res > 0 && a >= 0
  {
    if left > 0 then Count(a, left, res) else 0
  }

  lemma {:induction false} NextGranule(a: int, g: nat, res: nat)
    requires res > 0 && Starts(a, g, res)
    ensures Starts(a + res, g + 1, res)
  {
    assert a + res == (g + 1) * res;
    Quotient(g + 1, 0, res);
  }

  lemma {:induction false} CeilingStep(left: nat, res: nat)
    requires res > 0 && left > 0
    ensures (left + res - 1) / res == 1 + (if left <= res then 0 else (left - res + res - 1) / res)
  {
    if left <= res {
      Quotient(1, left - 1, res);
    } else {
      var n, r := (left - res + res - 1) / res, (left - res + res - 1) % res;
      assert left + res - 1 == (n + 1) * res + r;
      Quotient(n + 1, r, res);
    }
  }

  // One iteration of the loop.
  lemma {:induction false} CountStep(a: int, g: nat, left: int, res: nat)
    requires res > 0 && Starts(a, g, res) && left > 0
    ensures a >= 0 && a / res == g && Starts(a + res, g + 1, res)
    ensures Remaining(a, left, res) == 1 + Remaining(a + res, left - res, res)
  {
    NextGranule(a, g, res);
    CeilingStep(left, res);
  }
}
