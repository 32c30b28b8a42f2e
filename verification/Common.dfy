module Common {
  // What several components share: optional values, the kinds of memory access, the depth
  // of the shadow call stacks, extremes, and facts about quotients and sizes of sets.

  datatype Option<T> = None | Some(value: T)

  datatype AccessType = LOAD | STORE | MODIFY

  // Stack slots: the stack doubles from 64 slots and a depth of 15000 or more is refused
  // when it has to grow, so it never grows beyond this.
  const MAX_DEPTH: nat := 16384

  function Max(x: nat, y: nat): nat {
    if x < y then y else x
  }

  function Min(x: nat, y: nat): nat {
    if y < x then y else x
  }

  lemma {:induction false} Quotient(q: nat, r: nat, d: nat)
    requires r < d
    ensures (q * d + r) / d == q && (q * d + r) % d == r
  {
    var a := q * d + r;
    var x: int := a / d - q;
    assert x * d == r - a % d;
    assert x >= 1 ==> x * d >= d;
    assert x <= -1 ==> x * d + d <= 0;
  }

  lemma TimesMonotone(a: nat, b: nat, s: nat)
    requires a <= b
    ensures a * s <= b * s
  {
  }

  lemma SubsetSize<T>(a: set<T>, b: set<T>)
    requires a <= b
    ensures |a| <= |b| && (a != b ==> |a| < |b|)
  {
    assert b == a + (b - a);
    assert |b| == |a| + |b - a|;
    if |b - a| == 0 {
      assert b - a == {};
    }
  }
}
