module Adler32 {
  // Adler-32 as the debuginfo server computes it: sums reduced once in 5552 bytes, and reduced
  // by chains of conditional subtractions instead of a division.

  const BASE: int := 65521
  const NMAX: int := 5552

  type UInt = x: int | 0 <= x < 0x1_0000_0000
  type UChar = x: int | 0 <= x < 256

  // --- the checksum by its definition, RFC 1950 sections 2.2 and 8.2 ---

  datatype Sums = Sums(s1: nat, s2: nat)

  // Byte by byte, each sum reduced at once.
  function Reduced(z: Sums, bytes: seq<UChar>): Sums {
    if |bytes| == 0 then z
    else
      var y := Reduced(z, bytes[..|bytes| - 1]);
      var s1 := (y.s1 + bytes[|bytes| - 1]) % BASE;
      Sums(s1, (y.s2 + s1) % BASE)
  }

  function Unpack(adler: UInt): Sums {
    Sums(adler % 65536, adler / 65536)
  }

  function Pack(z: Sums): UInt
    requires z.s1 < 65536 && z.s2 < 65536
  {
    z.s2 * 65536 + z.s1
  }

  predicate Start(z: Sums) {
    z.s1 < BASE && z.s2 < BASE
  }

  lemma {:induction false} ReducedStarts(z: Sums, bytes: seq<UChar>)
    requires Start(z)
    ensures Start(Reduced(z, bytes))
  {
    if |bytes| > 0 {
      ReducedStarts(z, bytes[..|bytes| - 1]);
    }
  }

  function Checksum(adler: UInt, bytes: seq<UChar>): UInt
    requires Start(Unpack(adler))
  {
    ReducedStarts(Unpack(adler), bytes);
    Pack(Reduced(Unpack(adler), bytes))
  }

  lemma ReducedNone(z: Sums)
    ensures Reduced(z, []) == z
  {
  }

  lemma {:induction false} ReducedAppend(z: Sums, x: seq<UChar>, y: seq<UChar>)
    ensures Reduced(Reduced(z, x), y) == Reduced(z, x + y)
  {
    if |y| == 0 {
      assert x + y == x;
    } else {
      assert (x + y)[..|x + y| - 1] == x + y[..|y| - 1];
      ReducedAppend(z, x, y[..|y| - 1]);
    }
  }

  lemma UnpackPack(z: Sums)
    requires Start(z)
    ensures Unpack(Pack(z)) == z
  {
    var a := Pack(z);
    assert a == 65536 * (a / 65536) + a % 65536;
    assert 65536 * (z.s2 - a / 65536) == a % 65536 - z.s1;
  }

  /** Checksumming x and going on with y is checksumming x followed by y. */
  lemma ChecksumAppend(adler: UInt, x: seq<UChar>, y: seq<UChar>)
    requires Start(Unpack(adler))
    ensures Start(Unpack(Checksum(adler, x)))
    ensures Checksum(Checksum(adler, x), y) == Checksum(adler, x + y)
  {
    hide Reduced, Unpack, Pack;
    var z := Unpack(adler);
    ReducedStarts(z, x);
    UnpackPack(Reduced(z, x));
    ReducedAppend(z, x, y);
  }

  // --- sums that are not reduced ---

  function Plain(z: Sums, bytes: seq<UChar>): Sums {
    if |bytes| == 0 then z
    else
      var y := Plain(z, bytes[..|bytes| - 1]);
      var s1 := y.s1 + bytes[|bytes| - 1];
      Sums(s1, y.s2 + s1)
  }

  lemma ModSum(a: int, b: int)
    ensures (a % BASE + b) % BASE == (a + b) % BASE
  {
    assert a == BASE * (a / BASE) + a % BASE;
    assert a + b == BASE * (a / BASE) + (a % BASE + b);
    ModMultiple(a / BASE, a % BASE + b);
  }

  lemma ModMultiple(q: int, b: int)
    ensures (BASE * q + b) % BASE == b % BASE
  {
    var r := b % BASE;
    assert BASE * q + b == BASE * (q + b / BASE) + r;
    ModUnique(BASE * q + b, q + b / BASE, r);
  }

  lemma ModUnique(a: int, q: int, r: int)
    requires a == BASE * q + r && 0 <= r < BASE
    ensures a % BASE == r
  {
    assert BASE * (a / BASE - q) == r - a % BASE;
  }

  /** Reduction may wait: the remainders of the plain sums are the reduced ones. */
  lemma {:induction false} ReductionMayWait(z: Sums, bytes: seq<UChar>)
    requires Start(z)
    ensures Reduced(z, bytes) == Sums(Plain(z, bytes).s1 % BASE, Plain(z, bytes).s2 % BASE)
  {
    hide Reduced, Plain;
    LastByte(z, bytes);
    if |bytes| > 0 {
      ReductionMayWait(z, bytes[..|bytes| - 1]);
      ByteReduced(Plain(z, bytes[..|bytes| - 1]), bytes[|bytes| - 1]);
    }
  }

  lemma LastByte(z: Sums, bytes: seq<UChar>)
    requires Start(z)
    ensures |bytes| == 0 ==> Reduced(z, bytes) == Plain(z, bytes) == z == Sums(z.s1 % BASE, z.s2 % BASE)
    ensures |bytes| > 0 ==>
      var front, b := bytes[..|bytes| - 1], bytes[|bytes| - 1];
      var p, r := Plain(z, front), Reduced(z, front); var s1 := (r.s1 + b) % BASE;
      Plain(z, bytes) == Sums(p.s1 + b, p.s2 + (p.s1 + b)) && Reduced(z, bytes) == Sums(s1, (r.s2 + s1) % BASE)
  {
  }

  // The step of one byte, reduced at once or later.
  lemma ByteReduced(y: Sums, b: UChar)
    ensures var s1 := (y.s1 % BASE + b) % BASE;
      s1 == (y.s1 + b) % BASE && (y.s2 % BASE + s1) % BASE == (y.s2 + (y.s1 + b)) % BASE
  {
    ModSum(y.s1, b);
    ModSum(y.s1 + b, y.s2 % BASE);
    ModSum(y.s2, y.s1 + b);
  }

  // --- the checksum in closed form ---

  function ByteSum(bytes: seq<UChar>): nat {
    if |bytes| == 0 then 0 else bytes[0] + ByteSum(bytes[1..])
  }

  // The first byte as often as there are bytes, the next one time less, the last one once.
  function WeightedSum(bytes: seq<UChar>): nat {
    if |bytes| == 0 then 0 else |bytes| * bytes[0] + WeightedSum(bytes[1..])
  }

  lemma {:induction false} SumsOneMore(bytes: seq<UChar>, b: UChar)
    ensures ByteSum(bytes + [b]) == ByteSum(bytes) + b
    ensures WeightedSum(bytes + [b]) == WeightedSum(bytes) + ByteSum(bytes) + b
  {
    var more := bytes + [b];
    if |bytes| > 0 {
      SumsOneMore(bytes[1..], b);
      assert more[1..] == bytes[1..] + [b];
      assert |more| * bytes[0] == |bytes| * bytes[0] + bytes[0];
    } else {
      assert more[1..] == [];
    }
  }

  lemma {:induction false} PlainIsSums(z: Sums, bytes: seq<UChar>)
    ensures Plain(z, bytes) == Sums(z.s1 + ByteSum(bytes), z.s2 + |bytes| * z.s1 + WeightedSum(bytes))
  {
    hide ByteSum, WeightedSum;
    if |bytes| == 0 {
      NoBytes();
    } else {
      var front, b := bytes[..|bytes| - 1], bytes[|bytes| - 1];
      PlainIsSums(z, front);
      SumsOneMore(front, b);
      assert front + [b] == bytes;
      assert |bytes| * z.s1 == |front| * z.s1 + z.s1;
    }
  }

  lemma NoBytes()
    ensures ByteSum([]) == 0 && WeightedSum([]) == 0
  {
  }

  /**
   The checksum in numbers: its low half is the start value's plus all bytes, its high half the
   start value's plus the low half and the bytes once for every byte from them to the end, both
   modulo 65521.
   */
  lemma {:induction false} ChecksumIsSums(adler: UInt, bytes: seq<UChar>)
    requires adler % 65536 < 65521 && adler / 65536 < 65521
    ensures Checksum(adler, bytes)
         == (adler / 65536 + |bytes| * (adler % 65536) + WeightedSum(bytes)) % 65521 * 65536
            + (adler % 65536 + ByteSum(bytes)) % 65521
  {
    hide Reduced, Plain, ByteSum, WeightedSum;
    ReductionMayWait(Unpack(adler), bytes);
    PlainIsSums(Unpack(adler), bytes);
  }

  // --- no sum overflows ---

  // The largest second sum after n bytes.
  function SumBound(n: nat): nat {
    if n == 0 then BASE - 1 else SumBound(n - 1) + (BASE - 1) + 255 * n
  }

  lemma {:induction false} PlainBound(z: Sums, bytes: seq<UChar>)
    requires Start(z)
    ensures Plain(z, bytes).s1 <= BASE - 1 + 255 * |bytes|
    ensures Plain(z, bytes).s2 <= SumBound(|bytes|)
  {
    if |bytes| > 0 {
      PlainBound(z, bytes[..|bytes| - 1]);
    }
  }

  lemma {:induction false} SumBoundClosed(n: nat)
    ensures 2 * SumBound(n) == 2 * (BASE - 1) * (n + 1) + 255 * n * (n + 1)
  {
    if n > 0 {
      SumBoundClosed(n - 1);
    }
  }

  lemma {:induction false} SumBoundGrows(n: nat, m: nat)
    requires n <= m
    ensures SumBound(n) <= SumBound(m)
    decreases m - n
  {
    if n < m {
      SumBoundGrows(n + 1, m);
    }
  }

  /** NMAX is the largest number of bytes that no second sum overflows in. */
  lemma NmaxIsLargest(n: nat)
    ensures SumBound(n) < 0x1_0000_0000 <==> n <= NMAX
  {
    SumBoundClosed(NMAX);
    SumBoundClosed(NMAX + 1);
    if n <= NMAX {
      SumBoundGrows(n, NMAX);
    } else {
      SumBoundGrows(NMAX + 1, n);
    }
  }

  // The bound is met: a message of n bytes 255 from the largest start.
  lemma {:induction false} BoundIsMet(n: nat)
    ensures Plain(Sums(BASE - 1, BASE - 1), seq(n, _ => 255)) == Sums(BASE - 1 + 255 * n, SumBound(n))
  {
    if n > 0 {
      assert seq(n, _ => 255)[..n - 1] == seq(n - 1, _ => 255);
      BoundIsMet(n - 1);
    }
  }

  // --- the code ---

  // One conditional subtraction of a chain, of q times BASE.
  method Subtract(a: UInt, q: nat) returns (r: UInt)
    requires a < 2 * (BASE * q)
    ensures r < BASE * q && r % BASE == a % BASE
  {
    r := a;
    if a >= BASE * q {
      r := a - BASE * q;
      ModMultiple(q, r);
    }
  }

  /** MOD: the chain computes the remainder of every 32-bit number. */
  method Mod(a: UInt) returns (r: UInt)
    ensures r == a % BASE
  {
    r := Subtract(a, 65536);
    r := Subtract(r, 32768);
    r := Subtract(r, 16384);
    r := Subtract(r, 8192);
    r := Subtract(r, 4096);
    r := Subtract(r, 2048);
    r := Subtract(r, 1024);
    r := Subtract(r, 512);
    r := Subtract(r, 256);
    r := Subtract(r, 128);
    r := Subtract(r, 64);
    r := Subtract(r, 32);
    r := Mod4(r);
  }

  /** MOD4: the shorter chain computes the remainder of numbers below 32 times BASE. */
  method Mod4(a: UInt) returns (r: UInt)
    requires a < 32 * BASE
    ensures r == a % BASE
  {
    r := Subtract(a, 16);
    r := Subtract(r, 8);
    r := Subtract(r, 4);
    r := Subtract(r, 2);
    r := Subtract(r, 1);
    ModUnique(r, 0, r);
  }

  // Since the last reduction the bytes from..to of buf have been added to sums that were z.
  ghost predicate Summed(z: Sums, bytes: seq<UChar>, adler: UInt, sum2: UInt) {
    Start(z) && Sums(adler, sum2) == Plain(z, bytes)
  }

  method Do1(buf: array<UChar>, i: nat, a: UInt, s: UInt, ghost z: Sums, ghost from: nat) returns (adler: UInt, sum2: UInt)
    requires from <= i < buf.Length && i + 1 - from <= NMAX && Summed(z, buf[from..i], a, s)
    ensures Summed(z, buf[from..i + 1], adler, sum2)
  {
    assert buf[from..i + 1][..i - from] == buf[from..i];
    PlainBound(z, buf[from..i + 1]);
    NmaxIsLargest(i + 1 - from);
    adler := a + buf[i];
    sum2 := s + adler;
  }

  method Do2(buf: array<UChar>, i: nat, a: UInt, s: UInt, ghost z: Sums, ghost from: nat) returns (adler: UInt, sum2: UInt)
    requires from <= i && i + 2 <= buf.Length && i + 2 - from <= NMAX && Summed(z, buf[from..i], a, s)
    ensures Summed(z, buf[from..i + 2], adler, sum2)
  {
    adler, sum2 := Do1(buf, i, a, s, z, from);
    adler, sum2 := Do1(buf, i + 1, adler, sum2, z, from);
  }

  method Do4(buf: array<UChar>, i: nat, a: UInt, s: UInt, ghost z: Sums, ghost from: nat) returns (adler: UInt, sum2: UInt)
    requires from <= i && i + 4 <= buf.Length && i + 4 - from <= NMAX && Summed(z, buf[from..i], a, s)
    ensures Summed(z, buf[from..i + 4], adler, sum2)
  {
    adler, sum2 := Do2(buf, i, a, s, z, from);
    adler, sum2 := Do2(buf, i + 2, adler, sum2, z, from);
  }

  method Do8(buf: array<UChar>, i: nat, a: UInt, s: UInt, ghost z: Sums, ghost from: nat) returns (adler: UInt, sum2: UInt)
    requires from <= i && i + 8 <= buf.Length && i + 8 - from <= NMAX && Summed(z, buf[from..i], a, s)
    ensures Summed(z, buf[from..i + 8], adler, sum2)
  {
    adler, sum2 := Do4(buf, i, a, s, z, from);
    adler, sum2 := Do4(buf, i + 4, adler, sum2, z, from);
  }

  method Do16(buf: array<UChar>, i: nat, a: UInt, s: UInt, ghost z: Sums, ghost from: nat) returns (adler: UInt, sum2: UInt)
    requires from <= i && i + 16 <= buf.Length && i + 16 - from <= NMAX && Summed(z, buf[from..i], a, s)
    ensures Summed(z, buf[from..i + 16], adler, sum2)
  {
    adler, sum2 := Do8(buf, i, a, s, z, from);
    adler, sum2 := Do8(buf, i + 8, adler, sum2, z, from);
  }

  // A block of NMAX bytes, reduced at its end.
  method Block(buf: array<UChar>, at: nat, a: UInt, s: UInt) returns (adler: UInt, sum2: UInt)
    requires at + NMAX <= buf.Length && Start(Sums(a, s))
    ensures Start(Sums(adler, sum2)) && Sums(adler, sum2) == Reduced(Sums(a, s), buf[at..at + NMAX])
  {
    ghost var z := Sums(a, s);
    adler, sum2 := a, s;
    var n, i := NMAX / 16, at;
    while n > 0
      invariant 0 <= n && i == at + NMAX - 16 * n && at <= i && Summed(z, buf[at..i], adler, sum2)
    {
      adler, sum2 := Do16(buf, i, adler, sum2, z, at);
      i := i + 16;
      n := n - 1;
    }
    ReductionMayWait(z, buf[at..i]);
    adler := Mod(adler);
    sum2 := Mod(sum2);
  }

  // The last bytes, fewer than NMAX.
  method Rest(buf: array<UChar>, at: nat, length: nat, a: UInt, s: UInt) returns (adler: UInt, sum2: UInt)
    requires at + length <= buf.Length && length < NMAX && Start(Sums(a, s))
    ensures Start(Sums(adler, sum2)) && Sums(adler, sum2) == Reduced(Sums(a, s), buf[at..at + length])
  {
    ghost var z := Sums(a, s);
    adler, sum2 := a, s;
    var len, i := length, at;
    while len >= 16
      invariant i + len == at + length && at <= i && Summed(z, buf[at..i], adler, sum2)
    {
      len := len - 16;
      adler, sum2 := Do16(buf, i, adler, sum2, z, at);
      i := i + 16;
    }
    while len > 0
      invariant i + len == at + length && at <= i && Summed(z, buf[at..i], adler, sum2)
    {
      len := len - 1;
      adler, sum2 := Do1(buf, i, adler, sum2, z, at);
      i := i + 1;
    }
    ReductionMayWait(z, buf[at..i]);
    adler := Mod(adler);
    sum2 := Mod(sum2);
  }

  // Fewer than 16 bytes: the first sum needs one subtraction, the second one the shorter chain.
  method Short(buf: array<UChar>, length: nat, a: UInt, s: UInt) returns (adler: UInt, sum2: UInt)
    requires length <= buf.Length && length < 16 && Start(Sums(a, s))
    ensures Start(Sums(adler, sum2)) && Sums(adler, sum2) == Reduced(Sums(a, s), buf[..length])
  {
    hide Reduced;
    ghost var z := Sums(a, s);
    adler, sum2 := a, s;
    var len, i := length, 0;
    assert buf[0..0] == [];
    while len > 0
      invariant i + len == length && Summed(z, buf[0..i], adler, sum2)
    {
      len := len - 1;
      adler, sum2 := Do1(buf, i, adler, sum2, z, 0);
      i := i + 1;
    }
    assert buf[0..i] == buf[..length];
    ShortBounds(z, buf[..length]);
    adler := Subtract(adler, 1);
    ModUnique(adler, 0, adler);
    sum2 := Mod4(sum2);
  }

  lemma ShortBounds(z: Sums, bytes: seq<UChar>)
    requires Start(z) && |bytes| < 16
    ensures Plain(z, bytes).s1 < 2 * BASE && Plain(z, bytes).s2 < 32 * BASE
    ensures Reduced(z, bytes) == Sums(Plain(z, bytes).s1 % BASE, Plain(z, bytes).s2 % BASE)
  {
    hide Plain, Reduced, SumBound;
    ReductionMayWait(z, bytes);
    PlainBound(z, bytes);
    SumBoundGrows(|bytes|, 15);
    SumBoundClosed(15);
  }

  // One byte: a subtraction for each sum.
  method Single(b: UChar, a: UInt, s: UInt) returns (adler: UInt, sum2: UInt)
    requires Start(Sums(a, s))
    ensures Start(Sums(adler, sum2)) && Sums(adler, sum2) == Reduced(Sums(a, s), [b])
  {
    assert [b][..0] == [] && Reduced(Sums(a, s), []) == Sums(a, s);
    adler := Subtract(a + b, 1);
    ModUnique(adler, 0, adler);
    sum2 := Subtract(s + adler, 1);
    ModUnique(sum2, 0, sum2);
  }

  /** adler32: for every message and every start value with reduced halves, the checksum of its definition. */
  method Update(adler: UInt, buf: array?<UChar>, len: UInt) returns (r: UInt)
    requires Start(Unpack(adler))
    requires if buf == null then len != 1 else len <= buf.Length
    ensures buf == null ==> r == 1
    ensures buf != null ==> r == Checksum(adler, buf[..len])
  {
    hide Plain, SumBound, Reduced;
    ReducedNone(Unpack(adler));
    var sum2: nat, a: nat := adler / 65536, adler % 65536;
    ghost var z := Unpack(adler);
    if len == 1 {
      a, sum2 := Single(buf[0], a, sum2);
      assert buf[..1] == [buf[0]];
      return sum2 * 65536 + a;
    }
    if buf == null {
      return 1;
    }
    if len < 16 {
      a, sum2 := Short(buf, len, a, sum2);
      return sum2 * 65536 + a;
    }
    var rest: nat, i: nat := len, 0;
    assert buf[..0] == [];
    while rest >= NMAX
      invariant i + rest == len && Start(Sums(a, sum2)) && Sums(a, sum2) == Reduced(z, buf[..i])
    {
      rest := rest - NMAX;
      ReducedAppend(z, buf[..i], buf[i..i + NMAX]);
      assert buf[..i] + buf[i..i + NMAX] == buf[..i + NMAX];
      a, sum2 := Block(buf, i, a, sum2);
      i := i + NMAX;
    }
    if rest > 0 {
      ReducedAppend(z, buf[..i], buf[i..i + rest]);
      assert buf[..i] + buf[i..i + rest] == buf[..len];
      a, sum2 := Rest(buf, i, rest, a, sum2);
    } else {
      assert buf[..i] == buf[..len];
    }
    return sum2 * 65536 + a;
  }
}
