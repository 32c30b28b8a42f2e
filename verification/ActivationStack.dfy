module ActivationStack {
  // The shadow call stack of one thread: activation identifiers, the partial input
  // sizes, and the arithmetic of their suffix sums. Partial sizes are integers here and
  // may be negative; the classes that keep them in 32-bit words tie the words to these.

  datatype Activation = Activation(
    id: nat,
    inputSize: int,
    cumulSyscall: nat,
    cumulThread: nat,
    selfSyscall: nat,
    selfThread: nat)

  function NewActivation(id: nat): Activation {
    Activation(id, 0, 0, 0, 0, 0)
  }

  ghost predicate Increasing(s: seq<Activation>) {
    forall i, j :: 0 <= i < j < |s| ==> s[i].id < s[j].id
  }

  // --- sums over the top part of the stack ---

  function Suffix(xs: seq<int>, i: nat): int
    requires i <= |xs|
    decreases |xs| - i
  {
    if i == |xs| then 0 else xs[i] + Suffix(xs, i + 1)
  }

  lemma SuffixTop(xs: seq<int>)
    requires |xs| > 0
    ensures Suffix(xs, |xs| - 1) == xs[|xs| - 1]
  {
    assert Suffix(xs, |xs|) == 0;
  }

  lemma {:induction false} SuffixUpdate(xs: seq<int>, k: nat, v: int, i: nat)
    requires k < |xs| && i <= |xs|
    ensures Suffix(xs[k := v], i) == Suffix(xs, i) + (if i <= k then v - xs[k] else 0)
    decreases |xs| - i
  {
    if i < |xs| {
      SuffixUpdate(xs, k, v, i + 1);
    }
  }

  lemma {:induction false} SuffixAppend(xs: seq<int>, v: int, i: nat)
    requires i <= |xs|
    ensures Suffix(xs + [v], i) == Suffix(xs, i) + v
    decreases |xs| - i
  {
    if i < |xs| {
      SuffixAppend(xs, v, i + 1);
    } else {
      assert Suffix(xs + [v], i) == v + Suffix(xs + [v], i + 1);
    }
  }

  function Sizes(s: seq<Activation>): (r: seq<int>)
    ensures |r| == |s|
  {
    seq(|s|, i requires 0 <= i < |s| => s[i].inputSize)
  }

  function SyscallCounts(s: seq<Activation>): (r: seq<int>)
    ensures |r| == |s|
  {
    seq(|s|, i requires 0 <= i < |s| => s[i].cumulSyscall)
  }

  function ThreadCounts(s: seq<Activation>): (r: seq<int>)
    ensures |r| == |s|
  {
    seq(|s|, i requires 0 <= i < |s| => s[i].cumulThread)
  }

  // --- the three stack updates ---

  // The activation below the top that owns timestamp ts: the walk starts at the
  // caller of the running activation and goes down while the identifier is larger.
  function OwnerFrom(s: seq<Activation>, k: nat, ts: nat): (q: nat)
    requires k < |s| && s[0].id <= ts
    ensures q <= k && s[q].id <= ts
    ensures forall i :: q < i <= k ==> ts < s[i].id
  {
    if s[k].id <= ts then k else OwnerFrom(s, k - 1, ts)
  }

  function BumpSize(s: seq<Activation>, k: nat, d: int): (r: seq<Activation>)
    requires k < |s|
  {
    s[k := s[k].(inputSize := s[k].inputSize + d)]
  }

  // A read by the running activation of a cell last touched at `prev`, before the
  // running activation started: the running activation gains one and the owner of
  // the old timestamp, if it is still on the stack, loses one.
  function Credit(s: seq<Activation>, prev: int): (r: seq<Activation>)
    requires |s| > 0 && prev < s[|s| - 1].id
    ensures |r| == |s|
  {
    var up := BumpSize(s, |s| - 1, 1);
    if prev >= s[0].id then BumpSize(up, OwnerFrom(s, |s| - 2, prev), -1) else up
  }

  // A return: the caller inherits the partial counts of the callee.
  function Fold(s: seq<Activation>): (r: seq<Activation>)
    requires |s| > 0
    ensures |r| == |s| - 1
  {
    var t := |s| - 1;
    if t == 0 then []
    else s[..t][t - 1 := s[t - 1].(
      inputSize := s[t - 1].inputSize + s[t].inputSize,
      cumulSyscall := s[t - 1].cumulSyscall + s[t].cumulSyscall,
      cumulThread := s[t - 1].cumulThread + s[t].cumulThread)]
  }

  lemma BumpSizeSum(s: seq<Activation>, k: nat, d: int, i: nat)
    requires k < |s| && i <= |s|
    ensures Suffix(Sizes(BumpSize(s, k, d)), i) == Suffix(Sizes(s), i) + (if i <= k then d else 0)
  {
    var v := s[k].inputSize + d;
    assert Sizes(BumpSize(s, k, d)) == Sizes(s)[k := v];
    SuffixUpdate(Sizes(s), k, v, i);
  }

  // The suffix sums that grow by one are exactly those of the activations that
  // started after the old timestamp.
  lemma CreditSum(s: seq<Activation>, prev: int, i: nat)
    requires |s| > 0 && prev < s[|s| - 1].id && Increasing(s)
    requires i < |s|
    ensures Suffix(Sizes(Credit(s, prev)), i) == Suffix(Sizes(s), i) + (if prev < s[i].id then 1 else 0)
  {
    var up := BumpSize(s, |s| - 1, 1);
    BumpSizeSum(s, |s| - 1, 1, i);
    if prev >= s[0].id {
      BumpSizeSum(up, OwnerFrom(s, |s| - 2, prev), -1, i);
    }
  }

  lemma SuffixFold(xs: seq<int>, i: nat)
    requires |xs| > 1 && i < |xs| - 1
    ensures var t := |xs| - 1;
      Suffix(xs[..t][t - 1 := xs[t - 1] + xs[t]], i) == Suffix(xs, i)
  {
    var t := |xs| - 1;
    SuffixUpdate(xs[..t], t - 1, xs[t - 1] + xs[t], i);
    assert xs == xs[..t] + [xs[t]];
    SuffixAppend(xs[..t], xs[t], i);
  }

  // A return keeps the sums of every activation that stays.
  lemma FoldSum(s: seq<Activation>, i: nat)
    requires |s| > 0 && i < |s| - 1
    ensures Suffix(Sizes(Fold(s)), i) == Suffix(Sizes(s), i)
    ensures Suffix(SyscallCounts(Fold(s)), i) == Suffix(SyscallCounts(s), i)
    ensures Suffix(ThreadCounts(Fold(s)), i) == Suffix(ThreadCounts(s), i)
  {
    var t := |s| - 1;
    var z, k, r := Sizes(s), SyscallCounts(s), ThreadCounts(s);
    assert Sizes(Fold(s)) == z[..t][t - 1 := z[t - 1] + z[t]];
    assert SyscallCounts(Fold(s)) == k[..t][t - 1 := k[t - 1] + k[t]];
    assert ThreadCounts(Fold(s)) == r[..t][t - 1 := r[t - 1] + r[t]];
    SuffixFold(z, i);
    SuffixFold(k, i);
    SuffixFold(r, i);
  }

  // What each update leaves alone.
  lemma CreditShape(s: seq<Activation>, prev: int)
    requires |s| > 0 && prev < s[|s| - 1].id
    ensures forall i :: 0 <= i < |s| ==> Credit(s, prev)[i] == s[i].(inputSize := Credit(s, prev)[i].inputSize)
  {
  }

  /** The pointer walk of `get_activation_by_aid`. */
  method GetActivationByAid(s: seq<Activation>, aid: nat) returns (a: nat)
    requires |s| >= 2 && s[0].id <= aid
    ensures a == OwnerFrom(s, |s| - 2, aid)
  {
    a := |s| - 2;
    while s[a].id > aid
      invariant 0 <= a <= |s| - 2
      invariant OwnerFrom(s, |s| - 2, aid) == OwnerFrom(s, a, aid)
      decreases a
    {
      a := a - 1;
    }
  }
}
