module ActivationWords {
  // Frames whose partial input size is kept in a 32-bit word, and the updates of the words
  // beside those of the integers they stand for.

  import opened ActivationStack

  const UINT: nat := 0x1_0000_0000

  // A frame whose partial size is kept in a 32-bit word.
  function WordOf(a: Activation): Activation {
    a.(inputSize := a.inputSize % UINT)
  }

  ghost predicate StackWords(stack: seq<Activation>, frames: seq<Activation>) {
    && |stack| == |frames|
    && forall i :: 0 <= i < |frames| ==> stack[i] == WordOf(frames[i])
  }

  function BumpWord(s: seq<Activation>, k: nat, d: int): (r: seq<Activation>)
    requires k < |s|
    ensures |r| == |s|
  {
    s[k := s[k].(inputSize := (s[k].inputSize + d) % UINT)]
  }

  function CreditWords(s: seq<Activation>, prev: nat): (r: seq<Activation>)
    requires |s| > 0 && prev < s[|s| - 1].id
    ensures |r| == |s|
  {
    var up := BumpWord(s, |s| - 1, 1);
    if prev >= up[0].id then BumpWord(up, OwnerFrom(up, |s| - 2, prev), -1) else up
  }

  function FoldWords(s: seq<Activation>): seq<Activation>
    requires |s| > 0
  {
    var t := |s| - 1;
    if t == 0 then []
    else s[..t][t - 1 := s[t - 1].(
      inputSize := (s[t - 1].inputSize + s[t].inputSize) % UINT,
      cumulSyscall := s[t - 1].cumulSyscall + s[t].cumulSyscall,
      cumulThread := s[t - 1].cumulThread + s[t].cumulThread)]
  }

  lemma BumpWords(s: seq<Activation>, r: seq<Activation>, k: nat, d: int)
    requires StackWords(s, r) && k < |s|
    ensures StackWords(BumpWord(s, k, d), BumpSize(r, k, d))
  {
  }

  lemma OwnerOfWords(s: seq<Activation>, r: seq<Activation>, k: nat, ts: nat)
    requires |s| == |r| && k < |s| && s[0].id <= ts
    requires forall i :: 0 <= i < |s| ==> s[i].id == r[i].id
    ensures r[0].id <= ts && OwnerFrom(s, k, ts) == OwnerFrom(r, k, ts)
  {
    var q, q' := OwnerFrom(s, k, ts), OwnerFrom(r, k, ts);
    assert s[q].id <= ts && r[q'].id <= ts;
  }

  // The words follow the integers through every update.
  lemma {:induction false} CreditFollows(s: seq<Activation>, r: seq<Activation>, prev: nat)
    requires StackWords(s, r) && |s| > 0 && prev < s[|s| - 1].id
    ensures prev < r[|r| - 1].id && StackWords(CreditWords(s, prev), Credit(r, prev))
  {
    var t := |s| - 1;
    assert s[t].id == r[t].id && s[0].id == r[0].id;
    BumpWords(s, r, t, 1);
    var up, up' := BumpWord(s, t, 1), BumpSize(r, t, 1);
    if prev >= s[0].id {
      OwnerOfWords(up, r, t - 1, prev);
      BumpWords(up, up', OwnerFrom(r, t - 1, prev), -1);
    }
  }

  lemma FoldFollows(s: seq<Activation>, r: seq<Activation>)
    requires StackWords(s, r) && |s| > 0
    ensures StackWords(FoldWords(s), Fold(r))
  {
  }

  // --- a stack with its hidden part ---

  function CountTrue(b: seq<bool>): nat {
    if |b| == 0 then 0 else CountTrue(b[..|b| - 1]) + (if b[|b| - 1] then 1 else 0)
  }

  lemma {:induction false} CountTrueAt(b: seq<bool>, i: nat)
    requires i < |b| && b[i]
    ensures CountTrue(b) > 0
  {
    if i < |b| - 1 { CountTrueAt(b[..|b| - 1], i); }
  }

  // A stack of activations, with the skip flags of their functions and the number of
  // skipped functions on it, against the frames being profiled and the hidden ones.
  ghost predicate ShowsStack(stack: seq<Activation>, skipped: seq<bool>, skip: nat,
                             frames: seq<Activation>, hidden: seq<bool>) {
    && |stack| == |skipped| == |frames| + |hidden|
    && StackWords(stack[..|frames|], frames)
    && skipped[|frames|..] == hidden
    && skip == CountTrue(hidden)
    && (|hidden| > 0 ==> hidden[0])
  }

  // An activation is hidden exactly when a skipped function is on the stack.
  lemma StackParts(stack: seq<Activation>, skipped: seq<bool>, skip: nat, frames: seq<Activation>, hidden: seq<bool>)
    requires ShowsStack(stack, skipped, skip, frames, hidden)
    ensures skip > 0 <==> |hidden| > 0
    ensures |stack| == |skipped| == |frames| + |hidden|
    ensures (|stack| > 0 && skip == 0 <==> |frames| > 0 && |hidden| == 0)
    ensures |hidden| == 0 ==> StackWords(stack, frames)
    ensures |hidden| > 0 ==> |skipped| > 0 && skipped[|skipped| - 1] == hidden[|hidden| - 1]
  {
    if |hidden| > 0 {
      CountTrueAt(hidden, 0);
    } else {
      assert stack[..|frames|] == stack;
    }
  }

  lemma PushHidden(stack: seq<Activation>, skipped: seq<bool>, skip: nat, frames: seq<Activation>, hidden: seq<bool>,
                   slot: Activation, b: bool)
    requires ShowsStack(stack, skipped, skip, frames, hidden) && (b || |hidden| > 0)
    ensures ShowsStack(stack + [slot], skipped + [b], if b then skip + 1 else skip, frames, hidden + [b])
  {
    assert (stack + [slot])[..|frames|] == stack[..|frames|];
    assert (hidden + [b])[..|hidden|] == hidden;
  }

  lemma PopHidden(stack: seq<Activation>, skipped: seq<bool>, skip: nat, frames: seq<Activation>, hidden: seq<bool>)
    requires ShowsStack(stack, skipped, skip, frames, hidden) && |hidden| > 0
    ensures var top := |stack| - 1;
      (skipped[top] ==> skip > 0)
      && ShowsStack(stack[..top], skipped[..top], if skipped[top] then skip - 1 else skip, frames, hidden[..|hidden| - 1])
  {
    assert stack[..|stack| - 1][..|frames|] == stack[..|frames|];
  }

  lemma TopShows(stack: seq<Activation>, skipped: seq<bool>, frames: seq<Activation>)
    requires |stack| == |skipped| && StackWords(stack, frames)
    ensures ShowsStack(stack, skipped, 0, frames, [])
  {
    assert stack[..|frames|] == stack;
  }
}
