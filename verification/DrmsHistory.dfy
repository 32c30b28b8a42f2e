module DrmsHistory {
  // The interleaved history of tracked accesses and kernel writes, and the dynamic read
  // memory size it defines.

  datatype Event =
    | Access(who: nat, granule: nat, read: bool, write: bool)
    | KernelWrite(granule: nat)

  predicate AccessBy(e: Event, who: nat, g: nat) {
    e.Access? && e.who == who && e.granule == g
  }

  predicate Writes(e: Event, g: nat) {
    e.granule == g && (e.KernelWrite? || e.write)
  }

  // A write to g by the kernel or by a thread other than `who`.
  predicate ForeignWrite(e: Event, who: nat, g: nat) {
    Writes(e, g) && !(e.Access? && e.who == who)
  }

  // The positions of the latest such events, or -1.
  function LastAccess(h: seq<Event>, who: nat, g: nat): (k: int)
    ensures -1 <= k < |h|
    ensures k >= 0 ==> AccessBy(h[k], who, g)
    ensures forall j :: k < j < |h| ==> !AccessBy(h[j], who, g)
  {
    if |h| == 0 then -1
    else if AccessBy(h[|h| - 1], who, g) then |h| - 1
    else LastAccess(h[..|h| - 1], who, g)
  }

  function LastForeign(h: seq<Event>, who: nat, g: nat): (k: int)
    ensures -1 <= k < |h|
    ensures k >= 0 ==> ForeignWrite(h[k], who, g)
    ensures forall j :: k < j < |h| ==> !ForeignWrite(h[j], who, g)
  {
    if |h| == 0 then -1
    else if ForeignWrite(h[|h| - 1], who, g) then |h| - 1
    else LastForeign(h[..|h| - 1], who, g)
  }

  function LastWrite(h: seq<Event>, g: nat): (k: int)
    ensures -1 <= k < |h|
    ensures k >= 0 ==> Writes(h[k], g)
    ensures forall j :: k < j < |h| ==> !Writes(h[j], g)
  {
    if |h| == 0 then -1
    else if Writes(h[|h| - 1], g) then |h| - 1
    else LastWrite(h[..|h| - 1], g)
  }

  // Somebody else wrote g since `who` last accessed it.
  predicate Renewed(h: seq<Event>, who: nat, g: nat) {
    LastAccess(h, who, g) < LastForeign(h, who, g)
  }

  predicate KernelLast(h: seq<Event>, g: nat) {
    var k := LastWrite(h, g);
    k >= 0 && h[k].KernelWrite?
  }

  // After history h, event e is a read by `who` of a value somebody else produced,
  // the kernel or another thread ...
  predicate FromKernel(h: seq<Event>, e: Event, who: nat) {
    e.Access? && e.who == who && e.read && Renewed(h, who, e.granule) && KernelLast(h, e.granule)
  }

  predicate FromThread(h: seq<Event>, e: Event, who: nat) {
    e.Access? && e.who == who && e.read && Renewed(h, who, e.granule) && !KernelLast(h, e.granule)
  }
  // ... or of such a value or a granule `who` did not access since position p.
  predicate Counts(h: seq<Event>, e: Event, who: nat, p: nat) {
    e.Access? && e.who == who && e.read && (Renewed(h, who, e.granule) || LastAccess(h, who, e.granule) < p)
  }

  // The positions of these reads since p, and their numbers: at the end of history h,
  // the dynamic read memory size of an activation of `who` entered at position p, and
  // the parts of it that the kernel and other threads produced.
  ghost function KernelReads(h: seq<Event>, who: nat, p: nat): set<nat> {
    set k: nat | p <= k < |h| && FromKernel(h[..k], h[k], who)
  }

  ghost function ThreadReads(h: seq<Event>, who: nat, p: nat): set<nat> {
    set k: nat | p <= k < |h| && FromThread(h[..k], h[k], who)
  }

  ghost function InputReads(h: seq<Event>, who: nat, p: nat): set<nat> {
    set k: nat | p <= k < |h| && Counts(h[..k], h[k], who, p)
  }

  ghost function KernelInput(h: seq<Event>, who: nat, p: nat): nat {
    |KernelReads(h, who, p)|
  }

  ghost function ThreadInput(h: seq<Event>, who: nat, p: nat): nat {
    |ThreadReads(h, who, p)|
  }

  ghost function DynamicSize(h: seq<Event>, who: nat, p: nat): nat {
    |InputReads(h, who, p)|
  }

  lemma LastStep(h: seq<Event>, e: Event, who: nat, g: nat)
    ensures LastAccess(h + [e], who, g) == if AccessBy(e, who, g) then |h| else LastAccess(h, who, g)
    ensures LastForeign(h + [e], who, g) == if ForeignWrite(e, who, g) then |h| else LastForeign(h, who, g)
    ensures LastWrite(h + [e], g) == if Writes(e, g) then |h| else LastWrite(h, g)
    ensures KernelLast(h + [e], g) == if Writes(e, g) then e.KernelWrite? else KernelLast(h, g)
  {
    assert (h + [e])[..|h|] == h;
  }

  lemma ReadsStep(h: seq<Event>, e: Event, who: nat, p: nat)
    requires p <= |h|
    ensures KernelReads(h + [e], who, p) == KernelReads(h, who, p) + (if FromKernel(h, e, who) then {|h|} else {})
    ensures ThreadReads(h + [e], who, p) == ThreadReads(h, who, p) + (if FromThread(h, e, who) then {|h|} else {})
    ensures InputReads(h + [e], who, p) == InputReads(h, who, p) + (if Counts(h, e, who, p) then {|h|} else {})
  {
    var n := h + [e];
    assert n[..|h|] == h;
    assert forall k :: 0 <= k < |h| ==> n[..k] == h[..k] && n[k] == h[k];
  }

  lemma InputStep(h: seq<Event>, e: Event, who: nat, p: nat)
    requires p <= |h|
    ensures KernelInput(h + [e], who, p) == KernelInput(h, who, p) + (if FromKernel(h, e, who) then 1 else 0)
    ensures ThreadInput(h + [e], who, p) == ThreadInput(h, who, p) + (if FromThread(h, e, who) then 1 else 0)
    ensures DynamicSize(h + [e], who, p) == DynamicSize(h, who, p) + (if Counts(h, e, who, p) then 1 else 0)
  {
    ReadsStep(h, e, who, p);
    AddIf(KernelReads(h, who, p), |h|, FromKernel(h, e, who));
    AddIf(ThreadReads(h, who, p), |h|, FromThread(h, e, who));
    AddIf(InputReads(h, who, p), |h|, Counts(h, e, who, p));
  }

  lemma AddIf(s: set<nat>, x: nat, b: bool)
    requires x !in s
    ensures |s + (if b then {x} else {})| == |s| + (if b then 1 else 0)
  {
  }

  lemma NothingYet(h: seq<Event>, who: nat, p: nat)
    requires p == |h|
    ensures DynamicSize(h, who, p) == KernelInput(h, who, p) == ThreadInput(h, who, p) == 0
  {
    assert KernelReads(h, who, p) == ThreadReads(h, who, p) == InputReads(h, who, p) == {};
  }
}
