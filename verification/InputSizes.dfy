module InputSizes {
  // How the two input sizes of an activation relate: the dynamic read memory size is at least
  // the read memory size of the same thread's own accesses, and exceeds it by no more than the
  // reads of values that the kernel or other threads produced.

  import opened DrmsHistory
  import Rms

  // A thread's own accesses, as the single-threaded history.
  function Own(h: seq<Event>, who: nat): seq<Rms.Access> {
    if |h| == 0 then []
    else
      var e := h[|h| - 1];
      Own(h[..|h| - 1], who) + (if e.Access? && e.who == who then [Rms.Access(e.granule, e.read)] else [])
  }

  lemma OwnStep(h: seq<Event>, e: Event, who: nat)
    ensures Own(h + [e], who) == Own(h, who) + (if e.Access? && e.who == who then [Rms.Access(e.granule, e.read)] else [])
  {
    assert (h + [e])[..|h|] == h;
  }

  // An access lies before position p of the history just when it lies before the
  // corresponding position of the thread's own one.
  lemma {:induction false} SameBound(h: seq<Event>, who: nat, g: nat, p: nat)
    requires p <= |h|
    ensures |Own(h[..p], who)| <= |Own(h, who)|
    ensures Rms.LastAccess(Own(h, who), g) < |Own(h[..p], who)| <==> LastAccess(h, who, g) < p
  {
    if p == |h| {
      assert h[..p] == h;
    } else {
      var f, e := h[..|h| - 1], h[|h| - 1];
      assert h == f + [e] && h[..p] == f[..p];
      OwnStep(f, e, who);
      SameBound(f, who, g, p);
      if e.Access? && e.who == who {
        assert Own(h, who)[..|Own(f, who)|] == Own(f, who);
      }
    }
  }

  ghost predicate Alone(h: seq<Event>, who: nat) {
    forall k :: 0 <= k < |h| ==> !ForeignWrite(h[k], who, h[k].granule)
  }

  /**
   For every history and every activation of a thread, entered at position p: the read memory
   size is a lower bound of the dynamic one, the read memory size and the reads of foreign
   values together are an upper bound, and without foreign writes both sizes are equal.
   */
  lemma {:induction false} SizesRelate(h: seq<Event>, who: nat, p: nat)
    requires p <= |h|
    ensures var rms := Rms.ReadMemorySize(Own(h, who), |Own(h[..p], who)|);
      && rms <= DynamicSize(h, who, p) <= rms + KernelInput(h, who, p) + ThreadInput(h, who, p)
      && (Alone(h, who) ==> DynamicSize(h, who, p) == rms)
  {
    hide Own, DynamicSize, KernelInput, ThreadInput, Rms.ReadMemorySize;
    if p == |h| {
      assert h[..p] == h;
      NothingYet(h, who, p);
      NothingRead(Own(h, who));
    } else {
      var f, e := h[..|h| - 1], h[|h| - 1];
      assert h == f + [e] && h[..p] == f[..p];
      SizesRelate(f, who, p);
      OwnStep(f, e, who);
      InputStep(f, e, who, p);
      SameBound(f, who, e.granule, p);
      if e.Access? && e.who == who {
        Rms.ReadMemorySizeStep(Own(f, who), Rms.Access(e.granule, e.read), |Own(f[..p], who)|);
      } else {
        assert Own(f, who) + [] == Own(f, who);
      }
      assert Alone(h, who) ==> Alone(f, who) && !Renewed(f, who, e.granule) by {
        NeverRenewed(h, who, e.granule);
      }
    }
  }

  lemma NothingRead(h: seq<Rms.Access>)
    ensures Rms.ReadMemorySize(h, |h|) == 0
  {
    assert Rms.ReadFirst(h, |h|) == {};
  }

  lemma NeverRenewed(h: seq<Event>, who: nat, g: nat)
    requires |h| > 0
    ensures Alone(h, who) ==> Alone(h[..|h| - 1], who) && !Renewed(h[..|h| - 1], who, g)
  {
  }
}
