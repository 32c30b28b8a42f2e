/**
 The queue of memory events of a superblock. A read directly followed by a write of the
 same size at the same address becomes one modify; the queue is emitted when it is full
 or flushed.
 */
module EventQueues {
  import opened Common

  const N_EVENTS: nat := 4

  // Addresses are atoms of the intermediate code, named by numbers; equal atoms have
  // equal values throughout a superblock.
  datatype Event = Ir(atom: nat, size: nat) | Dr(atom: nat, size: nat) | Dw(atom: nat, size: nat) | Dm(atom: nat, size: nat)

  // A call of the access handler.
  datatype Call = Call(kind: AccessType, atom: nat, size: nat)

  function CallsOf(e: Event): seq<Call> {
    match e
    case Ir(_, _) => []
    case Dr(a, n) => [Call(LOAD, a, n)]
    case Dw(a, n) => [Call(STORE, a, n)]
    case Dm(a, n) => [Call(MODIFY, a, n)]
  }

  function Emitted(es: seq<Event>): seq<Call> {
    if |es| == 0 then [] else Emitted(es[..|es| - 1]) + CallsOf(es[|es| - 1])
  }

  // Every modify taken apart into a load and a store.
  function Expanded(cs: seq<Call>): seq<Call> {
    if |cs| == 0 then []
    else
      var c := cs[|cs| - 1];
      Expanded(cs[..|cs| - 1]) + (if c.kind == MODIFY then [Call(LOAD, c.atom, c.size), Call(STORE, c.atom, c.size)] else [c])
  }

  lemma {:induction false} ExpandedAppend(a: seq<Call>, b: seq<Call>)
    ensures Expanded(a + b) == Expanded(a) + Expanded(b)
  {
    if |b| == 0 {
      assert a + b == a;
    } else {
      assert (a + b)[..|a + b| - 1] == a + b[..|b| - 1];
      ExpandedAppend(a, b[..|b| - 1]);
    }
  }

  lemma {:induction false} EmittedAppend(a: seq<Event>, e: Event)
    ensures Emitted(a + [e]) == Emitted(a) + CallsOf(e)
    ensures Expanded(Emitted(a + [e])) == Expanded(Emitted(a)) + Expanded(CallsOf(e))
  {
    assert (a + [e])[..|a|] == a;
    ExpandedAppend(Emitted(a), CallsOf(e));
  }

  lemma SingleExpanded(e: Event)
    requires !e.Dm?
    ensures Expanded(CallsOf(e)) == CallsOf(e)
  {
    if !e.Ir? {
      assert CallsOf(e)[..0] == [];
    }
  }

  lemma ModifyExpanded(atom: nat, size: nat)
    ensures Expanded(CallsOf(Dr(atom, size))) == [Call(LOAD, atom, size)]
    ensures Expanded(CallsOf(Dm(atom, size))) == [Call(LOAD, atom, size)] + CallsOf(Dw(atom, size))
  {
    assert CallsOf(Dr(atom, size))[..0] == [];
    assert CallsOf(Dm(atom, size))[..0] == [];
  }

  // Taken apart, what was and will be emitted is the stream itself.
  ghost predicate Faithful(calls: seq<Call>, events: seq<Event>, stream: seq<Event>) {
    Expanded(calls) + Expanded(Emitted(events)) == Emitted(stream)
  }

  lemma Associative(a: seq<Call>, b: seq<Call>, c: seq<Call>)
    ensures a + (b + c) == (a + b) + c
  {
  }

  lemma AddFaithful(calls: seq<Call>, events: seq<Event>, stream: seq<Event>, e: Event)
    requires Faithful(calls, events, stream) && !e.Dm?
    ensures Faithful(calls, events + [e], stream + [e])
  {
    hide Expanded, Emitted, CallsOf;
    EmittedAppend(events, e);
    EmittedAppend(stream, e);
    SingleExpanded(e);
    Associative(Expanded(calls), Expanded(Emitted(events)), CallsOf(e));
  }

  lemma FlushFaithful(calls: seq<Call>, events: seq<Event>, stream: seq<Event>)
    requires Faithful(calls, events, stream)
    ensures Faithful(calls + Emitted(events), [], stream)
  {
    ExpandedAppend(calls, Emitted(events));
  }

  lemma MergeFaithful(calls: seq<Call>, before: seq<Event>, stream: seq<Event>, atom: nat, size: nat)
    requires Faithful(calls, before + [Dr(atom, size)], stream)
    ensures Faithful(calls, before + [Dm(atom, size)], stream + [Dw(atom, size)])
  {
    hide Expanded, Emitted, CallsOf;
    EmittedAppend(before, Dr(atom, size));
    EmittedAppend(before, Dm(atom, size));
    EmittedAppend(stream, Dw(atom, size));
    ModifyExpanded(atom, size);
    var c, x, l, d := Expanded(calls), Expanded(Emitted(before)), [Call(LOAD, atom, size)], CallsOf(Dw(atom, size));
    Associative(c, x + l, d);
    Associative(x, l, d);
  }

  lemma NothingEmitted()
    ensures Emitted([]) == []
  {
  }

  lemma EmittedOneMore(events: seq<Event>, i: nat)
    requires i < |events|
    ensures Emitted(events[..i + 1]) == Emitted(events[..i]) + CallsOf(events[i])
    ensures events[i].Ir? ==> Emitted(events[..i + 1]) == Emitted(events[..i])
  {
    hide Emitted;
    EmittedAppend(events[..i], events[i]);
    assert events[..i] + [events[i]] == events[..i + 1];
    assert events[i].Ir? ==> CallsOf(events[i]) == [] && Emitted(events[..i]) + [] == Emitted(events[..i]);
  }

  class EventQueue {
    // at most N_EVENTS events not yet emitted, and the calls emitted so far
    var events: seq<Event>
    var calls: seq<Call>
    // all events added, as they were added
    ghost var stream: seq<Event>

    ghost predicate Valid()
      reads this
    {
      && |events| <= N_EVENTS
      && (forall i :: 0 <= i < |stream| ==> !stream[i].Dm?)
      && Faithful(calls, events, stream)
    }

    constructor ()
      ensures Valid() && stream == [] && calls == [] && events == []
    {
      events, calls, stream := [], [], [];
    }

    /** flush_events: emits one call for every queued event that is a data access. */
    method Flush()
      requires Valid()
      modifies this
      ensures Valid() && stream == old(stream) && events == []
      ensures calls == old(calls) + Emitted(old(events))
    {
      hide Faithful, Emitted, CallsOf;
      FlushFaithful(calls, events, stream);
      NothingEmitted();
      var i := 0;
      while i < |events|
        invariant 0 <= i <= |events| && events == old(events) && stream == old(stream)
        invariant calls == old(calls) + Emitted(events[..i])
      {
        var e := events[i];
        EmittedOneMore(events, i);
        if !e.Ir? {
          Associative(old(calls), Emitted(events[..i]), CallsOf(e));
          calls := calls + CallsOf(e);
        }
        i := i + 1;
      }
      assert events[..|events|] == events;
      events := [];
    }

    /** The part that addEvent_Ir, addEvent_Dr and addEvent_Dw share. */
    method Add(e: Event)
      requires Valid() && !e.Dm?
      modifies this
      ensures Valid() && stream == old(stream) + [e]
      ensures events == (if |old(events)| == N_EVENTS then [e] else old(events) + [e])
      ensures calls == (if |old(events)| == N_EVENTS then old(calls) + Emitted(old(events)) else old(calls))
    {
      hide Faithful;
      if |events| == N_EVENTS {
        Flush();
      }
      AddFaithful(calls, events, stream, e);
      events := events + [e];
      stream := stream + [e];
    }

    method AddIr(atom: nat, size: nat)
      requires Valid()
      modifies this
      ensures Valid() && stream == old(stream) + [Ir(atom, size)]
      ensures |events| > 0 && events[|events| - 1] == Ir(atom, size)
    {
      Add(Ir(atom, size));
    }

    method AddDr(atom: nat, size: nat)
      requires Valid()
      modifies this
      ensures Valid() && stream == old(stream) + [Dr(atom, size)]
      ensures |events| > 0 && events[|events| - 1] == Dr(atom, size)
    {
      Add(Dr(atom, size));
    }

    method AddDw(atom: nat, size: nat)
      requires Valid()
      modifies this
      ensures Valid() && stream == old(stream) + [Dw(atom, size)]
      ensures var n := |old(events)|;
        if n > 0 && old(events)[n - 1] == Dr(atom, size)
        then events == old(events)[..n - 1] + [Dm(atom, size)] && calls == old(calls)
        else |events| > 0 && events[|events| - 1] == Dw(atom, size)
    {
      hide Faithful;
      if |events| > 0 {
        var last := |events| - 1;
        var lastEvt := events[last];
        if lastEvt.Dr? && lastEvt.size == size && lastEvt.atom == atom {
          assert events == events[..last] + [Dr(atom, size)];
          MergeFaithful(calls, events[..last], stream, atom, size);
          events := events[last := Dm(atom, size)];
          stream := stream + [Dw(atom, size)];
          assert events == old(events)[..last] + [Dm(atom, size)];
          return;
        }
      }
      Add(Dw(atom, size));
    }
  }
}
