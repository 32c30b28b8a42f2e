module Bindings {
  // Finite maps as lists of bindings in increasing key order: what a WordFM holds. Keys are
  // words compared by a function, so different words may stand for equal keys.

  import opened Common

  // --- the order of the keys ---

  type Cmp<!K> = (K, K) -> int

  // The sign of a comparison is that of a linear order of the keys, in which different
  // words may stand for equal keys.
  ghost predicate Order<K(!new)>(cmp: Cmp<K>) {
    && (forall a, b :: cmp(a, b) < 0 <==> cmp(b, a) > 0)
    && (forall a, b, c :: cmp(a, b) <= 0 && cmp(b, c) <= 0 ==> cmp(a, c) <= 0)
  }

  lemma Reflexive<K(!new)>(cmp: Cmp<K>, a: K)
    requires Order(cmp)
    ensures cmp(a, a) == 0
  {
    assert cmp(a, a) < 0 <==> cmp(a, a) > 0;
  }

  lemma Flip<K(!new)>(cmp: Cmp<K>, a: K, b: K)
    requires Order(cmp)
    ensures cmp(a, b) < 0 <==> cmp(b, a) > 0
    ensures cmp(a, b) > 0 <==> cmp(b, a) < 0
  {
    assert cmp(a, b) < 0 <==> cmp(b, a) > 0;
    assert cmp(b, a) < 0 <==> cmp(a, b) > 0;
  }

  lemma Chain<K(!new)>(cmp: Cmp<K>, a: K, b: K, c: K)
    requires Order(cmp) && cmp(a, b) <= 0 && cmp(b, c) <= 0
    ensures cmp(a, c) <= 0
    ensures cmp(a, c) == 0 ==> cmp(a, b) == 0 && cmp(b, c) == 0
  {
    Flip(cmp, a, c);
    Flip(cmp, a, b);
    Flip(cmp, b, c);
    if cmp(a, c) == 0 {
      assert cmp(c, a) <= 0;
      assert cmp(b, a) <= 0;
      assert cmp(c, b) <= 0;
    }
  }

  // --- ordered lists of bindings ---

  type Entry<K, V> = (K, V)

  ghost predicate Sorted<K, V>(cmp: Cmp<K>, es: seq<Entry<K, V>>) {
    forall i, j :: 0 <= i < j < |es| ==> cmp(es[i].0, es[j].0) < 0
  }

  function Get<K, V>(cmp: Cmp<K>, es: seq<Entry<K, V>>, k: K): Option<V> {
    if |es| == 0 then None
    else if cmp(es[0].0, k) == 0 then Some(es[0].1)
    else Get(cmp, es[1..], k)
  }

  // The list with k bound to v: an equal key keeps its place and its word.
  function Put<K, V>(cmp: Cmp<K>, es: seq<Entry<K, V>>, k: K, v: V): (r: seq<Entry<K, V>>)
  {
    if |es| == 0 then [(k, v)]
    else if cmp(es[0].0, k) > 0 then [(k, v)] + es
    else if cmp(es[0].0, k) == 0 then [(es[0].0, v)] + es[1..]
    else [es[0]] + Put(cmp, es[1..], k, v)
  }

  function Del<K, V>(cmp: Cmp<K>, es: seq<Entry<K, V>>, k: K): seq<Entry<K, V>> {
    if |es| == 0 then []
    else if cmp(es[0].0, k) == 0 then es[1..]
    else [es[0]] + Del(cmp, es[1..], k)
  }

  // --- the laws of a map ---

  // Equal keys compare alike with every other key.
  lemma Congruent<K(!new)>(cmp: Cmp<K>, a: K, b: K, k: K)
    requires Order(cmp) && cmp(a, b) == 0
    ensures cmp(a, k) == 0 <==> cmp(b, k) == 0
    ensures cmp(a, k) < 0 <==> cmp(b, k) < 0
    ensures cmp(k, a) < 0 <==> cmp(k, b) < 0
  {
    hide Order;
    Flip(cmp, a, b);
    Flip(cmp, a, k);
    Flip(cmp, b, k);
    if cmp(a, k) <= 0 {
      Chain(cmp, b, a, k);
    }
    if cmp(b, k) <= 0 {
      Chain(cmp, a, b, k);
    }
    if cmp(k, a) <= 0 {
      Chain(cmp, k, a, b);
    }
    if cmp(k, b) <= 0 {
      Chain(cmp, k, b, a);
    }
  }

  // No key equals two different keys.
  lemma DistinctKeys<K(!new)>(cmp: Cmp<K>, a: K, b: K, k: K)
    requires Order(cmp) && cmp(a, b) != 0
    ensures cmp(a, k) != 0 || cmp(b, k) != 0
  {
    if cmp(a, k) == 0 {
      Congruent(cmp, a, k, b);
      Flip(cmp, k, b);
    }
  }

  /** Binding k to v changes the answer for the keys equal to k, and for no other key. */
  lemma {:induction false} GetPut<K(!new), V>(cmp: Cmp<K>, es: seq<Entry<K, V>>, k: K, v: V, j: K)
    requires Order(cmp)
    ensures Get(cmp, Put(cmp, es, k, v), j) == if cmp(k, j) == 0 then Some(v) else Get(cmp, es, j)
  {
    if |es| > 0 {
      if cmp(es[0].0, k) == 0 {
        Congruent(cmp, es[0].0, k, j);
      } else if cmp(es[0].0, k) < 0 {
        GetPut(cmp, es[1..], k, v, j);
        DistinctKeys(cmp, es[0].0, k, j);
      }
    }
  }

  lemma {:induction false} GetAbsent<K(!new), V>(cmp: Cmp<K>, es: seq<Entry<K, V>>, k: K)
    requires forall i :: 0 <= i < |es| ==> cmp(es[i].0, k) != 0
    ensures Get(cmp, es, k) == None && Del(cmp, es, k) == es
  {
    if |es| > 0 {
      GetAbsent(cmp, es[1..], k);
    }
  }

  /** Deleting k makes every key equal to k absent, and changes no other answer. */
  lemma {:induction false} GetDel<K(!new), V>(cmp: Cmp<K>, es: seq<Entry<K, V>>, k: K, j: K)
    requires Order(cmp) && Sorted(cmp, es)
    ensures Get(cmp, Del(cmp, es, k), j) == if cmp(k, j) == 0 then None else Get(cmp, es, j)
  {
    if |es| > 0 {
      if cmp(es[0].0, k) == 0 {
        Congruent(cmp, es[0].0, k, j);
        if cmp(k, j) == 0 {
          forall i | 0 <= i < |es| - 1 ensures cmp(es[1..][i].0, j) != 0 {
            assert cmp(es[0].0, es[i + 1].0) < 0;
            DistinctKeys(cmp, es[0].0, es[i + 1].0, j);
          }
          GetAbsent(cmp, es[1..], j);
        }
      } else {
        GetDel(cmp, es[1..], k, j);
        DistinctKeys(cmp, es[0].0, k, j);
      }
    }
  }

  ghost predicate AllAbove<K, V>(cmp: Cmp<K>, k: K, es: seq<Entry<K, V>>) {
    forall i :: 0 <= i < |es| ==> cmp(k, es[i].0) < 0
  }

  // A first key above k: all keys are.
  lemma FirstAbove<K(!new), V>(cmp: Cmp<K>, es: seq<Entry<K, V>>, k: K)
    requires Order(cmp) && Sorted(cmp, es) && |es| > 0 && cmp(es[0].0, k) > 0
    ensures AllAbove(cmp, k, es)
    ensures forall i :: 0 <= i < |es| ==> cmp(es[i].0, k) > 0
  {
    hide Order;
    Flip(cmp, es[0].0, k);
    forall i | 0 <= i < |es| ensures cmp(k, es[i].0) < 0 && cmp(es[i].0, k) > 0 {
      if i > 0 {
        assert cmp(es[0].0, es[i].0) < 0;
        Chain(cmp, k, es[0].0, es[i].0);
      }
      Flip(cmp, es[i].0, k);
    }
  }

  lemma {:induction false} PutAbove<K(!new), V>(cmp: Cmp<K>, b: K, es: seq<Entry<K, V>>, k: K, v: V)
    requires AllAbove(cmp, b, es) && cmp(b, k) < 0
    ensures AllAbove(cmp, b, Put(cmp, es, k, v))
  {
    if |es| > 0 && cmp(es[0].0, k) < 0 {
      assert AllAbove(cmp, b, es[1..]);
      PutAbove(cmp, b, es[1..], k, v);
    }
  }

  lemma SortedCons<K(!new), V>(cmp: Cmp<K>, e: Entry<K, V>, es: seq<Entry<K, V>>)
    requires Sorted(cmp, es) && AllAbove(cmp, e.0, es)
    ensures Sorted(cmp, [e] + es)
  {
  }

  lemma {:induction false} PutSorted<K(!new), V>(cmp: Cmp<K>, es: seq<Entry<K, V>>, k: K, v: V)
    requires Order(cmp) && Sorted(cmp, es)
    ensures Sorted(cmp, Put(cmp, es, k, v))
  {
    if |es| > 0 {
      assert AllAbove(cmp, es[0].0, es[1..]);
      if cmp(es[0].0, k) > 0 {
        FirstAbove(cmp, es, k);
        SortedCons(cmp, (k, v), es);
      } else if cmp(es[0].0, k) == 0 {
        SortedCons(cmp, (es[0].0, v), es[1..]);
      } else {
        PutSorted(cmp, es[1..], k, v);
        PutAbove(cmp, es[0].0, es[1..], k, v);
        SortedCons(cmp, es[0], Put(cmp, es[1..], k, v));
      }
    }
  }

  lemma {:induction false} DelAbove<K(!new), V>(cmp: Cmp<K>, b: K, es: seq<Entry<K, V>>, k: K)
    requires AllAbove(cmp, b, es)
    ensures AllAbove(cmp, b, Del(cmp, es, k))
  {
    if |es| > 0 {
      assert AllAbove(cmp, b, es[1..]);
      DelAbove(cmp, b, es[1..], k);
    }
  }

  lemma {:induction false} DelSorted<K(!new), V>(cmp: Cmp<K>, es: seq<Entry<K, V>>, k: K)
    requires Order(cmp) && Sorted(cmp, es)
    ensures Sorted(cmp, Del(cmp, es, k))
  {
    if |es| > 0 && cmp(es[0].0, k) != 0 {
      assert AllAbove(cmp, es[0].0, es[1..]);
      DelSorted(cmp, es[1..], k);
      DelAbove(cmp, es[0].0, es[1..], k);
      SortedCons(cmp, es[0], Del(cmp, es[1..], k));
    }
  }

  /** One binding more for a new key, one less for a deleted one, the same number otherwise. */
  lemma {:induction false} Sizes<K(!new), V>(cmp: Cmp<K>, es: seq<Entry<K, V>>, k: K, v: V)
    requires Order(cmp) && Sorted(cmp, es)
    ensures |Put(cmp, es, k, v)| == |es| + (if Get(cmp, es, k) == None then 1 else 0)
    ensures |Del(cmp, es, k)| == |es| - (if Get(cmp, es, k) == None then 0 else 1)
  {
    if |es| > 0 {
      if cmp(es[0].0, k) > 0 {
        FirstAbove(cmp, es, k);
        GetAbsent(cmp, es, k);
      } else {
        Sizes(cmp, es[1..], k, v);
      }
    }
  }

  // --- splitting a list at an entry ---

  lemma {:induction false} PutLeft<K(!new), V>(cmp: Cmp<K>, a: seq<Entry<K, V>>, e: Entry<K, V>, b: seq<Entry<K, V>>, k: K, v: V)
    requires cmp(e.0, k) > 0
    ensures Put(cmp, a + [e] + b, k, v) == Put(cmp, a, k, v) + [e] + b
  {
    if |a| == 0 {
      assert a + [e] + b == [e] + b;
    } else {
      assert (a + [e] + b)[1..] == a[1..] + [e] + b;
      PutLeft(cmp, a[1..], e, b, k, v);
    }
  }

  ghost predicate AllBelow<K, V>(cmp: Cmp<K>, es: seq<Entry<K, V>>, k: K) {
    forall i :: 0 <= i < |es| ==> cmp(es[i].0, k) < 0
  }

  lemma {:induction false} PutAfter<K(!new), V>(cmp: Cmp<K>, a: seq<Entry<K, V>>, b: seq<Entry<K, V>>, k: K, v: V)
    requires AllBelow(cmp, a, k)
    ensures Put(cmp, a + b, k, v) == a + Put(cmp, b, k, v)
  {
    if |a| == 0 {
      assert a + b == b;
    } else {
      assert (a + b)[1..] == a[1..] + b;
      PutAfter(cmp, a[1..], b, k, v);
    }
  }

  lemma {:induction false} DelAfter<K(!new), V>(cmp: Cmp<K>, a: seq<Entry<K, V>>, b: seq<Entry<K, V>>, k: K)
    requires AllBelow(cmp, a, k)
    ensures Del(cmp, a + b, k) == a + Del(cmp, b, k)
    ensures Get(cmp, a + b, k) == Get(cmp, b, k)
  {
    if |a| == 0 {
      assert a + b == b;
    } else {
      assert cmp(a[0].0, k) < 0 && (a + b)[0] == a[0];
      assert (a + b)[1..] == a[1..] + b;
      DelAfter(cmp, a[1..], b, k);
      assert [a[0]] + (a[1..] + Del(cmp, b, k)) == a + Del(cmp, b, k);
    }
  }

  lemma {:induction false} BeforeSuffix<K(!new), V>(cmp: Cmp<K>, a: seq<Entry<K, V>>, b: seq<Entry<K, V>>, k: K)
    requires forall i :: 0 <= i < |b| ==> cmp(b[i].0, k) != 0
    ensures Del(cmp, a + b, k) == Del(cmp, a, k) + b
    ensures Get(cmp, a + b, k) == Get(cmp, a, k)
  {
    if |a| == 0 {
      assert a + b == b;
      GetAbsent(cmp, b, k);
    } else {
      assert (a + b)[1..] == a[1..] + b;
      BeforeSuffix(cmp, a[1..], b, k);
    }
  }

  // The entries before one whose key is at most k are all below k.
  lemma BelowKey<K(!new), V>(cmp: Cmp<K>, a: seq<Entry<K, V>>, e: Entry<K, V>, b: seq<Entry<K, V>>, k: K)
    requires Order(cmp) && Sorted(cmp, a + [e] + b) && cmp(e.0, k) <= 0
    ensures AllBelow(cmp, a, k)
  {
    var s := a + [e] + b;
    forall i | 0 <= i < |a| ensures cmp(a[i].0, k) < 0 {
      assert s[i] == a[i] && s[|a|] == e;
      Chain(cmp, s[i].0, s[|a|].0, k);
    }
  }

  // The entries after one whose key is at least k are all above k.
  lemma AboveKey<K(!new), V>(cmp: Cmp<K>, a: seq<Entry<K, V>>, e: Entry<K, V>, b: seq<Entry<K, V>>, k: K)
    requires Order(cmp) && Sorted(cmp, a + [e] + b) && cmp(e.0, k) >= 0
    ensures forall i :: 0 <= i < |b| ==> cmp(b[i].0, k) > 0
  {
    var s := a + [e] + b;
    Flip(cmp, e.0, k);
    forall i | 0 <= i < |b| ensures cmp(b[i].0, k) > 0 {
      assert s[|a| + 1 + i] == b[i] && s[|a|] == e;
      Chain(cmp, k, s[|a|].0, s[|a| + 1 + i].0);
      Flip(cmp, k, b[i].0);
    }
  }

  lemma SortedParts<K(!new), V>(cmp: Cmp<K>, a: seq<Entry<K, V>>, e: Entry<K, V>, b: seq<Entry<K, V>>)
    requires Sorted(cmp, a + [e] + b)
    ensures Sorted(cmp, a) && Sorted(cmp, b)
  {
    var s := a + [e] + b;
    assert forall i :: 0 <= i < |a| ==> s[i] == a[i];
    assert forall i :: 0 <= i < |b| ==> s[|a| + 1 + i] == b[i];
  }

  /** The three operations on a list split at an entry go by the comparison with its key. */
  lemma SplitAtEntry<K(!new), V>(cmp: Cmp<K>, l: seq<Entry<K, V>>, e: Entry<K, V>, r: seq<Entry<K, V>>, k: K, v: V)
    requires Order(cmp) && Sorted(cmp, l + [e] + r)
    ensures Put(cmp, l + [e] + r, k, v)
      == if cmp(e.0, k) > 0 then Put(cmp, l, k, v) + [e] + r
         else if cmp(e.0, k) < 0 then l + [e] + Put(cmp, r, k, v)
         else l + [(e.0, v)] + r
    ensures Get(cmp, l + [e] + r, k)
      == if cmp(e.0, k) > 0 then Get(cmp, l, k)
         else if cmp(e.0, k) < 0 then Get(cmp, r, k)
         else Some(e.1)
    ensures Del(cmp, l + [e] + r, k)
      == if cmp(e.0, k) > 0 then Del(cmp, l, k) + [e] + r
         else if cmp(e.0, k) < 0 then l + [e] + Del(cmp, r, k)
         else l + r
  {
    hide Order, Sorted, AllBelow;
    var s := [e] + r;
    assert l + [e] + r == l + s;
    assert s[0] == e && s[1..] == r;
    if cmp(e.0, k) > 0 {
      PutLeft(cmp, l, e, r, k, v);
      AboveKey(cmp, l, e, r, k);
      BeforeSuffix(cmp, l, s, k);
      assert Del(cmp, l, k) + s == Del(cmp, l, k) + [e] + r;
    } else {
      BelowKey(cmp, l, e, r, k);
      PutAfter(cmp, l, s, k, v);
      DelAfter(cmp, l, s, k);
      if cmp(e.0, k) < 0 {
        assert Put(cmp, s, k, v) == [e] + Put(cmp, r, k, v);
        assert l + ([e] + Put(cmp, r, k, v)) == l + [e] + Put(cmp, r, k, v);
        assert Del(cmp, s, k) == [e] + Del(cmp, r, k);
        assert l + ([e] + Del(cmp, r, k)) == l + [e] + Del(cmp, r, k);
      } else {
        assert Put(cmp, s, k, v) == [(e.0, v)] + r;
        assert l + ([(e.0, v)] + r) == l + [(e.0, v)] + r;
      }
    }
  }
}
