module DrmsOverflow {
  // Collecting the live activation identifiers when the global counter ran out: a merge of
  // all call stacks from their tops downwards, and the search among the collected
  // identifiers.

  import opened ActivationStack
  import opened DrmsCompression

  datatype Merged = NullActivation | Merged(active: seq<nat>, stacks: seq<seq<Activation>>)

  // --- what the stacks hold ---

  function Depths(stacks: seq<seq<Activation>>): (d: seq<int>)
    ensures |d| == |stacks|
  {
    seq(|stacks|, t requires 0 <= t < |stacks| => |stacks[t]|)
  }

  ghost function StackIds(stacks: seq<seq<Activation>>): set<nat> {
    set t, j | 0 <= t < |stacks| && 0 <= j < |stacks[t]| :: stacks[t][j].id
  }

  ghost predicate AllPositive(stacks: seq<seq<Activation>>) {
    forall t, j :: 0 <= t < |stacks| && 0 <= j < |stacks[t]| ==> stacks[t][j].id > 0
  }

  // Identifiers grow along every stack and no two stacks share one.
  ghost predicate Orderly(stacks: seq<seq<Activation>>) {
    && (forall t :: 0 <= t < |stacks| ==> Increasing(stacks[t]))
    && forall t, u, j, k ::
      0 <= t < |stacks| && 0 <= u < |stacks| && t != u && 0 <= j < |stacks[t]| && 0 <= k < |stacks[u]| ==>
      stacks[t][j].id != stacks[u][k].id
  }

  // Zero and the identifiers, in strictly increasing order.
  ghost predicate ActiveList(active: seq<nat>, ids: set<nat>) {
    && |active| == |ids| + 1
    && active[0] == 0
    && (forall x, y :: 0 <= x < y < |active| ==> active[x] < active[y])
    && forall v :: v in ids <==> v in active[1..]
  }

  // --- the merge ---

  ghost predicate Bounds(stacks: seq<seq<Activation>>, d: seq<int>) {
    |d| == |stacks| && forall t :: 0 <= t < |stacks| ==> 0 <= d[t] <= |stacks[t]|
  }

  /** The thread whose topmost remaining activation has the largest identifier. */
  method FindMax(ghost was: seq<seq<Activation>>, stacks: seq<seq<Activation>>, d: seq<int>) returns (max: nat, maxInd: nat)
    requires Bounds(was, d) && |stacks| == |was|
    requires forall t :: 0 <= t < |was| && d[t] > 0 ==> d[t] <= |stacks[t]| && stacks[t][d[t] - 1] == was[t][d[t] - 1]
    ensures max > 0 ==> maxInd < |d| && d[maxInd] > 0 && was[maxInd][d[maxInd] - 1].id == max
    ensures forall t :: 0 <= t < |d| && d[t] > 0 ==> was[t][d[t] - 1].id <= max
  {
    max, maxInd := 0, 0;
    for j := 0 to |d|
      invariant max > 0 ==> maxInd < |d| && d[maxInd] > 0 && was[maxInd][d[maxInd] - 1].id == max
      invariant forall t :: 0 <= t < j && d[t] > 0 ==> was[t][d[t] - 1].id <= max
    {
      if d[j] > 0 {
        var id := stacks[j][d[j] - 1].id;
        if max < id {
          max, maxInd := id, j;
        }
      }
    }
  }

  // Positions after i of `active` are filled, in increasing order, with identifiers of
  // activations already taken, which exceed those that remain.
  ghost predicate Filled(was: seq<seq<Activation>>, d: seq<int>, active: seq<nat>, i: nat) {
    && Bounds(was, d) && i < |active|
    && (forall x :: i < x < |active| ==> active[x] in StackIds(was))
    && (forall x, y :: i < x < y < |active| ==> active[x] < active[y])
    && (forall x, t :: i < x < |active| && 0 <= t < |was| && d[t] > 0 ==> was[t][d[t] - 1].id < active[x])
  }

  // The activations at depth d[t] and above are taken: their new identifiers are three
  // times their positions. The others are as they were.
  ghost predicate Taken(was: seq<seq<Activation>>, now: seq<seq<Activation>>, d: seq<int>, active: seq<nat>, i: nat) {
    && Bounds(was, d) && |now| == |was|
    && (forall t :: 0 <= t < |was| ==> |now[t]| == |was[t]|)
    && (forall t, j :: 0 <= t < |was| && 0 <= j < d[t] ==> now[t][j] == was[t][j])
    && (forall t, j :: 0 <= t < |was| && d[t] <= j < |was[t]| ==> TakenAt(was[t][j], now[t][j], active, i))
  }

  ghost predicate TakenAt(was: Activation, now: Activation, active: seq<nat>, i: nat) {
    exists x :: i < x < |active| && active[x] == was.id && now == was.(id := 3 * x)
  }

  lemma TakenAtStays(was: Activation, now: Activation, active: seq<nat>, i: nat, v: nat)
    requires 0 < i < |active| && TakenAt(was, now, active, i)
    ensures TakenAt(was, now, active[i := v], i - 1)
  {
    var x :| i < x < |active| && active[x] == was.id && now == was.(id := 3 * x);
    assert active[i := v][x] == was.id;
  }

  lemma TakenStep(was: seq<seq<Activation>>, now: seq<seq<Activation>>, d: seq<int>, active: seq<nat>, i: nat, m: nat)
    requires Taken(was, now, d, active, i) && 0 < i < |active|
    requires m < |was| && d[m] > 0
    ensures var k := d[m] - 1;
      Taken(was, now[m := now[m][k := now[m][k].(id := 3 * i)]], d[m := k], active[i := was[m][k].id], i - 1)
  {
    var k := d[m] - 1;
    var now', d', active' := now[m := now[m][k := now[m][k].(id := 3 * i)]], d[m := k], active[i := was[m][k].id];
    assert active'[i] == was[m][k].id && now'[m][k] == was[m][k].(id := 3 * i);
    assert TakenAt(was[m][k], now'[m][k], active', i - 1);
    forall t, j | 0 <= t < |was| && d'[t] <= j < |was[t]|
      ensures TakenAt(was[t][j], now'[t][j], active', i - 1)
    {
      if !(t == m && j == k) {
        assert now'[t][j] == now[t][j];
        TakenAtStays(was[t][j], now[t][j], active, i, was[m][k].id);
      }
    }
  }

  lemma FilledStep(was: seq<seq<Activation>>, d: seq<int>, active: seq<nat>, i: nat, m: nat)
    requires Orderly(was) && Filled(was, d, active, i) && i > 0
    requires m < |was| && d[m] > 0
    requires forall t :: 0 <= t < |was| && d[t] > 0 ==> was[t][d[t] - 1].id <= was[m][d[m] - 1].id
    ensures var k := d[m] - 1; Filled(was, d[m := k], active[i := was[m][k].id], i - 1)
  {
    var k := d[m] - 1;
    assert was[m][k].id in StackIds(was);
    assert Increasing(was[m]);
    hide StackIds;
  }

  // --- ranks in a sorted list ---

  ghost function Elements(s: seq<nat>): set<nat> {
    set v | v in s
  }

  lemma {:induction false} DistinctSize(s: seq<nat>)
    requires forall x, y :: 0 <= x < y < |s| ==> s[x] < s[y]
    ensures |Elements(s)| == |s|
  {
    if |s| > 0 {
      var t, v := s[..|s| - 1], s[|s| - 1];
      DistinctSize(t);
      assert s == t + [v];
      assert v !in t;
      assert Elements(s) == Elements(t) + {v};
    }
  }

  // The rank of a value is the greatest index whose entry is at most the value.
  lemma IndexIsRank(active: seq<nat>, ids: set<nat>, x: nat, v: nat)
    requires ActiveList(active, ids) && x < |active| && active[x] <= v
    requires x + 1 < |active| ==> v < active[x + 1]
    ensures Rank(ids, v) == x
  {
    hide ActiveList;
    var t := active[1..x + 1];
    ActiveOrder(active, ids);
    DistinctSize(t);
    var below := set y | y in ids && y <= v;
    forall y ensures y in below <==> y in t {
      BelowIsPrefix(active, ids, x, v, y);
    }
    assert below == Elements(t);
  }

  lemma ActiveOrder(active: seq<nat>, ids: set<nat>)
    requires ActiveList(active, ids)
    ensures forall x, y :: 0 <= x < y < |active| ==> active[x] < active[y]
  {
  }

  lemma BelowIsPrefix(active: seq<nat>, ids: set<nat>, x: nat, v: nat, y: int)
    requires ActiveList(active, ids) && x < |active| && active[x] <= v
    requires x + 1 < |active| ==> v < active[x + 1]
    ensures y in active[1..x + 1] <==> y >= 0 && y in ids && y <= v
  {
    var t := active[1..x + 1];
    if y >= 0 && y in ids && y <= v {
      var k :| 0 <= k < |active[1..]| && active[1..][k] == y;
      NotBeyond(active, x, v, k + 1);
      assert t[k] == y;
    }
    if y in t {
      var k :| 0 <= k < |t| && t[k] == y;
      assert active[1..][k] == y;
      assert k + 1 < x ==> active[k + 1] < active[x];
    }
  }

  lemma NotBeyond(active: seq<nat>, x: nat, v: nat, k: nat)
    requires forall y, z :: 0 <= y < z < |active| ==> active[y] < active[z]
    requires x < |active| && k < |active| && active[k] <= v
    requires x + 1 < |active| ==> v < active[x + 1]
    ensures k <= x
  {
  }

  lemma TakenId(was: seq<seq<Activation>>, now: seq<seq<Activation>>, d: seq<int>, active: seq<nat>, v: int)
    requires Taken(was, now, d, active, 0) && (forall t :: 0 <= t < |was| ==> d[t] == 0) && |active| > 0
    requires v in StackIds(was)
    ensures v in active[1..]
  {
    var t, j :| 0 <= t < |was| && 0 <= j < |was[t]| && was[t][j].id == v;
    assert TakenAt(was[t][j], now[t][j], active, 0);
    var x :| 0 < x < |active| && active[x] == v;
    assert active[1..][x - 1] == v;
  }

  lemma TakenList(was: seq<seq<Activation>>, now: seq<seq<Activation>>, d: seq<int>, active: seq<nat>)
    requires Taken(was, now, d, active, 0) && Filled(was, d, active, 0) && active[0] == 0 && AllPositive(was)
    requires forall t :: 0 <= t < |was| ==> d[t] == 0
    ensures ActiveList(active, StackIds(was))
  {
    hide Taken;
    var ids := StackIds(was);
    forall v ensures v in ids <==> v in active[1..] {
      if v in ids { TakenId(was, now, d, active, v); }
    }
    forall x | 0 < x < |active| ensures active[x] > 0 {
      var t, j :| 0 <= t < |was| && 0 <= j < |was[t]| && was[t][j].id == active[x];
    }
    DistinctSize(active[1..]);
    assert ids == Elements(active[1..]);
  }

  lemma TakenFrame(active: seq<nat>, ids: set<nat>, was: Activation, now: Activation)
    requires ActiveList(active, ids) && TakenAt(was, now, active, 0)
    ensures now == was.(id := 3 * Rank(ids, was.id))
  {
    var x :| 0 < x < |active| && active[x] == was.id && now == was.(id := 3 * x);
    IndexIsRank(active, ids, x, was.id);
  }

  lemma TakenAll(was: seq<seq<Activation>>, now: seq<seq<Activation>>, d: seq<int>, active: seq<nat>)
    requires Taken(was, now, d, active, 0) && Filled(was, d, active, 0) && active[0] == 0 && AllPositive(was)
    requires forall t :: 0 <= t < |was| ==> d[t] == 0
    ensures ActiveList(active, StackIds(was))
    ensures forall t :: 0 <= t < |was| ==> now[t] == Renumbered(StackIds(was), was[t])
  {
    hide ActiveList, StackIds, TakenAt, Filled, Rank, AllPositive;
    TakenList(was, now, d, active);
    forall t | 0 <= t < |was| ensures now[t] == Renumbered(StackIds(was), was[t]) {
      forall j | 0 <= j < |was[t]| ensures now[t][j] == Renumbered(StackIds(was), was[t])[j] {
        TakenFrame(active, StackIds(was), was[t][j], now[t][j]);
      }
    }
  }

  lemma {:induction false} NonZeroSum(d: seq<int>, i: nat)
    requires i <= |d| && forall t :: i <= t < |d| ==> d[t] >= 0
    ensures Suffix(d, i) >= 0
    ensures Suffix(d, i) == 0 <==> forall t :: i <= t < |d| ==> d[t] == 0
    decreases |d| - i
  {
    if i < |d| { NonZeroSum(d, i + 1); }
  }

  lemma NothingTaken(was: seq<seq<Activation>>, active: seq<nat>)
    requires |active| > 0 && |active| == Suffix(Depths(was), 0) + 1
    ensures Taken(was, was, Depths(was), active, |active| - 1)
    ensures Filled(was, Depths(was), active, |active| - 1)
  {
  }

  // What the loop needs to know of `Taken`.
  lemma TakenTops(was: seq<seq<Activation>>, now: seq<seq<Activation>>, d: seq<int>, active: seq<nat>, i: nat)
    requires Taken(was, now, d, active, i)
    ensures Bounds(was, d) && |now| == |was|
    ensures forall t :: 0 <= t < |was| && d[t] > 0 ==> d[t] <= |now[t]| && now[t][d[t] - 1] == was[t][d[t] - 1]
  {
  }

  lemma TakenShape(was: seq<seq<Activation>>, now: seq<seq<Activation>>, d: seq<int>, active: seq<nat>, i: nat, m: nat)
    requires Taken(was, now, d, active, i) && m < |was| && d[m] > 0
    ensures |now| == |was| && |now[m]| == |was[m]| && d[m] <= |was[m]|
    ensures now[m][d[m] - 1] == was[m][d[m] - 1]
  {
  }

  /** The merge of overflow_handler_drms: fills active_ts from its end and renumbers. */
  method MergeStacks(was: seq<seq<Activation>>) returns (r: Merged)
    ensures r.NullActivation? <==> !AllPositive(was)
    ensures AllPositive(was) && Orderly(was) ==>
      && ActiveList(r.active, StackIds(was))
      && |r.stacks| == |was|
      && forall t :: 0 <= t < |was| ==> r.stacks[t] == Renumbered(StackIds(was), was[t])
  {
    hide Taken, Filled, Orderly, StackIds, ActiveList, Renumbered;
    var d: seq<int> := Depths(was);
    var sum := 0;
    for t := |was| downto 0
      invariant sum == Suffix(d, t)
    {
      sum := sum + |was[t]|;
    }
    NonZeroSum(d, 0);
    var active: seq<nat> := seq(sum + 1, _ => 0);
    var stacks := was;
    var i := sum;
    NothingTaken(was, active);
    while i > 0
      invariant 0 <= i < |active| && Bounds(was, d) && Suffix(d, 0) == i && active[0] == 0
      invariant Taken(was, stacks, d, active, i)
      invariant forall t, j :: 0 <= t < |was| && d[t] <= j < |was[t]| ==> was[t][j].id > 0
      invariant Orderly(was) ==> Filled(was, d, active, i)
    {
      TakenTops(was, stacks, d, active, i);
      var max, m := FindMax(was, stacks, d);
      NonZeroSum(d, 0);
      if max == 0 {
        var t :| 0 <= t < |d| && d[t] != 0;
        assert was[t][d[t] - 1].id == 0;
        return NullActivation;
      }
      TakenShape(was, stacks, d, active, i, m);
      TakenStep(was, stacks, d, active, i, m);
      if Orderly(was) { FilledStep(was, d, active, i, m); }
      var k := d[m] - 1;
      SuffixUpdate(d, m, k, 0);
      active := active[i := max];
      d := d[m := k];
      stacks := stacks[m := stacks[m][k := stacks[m][k].(id := 3 * i)]];
      i := i - 1;
    }
    NonZeroSum(d, 0);
    TakenTops(was, stacks, d, active, 0);
    if Orderly(was) { TakenAll(was, stacks, d, active); }
    return Merged(active, stacks);
  }

  // --- the search ---

  /** binary_search: the greatest index below `size` whose entry is at most ts. */
  method BinarySearch(array_: seq<nat>, init: nat, size: nat, ts: nat) returns (r: nat)
    requires init < size <= |array_| && array_[init] <= ts
    requires forall x, y :: 0 <= x < y < |array_| ==> array_[x] < array_[y]
    ensures r < size && array_[r] <= ts
    ensures r + 1 < size ==> ts < array_[r + 1]
  {
    if size == 1 { return 0; }
    if array_[1] > ts { return 0; }
    if array_[size - 1] <= ts { return size - 1; }
    var min: int, max: int := init, size - 1;
    while true
      invariant init <= min <= max < size
      invariant array_[min] <= ts
      invariant max + 1 < size ==> ts < array_[max + 1]
      invariant ts < array_[size - 1]
      decreases max - min
    {
      var index := (min + max) / 2;
      if array_[index] == ts {
        return index;
      } else if array_[index] > ts {
        max := index - 1;
      } else {
        if array_[index + 1] > ts {
          return index;
        }
        min := index + 1;
      }
    }
  }
}
