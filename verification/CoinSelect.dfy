/**
 Coin picking (lij/lij-core/src/coin_select.rs): the smallest single coin that covers, else
 largest first. Proved optimal against sets of coins, for an arbitrary `need(n)`.
 */
module CoinSelect {
  import opened Prelude

  const U64_MAX: nat := 0xFFFF_FFFF_FFFF_FFFF

  type u64 = x: int | 0 <= x <= U64_MAX

  function SaturatingAdd(a: u64, b: u64): u64 {
    if a + b <= U64_MAX then a + b else U64_MAX
  }

  // ── Sets of coins ────────────────────────────────────────────────────────

  /** The value of the coins of `s` below index `n`. */
  ghost function TotalUpTo(values: seq<nat>, s: set<nat>, n: nat): nat
    requires n <= |values|
  {
    if n == 0 then 0
    else TotalUpTo(values, s, n - 1) + (if n - 1 in s then values[n - 1] else 0)
  }

  ghost function Total(values: seq<nat>, s: set<nat>): nat {
    TotalUpTo(values, s, |values|)
  }

  ghost predicate Coins(values: seq<nat>, s: set<nat>) {
    forall i :: i in s ==> i < |values|
  }

  /** A non-empty set of coins that carries what a transaction with that many inputs needs. */
  ghost predicate Covers(values: seq<nat>, need: nat -> nat, s: set<nat>) {
    s != {} && Coins(values, s) && Total(values, s) >= need(|s|)
  }

  lemma {:induction false} TotalUpToRemove(values: seq<nat>, s: set<nat>, n: nat, y: nat)
    requires n <= |values| && y in s
    ensures y < n ==> TotalUpTo(values, s, n) == values[y] + TotalUpTo(values, s - {y}, n)
    ensures y >= n ==> TotalUpTo(values, s, n) == TotalUpTo(values, s - {y}, n)
  {
    if n > 0 {
      TotalUpToRemove(values, s, n - 1, y);
    }
  }

  lemma TotalRemove(values: seq<nat>, s: set<nat>, y: nat)
    requires Coins(values, s) && y in s
    ensures Total(values, s) == values[y] + Total(values, s - {y})
  {
    TotalUpToRemove(values, s, |values|, y);
  }

  lemma {:induction false} TotalEmptyUpTo(values: seq<nat>, n: nat)
    requires n <= |values|
    ensures TotalUpTo(values, {}, n) == 0
  {
    if n > 0 {
      TotalEmptyUpTo(values, n - 1);
    }
  }

  lemma {:induction false} TotalUnion(values: seq<nat>, a: set<nat>, b: set<nat>)
    requires Coins(values, a) && Coins(values, b) && a !! b
    ensures Total(values, a + b) == Total(values, a) + Total(values, b)
    decreases |b|
  {
    if b == {} {
      TotalEmptyUpTo(values, |values|);
      assert a + b == a;
    } else {
      var y :| y in b;
      TotalUnion(values, a, b - {y});
      TotalRemove(values, b, y);
      TotalRemove(values, a + b, y);
      assert a + b - {y} == a + (b - {y});
    }
  }

  // ── Lists of coins ───────────────────────────────────────────────────────

  predicate Distinct(s: seq<nat>) {
    forall i, j :: 0 <= i < j < |s| ==> s[i] != s[j]
  }

  predicate Within(values: seq<nat>, s: seq<nat>) {
    forall i :: 0 <= i < |s| ==> s[i] < |values|
  }

  ghost function ToSet(s: seq<nat>): set<nat> {
    set x | x in s
  }

  function Sum(values: seq<nat>, s: seq<nat>): nat
    requires Within(values, s)
  {
    if s == [] then 0 else Sum(values, s[..|s| - 1]) + values[s[|s| - 1]]
  }

  lemma {:induction false} ListSum(values: seq<nat>, s: seq<nat>)
    requires Within(values, s) && Distinct(s)
    ensures |ToSet(s)| == |s| && Coins(values, ToSet(s)) && Sum(values, s) == Total(values, ToSet(s))
    decreases |s|
  {
    if s == [] {
      TotalEmptyUpTo(values, |values|);
    } else {
      var n := |s| - 1;
      ListSum(values, s[..n]);
      assert ToSet(s) == ToSet(s[..n]) + {s[n]};
      assert s[n] !in s[..n];
      TotalRemove(values, ToSet(s), s[n]);
      assert ToSet(s) - {s[n]} == ToSet(s[..n]);
    }
  }

  // ── Sorting indexes ──────────────────────────────────────────────────────

  /** The comparison of the two sorts: by value, up or down, equal values by index. */
  predicate Before(values: seq<nat>, up: bool, a: nat, b: nat)
    requires a < |values| && b < |values|
  {
    || (if up then values[a] < values[b] else values[b] < values[a])
    || (values[a] == values[b] && a <= b)
  }

  function Insert(values: seq<nat>, up: bool, x: nat, s: seq<nat>): seq<nat>
    requires Within(values, s) && x < |values|
  {
    if s == [] then [x]
    else if Before(values, up, x, s[0]) then [x] + s
    else [s[0]] + Insert(values, up, x, s[1..])
  }

  /** sort_by on a list of indexes. */
  function Sorted(values: seq<nat>, up: bool, s: seq<nat>): (r: seq<nat>)
    requires Within(values, s)
    ensures Within(values, r)
  {
    if s == [] then []
    else
      var rest := Sorted(values, up, s[1..]);
      InsertMembers(values, up, s[0], rest);
      Insert(values, up, s[0], rest)
  }

  ghost predicate InOrder(values: seq<nat>, up: bool, s: seq<nat>)
    requires Within(values, s)
  {
    forall i, j :: 0 <= i < j < |s| ==> Before(values, up, s[i], s[j])
  }

  lemma {:induction false} InsertMembers(values: seq<nat>, up: bool, x: nat, s: seq<nat>)
    requires Within(values, s) && x < |values|
    ensures var r := Insert(values, up, x, s);
            && |r| == |s| + 1
            && (forall y :: y in r <==> y == x || y in s)
            && Within(values, r)
    decreases |s|
  {
    var r := Insert(values, up, x, s);
    if s != [] && !Before(values, up, x, s[0]) {
      InsertMembers(values, up, x, s[1..]);
      assert forall y :: y in s <==> y == s[0] || y in s[1..];
    }
    assert forall i :: 0 <= i < |r| ==> r[i] in r;
  }

  /** A coin before every coin of an ordered list can go in front. */
  lemma FrontKeepsOrder(values: seq<nat>, up: bool, x: nat, s: seq<nat>)
    requires Within(values, s) && x < |values| && InOrder(values, up, s) && Distinct(s)
    requires forall j :: 0 <= j < |s| ==> Before(values, up, x, s[j]) && x != s[j]
    ensures Within(values, [x] + s) && InOrder(values, up, [x] + s) && Distinct([x] + s)
  {
  }

  lemma {:induction false} InsertKeepsOrder(values: seq<nat>, up: bool, x: nat, s: seq<nat>)
    requires Within(values, s) && x < |values| && InOrder(values, up, s) && Distinct(s) && x !in s
    ensures var r := Insert(values, up, x, s);
            Within(values, r) && InOrder(values, up, r) && Distinct(r)
    decreases |s|
  {
    if s == [] || Before(values, up, x, s[0]) {
      FrontKeepsOrder(values, up, x, s);
    } else {
      var rest := Insert(values, up, x, s[1..]);
      InsertKeepsOrder(values, up, x, s[1..]);
      InsertMembers(values, up, x, s[1..]);
      forall j | 0 <= j < |rest| ensures Before(values, up, s[0], rest[j]) && s[0] != rest[j] {
        assert rest[j] in rest;
      }
      FrontKeepsOrder(values, up, s[0], rest);
    }
  }

  lemma {:induction false} SortedIsSort(values: seq<nat>, up: bool, s: seq<nat>)
    requires Within(values, s) && Distinct(s)
    ensures var r := Sorted(values, up, s);
            && |r| == |s| && ToSet(r) == ToSet(s)
            && InOrder(values, up, r) && Distinct(r)
    decreases |s|
  {
    if s != [] {
      SortedIsSort(values, up, s[1..]);
      var rest := Sorted(values, up, s[1..]);
      assert s[0] !in s[1..] && forall y :: y in s <==> y == s[0] || y in s[1..];
      assert s[0] !in rest by {
        assert s[0] in rest <==> s[0] in ToSet(rest);
      }
      InsertMembers(values, up, s[0], rest);
      InsertKeepsOrder(values, up, s[0], rest);
      forall y ensures y in Sorted(values, up, s) <==> y in s {
        assert y in rest <==> y in ToSet(rest);
      }
    }
  }

  // ── The exchange argument ────────────────────────────────────────────────

  lemma PrefixTotal(values: seq<nat>, order: seq<nat>, k: nat)
    requires Within(values, order) && Distinct(order) && 1 <= k <= |order|
    ensures Total(values, ToSet(order[..k])) == values[order[0]] + Total(values, ToSet(order[1..][..k - 1]))
  {
    var x, top, rest := order[0], order[..k], order[1..][..k - 1];
    assert top == [x] + rest;
    assert Within(values, top) && Distinct(top);
    ListSum(values, top);
    TotalRemove(values, ToSet(top), x);
    assert ToSet(top) - {x} == ToSet(rest);
  }

  lemma OrderTail(values: seq<nat>, up: bool, order: seq<nat>)
    requires Within(values, order) && Distinct(order) && InOrder(values, up, order) && order != []
    ensures var rest := order[1..];
            && Within(values, rest) && Distinct(rest) && InOrder(values, up, rest)
            && ToSet(order) == {order[0]} + ToSet(rest) && order[0] !in ToSet(rest)
            && (forall y :: y in ToSet(rest) ==> y < |values| && Before(values, up, order[0], y))
  {
  }

  /** A coin of a set that may stand for the first of the list: that one when the set has it. */
  lemma ExchangeCoin(values: seq<nat>, order: seq<nat>, s: set<nat>) returns (y: nat)
    requires Within(values, order) && Distinct(order) && InOrder(values, false, order) && order != []
    requires s <= ToSet(order) && s != {}
    ensures y in s && y < |values| && values[y] <= values[order[0]] && s - {y} <= ToSet(order[1..])
    ensures Within(values, order[1..]) && Distinct(order[1..]) && InOrder(values, false, order[1..])
  {
    OrderTail(values, false, order);
    if order[0] in s {
      y := order[0];
    } else {
      y :| y in s;
      assert y in ToSet(order[1..]);
    }
  }

  /** No set of k coins is worth more than the k largest. */
  lemma {:induction false} LargestFirstIsMost(values: seq<nat>, order: seq<nat>, s: set<nat>)
    requires Within(values, order) && Distinct(order) && InOrder(values, false, order)
    requires s <= ToSet(order)
    ensures |s| <= |order|
    ensures Total(values, s) <= Total(values, ToSet(order[..|s|]))
    decreases |order|
  {
    if s == {} {
      TotalEmptyUpTo(values, |values|);
    } else {
      assert order != [];
      var y := ExchangeCoin(values, order, s);
      LargestFirstIsMost(values, order[1..], s - {y});
      assert Coins(values, s);
      TotalRemove(values, s, y);
      PrefixTotal(values, order, |s|);
    }
  }

  // ── pick ─────────────────────────────────────────────────────────────────

  /** The first index of the list whose coin is worth at least `amount`. */
  function FirstAtLeast(values: seq<nat>, order: seq<nat>, amount: nat): Option<nat>
    requires Within(values, order)
  {
    if order == [] then None
    else if values[order[0]] >= amount then Some(order[0])
    else FirstAtLeast(values, order[1..], amount)
  }

  /** Take coins in order, beyond the first `k`, until they cover. */
  function TakeUntil(values: seq<nat>, order: seq<nat>, need: nat -> nat, k: nat): Option<seq<nat>>
    requires Within(values, order) && k <= |order|
    decreases |order| - k
  {
    if k == |order| then None
    else if Sum(values, order[..k + 1]) >= need(k + 1) then Some(order[..k + 1])
    else TakeUntil(values, order, need, k + 1)
  }

  /** pick's rule over a list of candidate indexes. */
  function PickAmong(values: seq<nat>, cands: seq<nat>, need: nat -> nat): Option<seq<nat>>
    requires Within(values, cands)
  {
    match FirstAtLeast(values, Sorted(values, true, cands), need(1))
    case Some(i) => Some([i])
    case None => TakeUntil(values, Sorted(values, false, cands), need, 0)
  }

  function Range(n: nat): (s: seq<nat>)
    ensures |s| == n && forall i :: 0 <= i < n ==> s[i] == i
  {
    seq(n, i => i)
  }

  function Pick(values: seq<nat>, need: nat -> nat): Option<seq<nat>> {
    PickAmong(values, Range(|values|), need)
  }

  lemma {:induction false} FirstAtLeastIsFirst(values: seq<nat>, order: seq<nat>, amount: nat)
    requires Within(values, order) && Distinct(order) && InOrder(values, true, order)
    ensures var r := FirstAtLeast(values, order, amount);
            && (r.None? <==> forall y :: y in ToSet(order) ==> y < |values| && values[y] < amount)
            && (r.Some? ==>
                  && r.value in ToSet(order) && r.value < |values| && values[r.value] >= amount
                  && forall y :: y in ToSet(order) && y < |values| && values[y] >= amount ==> Before(values, true, r.value, y))
    decreases |order|
  {
    if order != [] {
      OrderTail(values, true, order);
      FirstAtLeastIsFirst(values, order[1..], amount);
    }
  }

  lemma {:induction false} TakeUntilIsShortest(values: seq<nat>, order: seq<nat>, need: nat -> nat, k: nat)
    requires Within(values, order) && k <= |order|
    ensures var r := TakeUntil(values, order, need, k);
            && (r.None? ==> forall j :: k < j <= |order| ==> Sum(values, order[..j]) < need(j))
            && (r.Some? ==>
                  && k < |r.value| <= |order| && r.value == order[..|r.value|]
                  && Sum(values, r.value) >= need(|r.value|)
                  && forall j :: k < j < |r.value| ==> Sum(values, order[..j]) < need(j))
    decreases |order| - k
  {
    if k < |order| {
      TakeUntilIsShortest(values, order, need, k + 1);
    }
  }

  /** What a pick is over the coins `among`: a covering list of distinct coins, of the least size
      any covering set has; of one coin the smallest that covers, equal values by index; of more,
      worth at least as much as any set of that size. */
  ghost predicate OptimalPick(values: seq<nat>, among: set<nat>, need: nat -> nat, c: seq<nat>) {
    && Distinct(c) && Within(values, c) && ToSet(c) <= among
    && |ToSet(c)| == |c| && Covers(values, need, ToSet(c))
    && (forall s :: s <= among && Covers(values, need, s) ==> |c| <= |s|)
    && (|c| == 1 ==> forall y :: y in among && y < |values| && values[y] >= need(1) ==> Before(values, true, c[0], y))
    && (|c| > 1 ==> forall s :: s <= among && Coins(values, s) && |s| == |c| ==> Total(values, s) <= Total(values, ToSet(c)))
  }

  lemma SingleTotal(values: seq<nat>, y: nat)
    requires y < |values|
    ensures Total(values, {y}) == values[y]
  {
    TotalRemove(values, {y}, y);
    TotalEmptyUpTo(values, |values|);
    assert {y} - {y} == {};
  }

  lemma PrefixList(values: seq<nat>, order: seq<nat>, j: nat)
    requires Within(values, order) && Distinct(order) && j <= |order|
    ensures Within(values, order[..j]) && Distinct(order[..j]) && |ToSet(order[..j])| == j
    ensures ToSet(order[..j]) <= ToSet(order) && Coins(values, ToSet(order[..j]))
    ensures Sum(values, order[..j]) == Total(values, ToSet(order[..j]))
  {
    ListSum(values, order[..j]);
  }

  /** A set that covers is no larger than the list, and the list's coins of that number cover too. */
  lemma CoveringPrefix(values: seq<nat>, order: seq<nat>, need: nat -> nat, s: set<nat>)
    requires Within(values, order) && Distinct(order) && InOrder(values, false, order)
    requires s <= ToSet(order) && Covers(values, need, s)
    ensures 1 <= |s| <= |order| && Sum(values, order[..|s|]) >= need(|s|)
  {
    LargestFirstIsMost(values, order, s);
    PrefixList(values, order, |s|);
  }

  /** No single coin covers: the greedy list is optimal, and there is none only if no set covers. */
  lemma TakeUntilOptimal(values: seq<nat>, order: seq<nat>, need: nat -> nat)
    requires Within(values, order) && Distinct(order) && InOrder(values, false, order)
    requires forall y :: y in ToSet(order) ==> y < |values| && values[y] < need(1)
    ensures var r := TakeUntil(values, order, need, 0);
            && (r.None? ==> forall s :: s <= ToSet(order) ==> !Covers(values, need, s))
            && (r.Some? ==> OptimalPick(values, ToSet(order), need, r.value))
  {
    var r := TakeUntil(values, order, need, 0);
    TakeUntilIsShortest(values, order, need, 0);
    forall s | s <= ToSet(order) && Covers(values, need, s)
      ensures r.Some? && |r.value| <= |s|
    {
      CoveringPrefix(values, order, need, s);
    }
    if r.Some? {
      var c := r.value;
      PrefixList(values, order, |c|);
      forall s | s <= ToSet(order) && Coins(values, s) && |s| == |c| ensures Total(values, s) <= Total(values, ToSet(c)) {
        LargestFirstIsMost(values, order, s);
      }
    }
  }

  lemma SingleOptimal(values: seq<nat>, among: set<nat>, need: nat -> nat, i: nat)
    requires i in among && i < |values| && values[i] >= need(1)
    requires forall y :: y in among && y < |values| && values[y] >= need(1) ==> Before(values, true, i, y)
    ensures OptimalPick(values, among, need, [i])
  {
    assert ToSet([i]) == {i};
    SingleTotal(values, i);
    forall s | s <= among && Covers(values, need, s) ensures 1 <= |s| {
    }
  }

  /** pick is optimal among the candidates, and answers None exactly when no set of them covers. */
  lemma PickAmongOptimal(values: seq<nat>, cands: seq<nat>, need: nat -> nat)
    requires Within(values, cands) && Distinct(cands)
    ensures var r := PickAmong(values, cands, need);
            && (r.None? <==> forall s :: s <= ToSet(cands) ==> !Covers(values, need, s))
            && (r.Some? ==> OptimalPick(values, ToSet(cands), need, r.value))
  {
    var up, down := Sorted(values, true, cands), Sorted(values, false, cands);
    SortedIsSort(values, true, cands);
    SortedIsSort(values, false, cands);
    FirstAtLeastIsFirst(values, up, need(1));
    var first := FirstAtLeast(values, up, need(1));
    if first.Some? {
      SingleOptimal(values, ToSet(cands), need, first.value);
    } else {
      TakeUntilOptimal(values, down, need);
    }
    var r := PickAmong(values, cands, need);
    assert r.Some? ==> ToSet(r.value) <= ToSet(cands) && Covers(values, need, ToSet(r.value));
  }

  /** The coins of a list that come first, largest first and equal values by index, in that order. */
  ghost predicate LargestOf(values: seq<nat>, among: seq<nat>, c: seq<nat>)
    requires Within(values, among) && Within(values, c)
  {
    && InOrder(values, false, c)
    && forall i, y :: 0 <= i < |c| && 0 <= y < |among| && among[y] !in c ==> Before(values, false, c[i], among[y])
  }

  lemma PrefixIsLargest(values: seq<nat>, cands: seq<nat>, k: nat)
    requires Within(values, cands) && Distinct(cands) && k <= |cands|
    ensures var down := Sorted(values, false, cands);
            k <= |down| && LargestOf(values, cands, down[..k])
  {
    var down := Sorted(values, false, cands);
    SortedIsSort(values, false, cands);
    forall i, y | 0 <= i < k && 0 <= y < |cands| && cands[y] !in down[..k] ensures Before(values, false, down[i], cands[y]) {
      assert cands[y] in ToSet(cands) && cands[y] in ToSet(down);
      assert down == down[..k] + down[k..];
      var j :| 0 <= j < |down[k..]| && down[k..][j] == cands[y];
      assert down[k + j] == cands[y];
    }
  }

  /** A pick of several coins is exactly the largest of the candidates, equal values by index, in that
      order. */
  lemma PickAmongTakesLargest(values: seq<nat>, cands: seq<nat>, need: nat -> nat)
    requires Within(values, cands) && Distinct(cands)
    ensures var r := PickAmong(values, cands, need);
            r.Some? && |r.value| > 1 ==> Within(values, r.value) && LargestOf(values, cands, r.value)
  {
    var r := PickAmong(values, cands, need);
    SortedIsSort(values, false, cands);
    if r.Some? && |r.value| > 1 {
      TakeUntilIsShortest(values, Sorted(values, false, cands), need, 0);
      PrefixIsLargest(values, cands, |r.value|);
    }
  }

  /** For every need function: None exactly when no non-empty set of coins covers, and otherwise an
      optimal pick. */
  lemma PickOptimal(values: seq<nat>, need: nat -> nat)
    ensures var r := Pick(values, need);
            && (r.None? <==> forall s :: !Covers(values, need, s))
            && (r.Some? ==> OptimalPick(values, ToSet(Range(|values|)), need, r.value))
  {
    PickAmongOptimal(values, Range(|values|), need);
    forall s | Covers(values, need, s) ensures s <= ToSet(Range(|values|)) {
      forall i | i in s ensures i in Range(|values|) {
        assert Range(|values|)[i] == i;
      }
    }
  }

  // ── The loops ────────────────────────────────────────────────────────────

  predicate FitsU64(values: seq<nat>) {
    forall i :: 0 <= i < |values| ==> values[i] <= U64_MAX
  }

  /** Largest first until covered, in saturating 64-bit arithmetic. */
  method TakeCoins(values: seq<nat>, order: seq<nat>, need: nat -> nat) returns (r: Option<seq<nat>>)
    requires FitsU64(values) && (forall n :: need(n) <= U64_MAX) && Within(values, order)
    ensures r == TakeUntil(values, order, need, 0)
  {
    var chosen: seq<nat> := [];
    var total: u64 := 0;
    for k := 0 to |order|
      invariant chosen == order[..k]
      invariant total == if Sum(values, chosen) <= U64_MAX then Sum(values, chosen) else U64_MAX
      invariant TakeUntil(values, order, need, k) == TakeUntil(values, order, need, 0)
    {
      chosen := chosen + [order[k]];
      assert chosen == order[..k + 1] && chosen[..k] == order[..k];
      total := SaturatingAdd(total, values[order[k]]);
      if total >= need(|chosen|) {
        return Some(chosen);
      }
    }
    return None;
  }

  /** The first coin of a list that covers alone. */
  method FindSingle(values: seq<nat>, order: seq<nat>, one: nat) returns (r: Option<nat>)
    requires Within(values, order)
    ensures r == FirstAtLeast(values, order, one)
  {
    assert order[0..] == order;
    for k := 0 to |order|
      invariant FirstAtLeast(values, order[k..], one) == FirstAtLeast(values, order, one)
    {
      assert order[k..][1..] == order[k + 1..];
      if values[order[k]] >= one {
        return Some(order[k]);
      }
    }
    return None;
  }

  method PickCoins(values: seq<nat>, need: nat -> nat) returns (r: Option<seq<nat>>)
    requires FitsU64(values) && forall n :: need(n) <= U64_MAX
    ensures r == Pick(values, need)
  {
    if values == [] {
      return None;
    }
    var one := need(1);
    var asc := Sorted(values, true, Range(|values|));
    var single := FindSingle(values, asc, one);
    if single.Some? {
      return Some([single.value]);
    }
    var desc := Sorted(values, false, Range(|values|));
    r := TakeCoins(values, desc, need);
  }
}
