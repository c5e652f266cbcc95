/**
 The coins an open may spend: the Tier-2 view's unspent signable coins that no pending transaction
 spends and no mark holds, then up to three unconfirmed change coins
 (lij/lij-core/src/channel_open.rs, lij/lij-core/src/tier2_wallet.rs, lij/lij-core/src/onchain_send.rs).
 */
module WalletCoins {
  import opened Prelude
  import opened Text

  const CHAIN_RECEIVE := 0
  const CHAIN_CHANGE := 1
  const CHAIN_BIP86 := 86
  const CHAIN_BIP86_INTERNAL := 87
  const CHAIN_SP := 352

  type Outpoint = (string, nat)

  datatype Coin = Coin(txid: string, vout: nat, value: nat, chain: nat, spent: bool, hasTweak: bool) {
    function Out(): Outpoint {
      (txid, vout)
    }

    predicate Mixed() {
      chain == CHAIN_BIP86 || chain == CHAIN_BIP86_INTERNAL
    }

    predicate Taproot() {
      chain == CHAIN_SP || Mixed()
    }

    predicate Signable() {
      || chain == CHAIN_RECEIVE
      || chain == CHAIN_CHANGE
      || (chain == CHAIN_SP && hasTweak)
      || Mixed()
    }
  }

  /** A pending row; `open` is its kind, a channel open or any other spend. */
  datatype Pending = Pending(txid: string, spends: seq<Outpoint>, change: Option<Outpoint>, changeValue: nat, created: nat, open: bool)

  /** What storage holds: the view, the pending transactions and the held (frozen or Mix-locked) coins. */
  datatype Wallet = Wallet(view: seq<Coin>, pending: seq<Pending>, held: set<Outpoint>)

  function Key(o: Outpoint): Outpoint {
    (Lower(o.0), o.1)
  }

  predicate LowerCase(o: Outpoint) {
    Key(o) == o
  }

  // ── Sorting and summing lists ────────────────────────────────────────────

  function InsertDown<T>(key: T -> nat, x: T, s: seq<T>): seq<T> {
    if s == [] || key(x) >= key(s[0]) then [x] + s else [s[0]] + InsertDown(key, x, s[1..])
  }

  /** A stable sort, largest key first. */
  function SortDown<T>(key: T -> nat, s: seq<T>): seq<T> {
    if s == [] then [] else InsertDown(key, s[0], SortDown(key, s[1..]))
  }

  function SumBy<T>(weight: T -> nat, s: seq<T>): nat {
    if s == [] then 0 else weight(s[0]) + SumBy(weight, s[1..])
  }

  lemma {:induction false} SumByAppend<T>(weight: T -> nat, a: seq<T>, b: seq<T>)
    ensures SumBy(weight, a + b) == SumBy(weight, a) + SumBy(weight, b)
    decreases |a|
  {
    if a == [] {
      assert a + b == b;
    } else {
      SumByAppend(weight, a[1..], b);
      assert (a + b)[1..] == a[1..] + b;
    }
  }

  lemma {:induction false} InsertDownKeeps<T>(key: T -> nat, weight: T -> nat, x: T, s: seq<T>)
    ensures multiset(InsertDown(key, x, s)) == multiset{x} + multiset(s)
    ensures SumBy(weight, InsertDown(key, x, s)) == weight(x) + SumBy(weight, s)
    decreases |s|
  {
    if s == [] || key(x) >= key(s[0]) {
      assert ([x] + s)[1..] == s;
    } else {
      InsertDownKeeps(key, weight, x, s[1..]);
      var r := InsertDown(key, x, s[1..]);
      assert s == [s[0]] + s[1..] && ([s[0]] + r)[1..] == r;
    }
  }

  lemma {:induction false} SortDownKeeps<T>(key: T -> nat, weight: T -> nat, s: seq<T>)
    ensures multiset(SortDown(key, s)) == multiset(s)
    ensures SumBy(weight, SortDown(key, s)) == SumBy(weight, s)
    decreases |s|
  {
    if s != [] {
      SortDownKeeps(key, weight, s[1..]);
      InsertDownKeeps(key, weight, s[0], SortDown(key, s[1..]));
      assert s == [s[0]] + s[1..];
    }
  }

  lemma SortDownMembers<T>(key: T -> nat, s: seq<T>, x: T)
    ensures x in SortDown(key, s) <==> x in s
  {
    SortDownKeeps(key, key, s);
    assert x in multiset(SortDown(key, s)) <==> x in multiset(s);
  }

  ghost predicate Descending<T(!new)>(key: T -> nat, s: seq<T>) {
    forall i, j :: 0 <= i < j < |s| ==> key(s[i]) >= key(s[j])
  }

  lemma {:induction false} InsertDownMember<T>(key: T -> nat, x: T, s: seq<T>, i: nat)
    requires i < |InsertDown(key, x, s)|
    ensures InsertDown(key, x, s)[i] == x || InsertDown(key, x, s)[i] in s
    decreases |s|
  {
    if s != [] && key(x) < key(s[0]) && i > 0 {
      InsertDownMember(key, x, s[1..], i - 1);
    }
  }

  lemma {:induction false} InsertDownOrder<T(!new)>(key: T -> nat, x: T, s: seq<T>)
    requires Descending(key, s)
    ensures Descending(key, InsertDown(key, x, s))
    decreases |s|
  {
    if s != [] && key(x) < key(s[0]) {
      var rest := s[1..];
      var r := InsertDown(key, x, rest);
      InsertDownOrder(key, x, rest);
      forall i | 0 <= i < |r| ensures key(s[0]) >= key(r[i]) {
        InsertDownMember(key, x, rest, i);
        if r[i] != x {
          var j :| 0 <= j < |rest| && rest[j] == r[i];
          assert s[j + 1] == r[i];
        }
      }
    }
  }

  /** The sort puts the largest keys first. */
  lemma {:induction false} SortDownOrder<T(!new)>(key: T -> nat, s: seq<T>)
    ensures Descending(key, SortDown(key, s)) && multiset(SortDown(key, s)) == multiset(s)
    decreases |s|
  {
    SortDownKeeps(key, key, s);
    if s != [] {
      SortDownOrder(key, s[1..]);
      InsertDownOrder(key, s[0], SortDown(key, s[1..]));
    }
  }

  // ── Candidates ───────────────────────────────────────────────────────────

  function Reserved(pending: seq<Pending>): set<Outpoint> {
    set p, o | p in pending && o in p.spends :: o
  }

  /** A coin an open may spend. */
  predicate Spendable(w: Wallet, c: Coin) {
    !c.spent && c.Signable() && c.Out() !in Reserved(w.pending) && c.Out() !in w.held
  }

  function FreeCoins(w: Wallet, view: seq<Coin>): seq<Coin> {
    if view == [] then []
    else (if Spendable(w, view[0]) then [view[0]] else []) + FreeCoins(w, view[1..])
  }

  predicate InView(view: seq<Coin>, o: Outpoint) {
    exists i :: 0 <= i < |view| && view[i].Out() == o
  }

  function ChangeCoin(p: Pending): Coin
    requires p.change.Some?
  {
    Coin(p.change.value.0, p.change.value.1, p.changeValue, CHAIN_CHANGE, false, false)
  }

  /** Change a pending transaction made that nothing pending spends and the view does not show. */
  predicate OpenChange(w: Wallet, p: Pending) {
    && p.change.Some? && p.changeValue != 0
    && p.change.value !in Reserved(w.pending) && !InView(w.view, p.change.value)
  }

  function ChangeCoins(w: Wallet, ordered: seq<Pending>): seq<Coin> {
    if ordered == [] then []
    else (if OpenChange(w, ordered[0]) then [ChangeCoin(ordered[0])] else []) + ChangeCoins(w, ordered[1..])
  }

  function NotHeld(w: Wallet, coins: seq<Coin>): seq<Coin> {
    if coins == [] then []
    else (if coins[0].Out() !in w.held then [coins[0]] else []) + NotHeld(w, coins[1..])
  }

  function CreatedOf(p: Pending): nat {
    p.created
  }

  function Newest(pending: seq<Pending>): seq<Pending> {
    SortDown(CreatedOf, pending)
  }

  function ChangeCandidates(w: Wallet): seq<Coin> {
    var change := NotHeld(w, ChangeCoins(w, Newest(w.pending)));
    if |change| <= 3 then change else change[..3]
  }

  function Candidates(w: Wallet): seq<Coin> {
    FreeCoins(w, w.view) + ChangeCandidates(w)
  }

  // ── What candidates are ──────────────────────────────────────────────────

  ghost predicate DistinctOuts(coins: seq<Coin>) {
    forall i, j :: 0 <= i < j < |coins| ==> coins[i].Out() != coins[j].Out()
  }

  /** A pending transaction's change is an output of its own, and its outpoints are lower case. */
  predicate PendingFormed(p: Pending) {
    && LowerCase((p.txid, 1))
    && (p.change.Some? ==> p.change.value.0 == p.txid)
    && (forall o :: o in p.spends ==> LowerCase(o))
  }

  ghost predicate DistinctTxids(pending: seq<Pending>) {
    forall i, j :: 0 <= i < j < |pending| ==> pending[i].txid != pending[j].txid
  }

  /** One view row per outpoint and one pending row per transaction, all in lower-case hex. */
  ghost predicate Formed(w: Wallet) {
    && DistinctOuts(w.view) && (forall c :: c in w.view ==> LowerCase(c.Out()))
    && DistinctTxids(w.pending) && (forall p :: p in w.pending ==> PendingFormed(p))
  }

  lemma {:induction false} FreeCoinsExact(w: Wallet, view: seq<Coin>)
    requires DistinctOuts(view)
    ensures DistinctOuts(FreeCoins(w, view))
    ensures forall c :: c in FreeCoins(w, view) <==> c in view && Spendable(w, c)
    decreases |view|
  {
    if view != [] {
      FreeCoinsExact(w, view[1..]);
      var rest := FreeCoins(w, view[1..]);
      forall i | 0 <= i < |rest| ensures rest[i].Out() != view[0].Out() {
        assert rest[i] in view[1..];
      }
      assert forall c :: c in view <==> c == view[0] || c in view[1..];
    }
  }

  lemma {:induction false} ChangeCoinsExact(w: Wallet, ordered: seq<Pending>)
    requires DistinctTxids(ordered) && forall p :: p in ordered ==> PendingFormed(p)
    ensures DistinctOuts(ChangeCoins(w, ordered))
    ensures forall c :: c in ChangeCoins(w, ordered) <==> exists p :: p in ordered && OpenChange(w, p) && c == ChangeCoin(p)
    decreases |ordered|
  {
    if ordered != [] {
      var head, tail := ordered[0], ordered[1..];
      assert head in ordered;
      ChangeCoinsExact(w, tail);
      var rest := ChangeCoins(w, tail);
      forall i | 0 <= i < |rest| ensures rest[i].txid != head.txid {
        assert rest[i] in rest;
        var p :| p in tail && OpenChange(w, p) && rest[i] == ChangeCoin(p);
      }
      assert forall p :: p in ordered <==> p == head || p in tail;
    }
  }

  lemma {:induction false} NotHeldExact(w: Wallet, coins: seq<Coin>)
    requires DistinctOuts(coins)
    ensures DistinctOuts(NotHeld(w, coins))
    ensures forall c :: c in NotHeld(w, coins) <==> c in coins && c.Out() !in w.held
    decreases |coins|
  {
    if coins != [] {
      NotHeldExact(w, coins[1..]);
      var rest := NotHeld(w, coins[1..]);
      forall i | 0 <= i < |rest| ensures rest[i].Out() != coins[0].Out() {
        assert rest[i] in coins[1..];
      }
      assert forall c :: c in coins <==> c == coins[0] || c in coins[1..];
    }
  }

  lemma {:induction false} InsertDownDistinct(key: Pending -> nat, p: Pending, s: seq<Pending>)
    requires DistinctTxids(s) && forall i :: 0 <= i < |s| ==> s[i].txid != p.txid
    ensures DistinctTxids(InsertDown(key, p, s))
    ensures forall q :: q in InsertDown(key, p, s) <==> q == p || q in s
    decreases |s|
  {
    if s != [] && key(p) < key(s[0]) {
      InsertDownDistinct(key, p, s[1..]);
      var r := InsertDown(key, p, s[1..]);
      forall i | 0 <= i < |r| ensures r[i].txid != s[0].txid {
        assert r[i] in r;
      }
      assert forall q :: q in s <==> q == s[0] || q in s[1..];
    }
  }

  lemma {:induction false} SortDownDistinct(key: Pending -> nat, s: seq<Pending>)
    requires DistinctTxids(s)
    ensures DistinctTxids(SortDown(key, s))
    ensures forall q :: q in SortDown(key, s) <==> q in s
    decreases |s|
  {
    if s != [] {
      SortDownDistinct(key, s[1..]);
      var r := SortDown(key, s[1..]);
      forall i | 0 <= i < |r| ensures r[i].txid != s[0].txid {
        assert r[i] in s[1..];
      }
      InsertDownDistinct(key, s[0], r);
      assert forall q :: q in s <==> q == s[0] || q in s[1..];
    }
  }

  /** Unconfirmed change offered to an open: distinct, unreserved, not held, absent from the view. */
  lemma ChangeCandidatesExact(w: Wallet)
    requires Formed(w)
    ensures DistinctOuts(ChangeCandidates(w)) && |ChangeCandidates(w)| <= 3
    ensures forall c :: c in ChangeCandidates(w) ==> Spendable(w, c) && LowerCase(c.Out()) && !InView(w.view, c.Out())
  {
    SortDownDistinct(CreatedOf, w.pending);
    var change := ChangeCoins(w, Newest(w.pending));
    ChangeCoinsExact(w, Newest(w.pending));
    NotHeldExact(w, change);
    forall c | c in ChangeCandidates(w) ensures Spendable(w, c) && LowerCase(c.Out()) && !InView(w.view, c.Out()) {
      assert c in change;
      var p :| p in Newest(w.pending) && OpenChange(w, p) && c == ChangeCoin(p);
      assert p in w.pending && PendingFormed(p);
    }
  }

  /** The pending rows whose change is offered, in the order given. */
  function OfferedRows(w: Wallet, ordered: seq<Pending>): seq<Pending> {
    if ordered == [] then []
    else
      (if OpenChange(w, ordered[0]) && ordered[0].change.value !in w.held then [ordered[0]] else [])
      + OfferedRows(w, ordered[1..])
  }

  lemma {:induction false} OfferedRowsExact(w: Wallet, ordered: seq<Pending>)
    ensures forall p :: p in OfferedRows(w, ordered) <==> p in ordered && OpenChange(w, p) && p.change.value !in w.held
    decreases |ordered|
  {
    if ordered != [] {
      OfferedRowsExact(w, ordered[1..]);
      assert forall p :: p in ordered <==> p == ordered[0] || p in ordered[1..];
    }
  }

  lemma {:induction false} OfferedRowsCoins(w: Wallet, ordered: seq<Pending>)
    ensures var rows, coins := OfferedRows(w, ordered), NotHeld(w, ChangeCoins(w, ordered));
            |coins| == |rows| && forall i :: 0 <= i < |rows| ==> rows[i].change.Some? && coins[i] == ChangeCoin(rows[i])
    decreases |ordered|
  {
    if ordered != [] {
      OfferedRowsCoins(w, ordered[1..]);
      NotHeldCons(w, ordered);
    }
  }

  lemma NotHeldCons(w: Wallet, ordered: seq<Pending>)
    requires ordered != []
    ensures NotHeld(w, ChangeCoins(w, ordered)) ==
            (if OpenChange(w, ordered[0]) && ordered[0].change.value !in w.held then [ChangeCoin(ordered[0])] else [])
            + NotHeld(w, ChangeCoins(w, ordered[1..]))
  {
    var rest := ChangeCoins(w, ordered[1..]);
    if OpenChange(w, ordered[0]) {
      assert ChangeCoins(w, ordered) == [ChangeCoin(ordered[0])] + rest;
      NotHeldPush(w, ChangeCoin(ordered[0]), rest);
    } else {
      assert ChangeCoins(w, ordered) == rest;
    }
  }

  lemma NotHeldPush(w: Wallet, c: Coin, rest: seq<Coin>)
    ensures NotHeld(w, [c] + rest) == (if c.Out() !in w.held then [c] else []) + NotHeld(w, rest)
  {
  }

  ghost predicate NewestFirst(rows: seq<Pending>) {
    forall i, j :: 0 <= i < j < |rows| ==> rows[i].created >= rows[j].created
  }

  lemma {:induction false} OfferedRowsOrder(w: Wallet, ordered: seq<Pending>)
    requires NewestFirst(ordered)
    ensures NewestFirst(OfferedRows(w, ordered))
    decreases |ordered|
  {
    if ordered != [] {
      OfferedRowsOrder(w, ordered[1..]);
      OfferedRowsExact(w, ordered[1..]);
      var rest := OfferedRows(w, ordered[1..]);
      forall i | 0 <= i < |rest| ensures ordered[0].created >= rest[i].created {
        assert rest[i] in ordered[1..];
        var k :| 0 <= k < |ordered[1..]| && ordered[1..][k] == rest[i];
        assert ordered[k + 1] == rest[i];
      }
    }
  }

  lemma NewestIsSorted(pending: seq<Pending>)
    ensures NewestFirst(Newest(pending)) && forall p :: p in Newest(pending) <==> p in pending
  {
    SortDownOrder(CreatedOf, pending);
    forall p ensures p in Newest(pending) <==> p in pending {
      SortDownMembers(CreatedOf, pending, p);
    }
  }

  /** The change offered to an open is the change of the most recent rows that have any to offer, at
      most three of them. */
  lemma ChangeIsMostRecent(w: Wallet)
    ensures var rows, coins := OfferedRows(w, Newest(w.pending)), ChangeCandidates(w);
            && (forall p :: p in rows <==> p in w.pending && OpenChange(w, p) && p.change.value !in w.held)
            && |coins| == (if |rows| < 3 then |rows| else 3)
            && (forall i :: 0 <= i < |coins| ==> rows[i].change.Some? && coins[i] == ChangeCoin(rows[i]))
            && NewestFirst(rows)
  {
    OfferedRowsExact(w, Newest(w.pending));
    OfferedRowsCoins(w, Newest(w.pending));
    NewestIsSorted(w.pending);
    OfferedRowsOrder(w, Newest(w.pending));
  }

  /** Candidates are spendable coins with distinct lower-case outpoints, and every spendable coin of
      the view is one. */
  lemma CandidatesExact(w: Wallet)
    requires Formed(w)
    ensures DistinctOuts(Candidates(w))
    ensures forall c :: c in Candidates(w) ==> Spendable(w, c) && LowerCase(c.Out())
    ensures forall c :: c in w.view && Spendable(w, c) ==> c in Candidates(w)
  {
    FreeCoinsExact(w, w.view);
    ChangeCandidatesExact(w);
    var a, b := FreeCoins(w, w.view), ChangeCandidates(w);
    forall i, j | 0 <= i < |a| && 0 <= j < |b| ensures a[i].Out() != b[j].Out() {
      assert a[i] in w.view && b[j] in b;
      var k :| 0 <= k < |w.view| && w.view[k] == a[i];
    }
  }
}
