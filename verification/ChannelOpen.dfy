/**
 Funding a channel open (lij/lij-core/src/channel_open.rs): the chosen coins or the automatic pick,
 the fee and the change, and the largest channel the wallet quotes. Sums are over the naturals.
 */
module ChannelOpen {
  import opened Prelude
  import opened CoinSelect
  import opened MixedLast
  import opened WalletCoins

  const MIN_CHANNEL: nat := 5_000
  const ANCHOR_FEE_RESERVE: nat := 0
  const DUST_THRESHOLD: nat := 294

  // ── Fees ─────────────────────────────────────────────────────────────────

  /** Sat a vbyte for a rate in sat a kiloweight: the least whole rate of at least one that reaches it. */
  function SatPerVb(rate: nat): (r: nat)
    ensures r >= 1 && 250 * r >= rate
    ensures r == 1 || 250 * (r - 1) < rate
  {
    var r := (rate + 249) / 250;
    if r < 1 then 1 else r
  }

  function Vbytes(c: Coin): nat {
    if c.Taproot() then 58 else 68
  }

  function ValueOf(c: Coin): nat {
    c.value
  }

  function TotalValue(coins: seq<Coin>): nat {
    SumBy(ValueOf, coins)
  }

  /** The size of a transaction with these inputs and two outputs. */
  function Vsize(coins: seq<Coin>): nat {
    11 + SumBy(Vbytes, coins) + 31 * 2
  }

  /** The fee for exactly these coins and two outputs. */
  function FundingFee(coins: seq<Coin>, rate: nat): nat {
    Vsize(coins) * SatPerVb(rate)
  }

  /** The fee for any `n` coins, each counted at 68 vB, and two outputs. */
  function EstimateFee(n: nat, rate: nat): nat {
    (11 + 68 * n + 31 * 2) * SatPerVb(rate)
  }

  /** What `n` inputs must carry: a fixed amount and a fee per input. */
  function Need(value: nat, rate: nat): (need: nat -> nat)
    ensures forall n: nat :: need(n) == value + EstimateFee(n, rate)
  {
    var r := SatPerVb(rate);
    assert forall n: nat :: value + 73 * r + (68 * r) * n == value + EstimateFee(n, rate) by {
      forall n: nat ensures value + 73 * r + (68 * r) * n == value + EstimateFee(n, rate) {
        assert (73 + 68 * n) * r == 73 * r + (68 * r) * n;
      }
    }
    Linear(value + 73 * r, 68 * r)
  }

  lemma {:induction false} SizeBound(coins: seq<Coin>)
    ensures SumBy(Vbytes, coins) <= 68 * |coins|
    ensures SumBy(Vbytes, coins) == 68 * |coins| <==> forall c :: c in coins ==> !c.Taproot()
    decreases |coins|
  {
    if coins != [] {
      SizeBound(coins[1..]);
      assert forall c :: c in coins <==> c == coins[0] || c in coins[1..];
    }
  }

  /** The 68-vB estimate is never below the real fee, and equals it exactly without taproot coins. */
  lemma EstimateIsEnough(coins: seq<Coin>, rate: nat)
    ensures FundingFee(coins, rate) <= EstimateFee(|coins|, rate)
    ensures FundingFee(coins, rate) == EstimateFee(|coins|, rate) <==> forall c :: c in coins ==> !c.Taproot()
  {
    SizeBound(coins);
    var a, b, r := 11 + SumBy(Vbytes, coins) + 62, 11 + 68 * |coins| + 62, SatPerVb(rate);
    assert b * r - a * r == (b - a) * r;
    assert (b - a) * r == 0 <==> b == a;
    assert (b - a) * r >= 0;
  }

  // ── Chosen coins ─────────────────────────────────────────────────────────

  function Find(cands: seq<Coin>, key: Outpoint): Option<Coin> {
    if cands == [] then None
    else if Key(cands[0].Out()) == key then Some(cands[0])
    else Find(cands[1..], key)
  }

  function After(out: seq<Coin>, r: Result<seq<Coin>>): Result<seq<Coin>> {
    if r.Err? || out == [] then r else Ok(out + r.value)
  }

  lemma AfterOne(out: seq<Coin>, c: Coin, r: Result<seq<Coin>>)
    ensures After(out, After([c], r)) == After(out + [c], r)
  {
    if r.Ok? {
      assert out + ([c] + r.value) == out + [c] + r.value;
      assert out == [] ==> out + [c] == [c];
    }
  }

  /** The chosen coins in order, each once, given the keys already taken. */
  function ResolveFrom(cands: seq<Coin>, held: set<Outpoint>, pins: seq<Outpoint>, seen: set<Outpoint>): Result<seq<Coin>> {
    if pins == [] then Ok([])
    else
      var key := Key(pins[0]);
      if key in seen then ResolveFrom(cands, held, pins[1..], seen)
      else if key in held then Err("a chosen coin is held")
      else match Find(cands, key)
        case None => Err("a chosen coin is not spendable")
        case Some(c) =>
          After([c], ResolveFrom(cands, held, pins[1..], seen + {key}))
  }

  function Resolve(cands: seq<Coin>, held: set<Outpoint>, pins: seq<Outpoint>): Result<seq<Coin>> {
    if pins == [] then Err("no coins chosen") else ResolveFrom(cands, held, pins, {})
  }

  /** pick_pinned's loop over the seen set. */
  method PickPinned(cands: seq<Coin>, held: set<Outpoint>, pins: seq<Outpoint>) returns (r: Result<seq<Coin>>)
    ensures r == Resolve(cands, held, pins)
  {
    if pins == [] {
      return Err("no coins chosen");
    }
    var out: seq<Coin> := [];
    var seen: set<Outpoint> := {};
    assert pins[0..] == pins;
    for i := 0 to |pins|
      invariant ResolveFrom(cands, held, pins, {}) == After(out, ResolveFrom(cands, held, pins[i..], seen))
    {
      var key := Key(pins[i]);
      assert pins[i..][1..] == pins[i + 1..];
      if key !in seen {
        seen := seen + {key};
        if key in held {
          return Err("a chosen coin is held");
        }
        match Find(cands, key)
        case None => return Err("a chosen coin is not spendable");
        case Some(c) =>
          AfterOne(out, c, ResolveFrom(cands, held, pins[i + 1..], seen));
          out := out + [c];
      }
    }
    assert out + [] == out;
    return Ok(out);
  }

  lemma {:induction false} FindExact(cands: seq<Coin>, key: Outpoint)
    ensures var r := Find(cands, key);
            && (r.Some? <==> exists c :: c in cands && Key(c.Out()) == key)
            && (r.Some? ==> r.value in cands && Key(r.value.Out()) == key)
    decreases |cands|
  {
    if cands != [] {
      FindExact(cands[1..], key);
      assert forall c :: c in cands <==> c == cands[0] || c in cands[1..];
    }
  }

  ghost predicate Choosable(cands: seq<Coin>, held: set<Outpoint>, key: Outpoint) {
    key !in held && exists c :: c in cands && Key(c.Out()) == key
  }

  ghost predicate DistinctKeys(coins: seq<Coin>) {
    forall i, j :: 0 <= i < j < |coins| ==> Key(coins[i].Out()) != Key(coins[j].Out())
  }

  /** The candidates with the pins' keys that are not in `seen`, each once. */
  ghost predicate Chosen(cands: seq<Coin>, pins: seq<Outpoint>, seen: set<Outpoint>, out: seq<Coin>) {
    && DistinctKeys(out)
    && (forall c :: c in out ==> c in cands && Key(c.Out()) !in seen && HasKey(pins, Key(c.Out())))
    && (forall p :: p in pins && Key(p) !in seen ==> exists c :: c in out && Key(c.Out()) == Key(p))
  }

  ghost predicate HasKey(pins: seq<Outpoint>, key: Outpoint) {
    exists p :: p in pins && Key(p) == key
  }

  lemma {:induction false} ResolveFromIff(cands: seq<Coin>, held: set<Outpoint>, pins: seq<Outpoint>, seen: set<Outpoint>)
    ensures ResolveFrom(cands, held, pins, seen).Ok? <==>
            forall p :: p in pins && Key(p) !in seen ==> Choosable(cands, held, Key(p))
    decreases |pins|
  {
    if pins != [] {
      var key := Key(pins[0]);
      FindExact(cands, key);
      assert forall p :: p in pins <==> p == pins[0] || p in pins[1..];
      ResolveFromIff(cands, held, pins[1..], if key in seen then seen else seen + {key});
    }
  }

  lemma {:induction false} ResolveFromChosen(cands: seq<Coin>, held: set<Outpoint>, pins: seq<Outpoint>, seen: set<Outpoint>)
    requires ResolveFrom(cands, held, pins, seen).Ok?
    ensures Chosen(cands, pins, seen, ResolveFrom(cands, held, pins, seen).value)
    decreases |pins|
  {
    if pins != [] {
      var key := Key(pins[0]);
      FindExact(cands, key);
      var next := if key in seen then seen else seen + {key};
      ResolveFromChosen(cands, held, pins[1..], next);
      var rest := ResolveFrom(cands, held, pins[1..], next).value;
      if key in seen {
        ChosenSkip(cands, pins, seen, rest);
      } else {
        ChosenCons(cands, pins, seen, Find(cands, key).value, rest);
      }
    }
  }

  lemma ChosenSkip(cands: seq<Coin>, pins: seq<Outpoint>, seen: set<Outpoint>, rest: seq<Coin>)
    requires pins != [] && Key(pins[0]) in seen && Chosen(cands, pins[1..], seen, rest)
    ensures Chosen(cands, pins, seen, rest)
  {
  }

  lemma ChosenCons(cands: seq<Coin>, pins: seq<Outpoint>, seen: set<Outpoint>, c: Coin, rest: seq<Coin>)
    requires pins != [] && Key(pins[0]) == Key(c.Out()) && Key(c.Out()) !in seen && c in cands
    requires Chosen(cands, pins[1..], seen + {Key(c.Out())}, rest)
    ensures Chosen(cands, pins, seen, [c] + rest)
  {
  }

  /** The chosen coins resolve exactly when some are chosen and each is an unheld candidate; then
      the result is those candidates, each once. */
  lemma ResolveExact(cands: seq<Coin>, held: set<Outpoint>, pins: seq<Outpoint>)
    ensures var r := Resolve(cands, held, pins);
            && (r.Ok? <==> pins != [] && forall p :: p in pins ==> Choosable(cands, held, Key(p)))
            && (r.Ok? ==> r.value != [] && Chosen(cands, pins, {}, r.value))
  {
    ResolveFromIff(cands, held, pins, {});
    var r := Resolve(cands, held, pins);
    if r.Ok? {
      ResolveFromChosen(cands, held, pins, {});
      assert pins[0] in pins;
    }
  }

  /** The key `x` is given before any pin has the key `y`. */
  ghost predicate GivenBefore(pins: seq<Outpoint>, x: Outpoint, y: Outpoint) {
    exists a :: 0 <= a < |pins| && Key(pins[a]) == x && forall b :: 0 <= b <= a ==> Key(pins[b]) != y
  }

  ghost predicate OrderedBy(pins: seq<Outpoint>, coins: seq<Coin>) {
    forall i, j :: 0 <= i < j < |coins| ==> GivenBefore(pins, Key(coins[i].Out()), Key(coins[j].Out()))
  }

  lemma GivenLater(pins: seq<Outpoint>, x: Outpoint, y: Outpoint)
    requires pins != [] && GivenBefore(pins[1..], x, y) && Key(pins[0]) != y
    ensures GivenBefore(pins, x, y)
  {
    var a :| 0 <= a < |pins[1..]| && Key(pins[1..][a]) == x && forall b :: 0 <= b <= a ==> Key(pins[1..][b]) != y;
    assert pins[a + 1] == pins[1..][a];
    forall b | 0 <= b <= a + 1 ensures Key(pins[b]) != y {
      assert b > 0 ==> pins[b] == pins[1..][b - 1];
    }
  }

  lemma OrderedLater(pins: seq<Outpoint>, coins: seq<Coin>)
    requires pins != [] && OrderedBy(pins[1..], coins) && forall c :: c in coins ==> Key(c.Out()) != Key(pins[0])
    ensures OrderedBy(pins, coins)
  {
    forall i, j | 0 <= i < j < |coins| ensures GivenBefore(pins, Key(coins[i].Out()), Key(coins[j].Out())) {
      assert coins[j] in coins;
      GivenLater(pins, Key(coins[i].Out()), Key(coins[j].Out()));
    }
  }

  lemma OrderedFirst(pins: seq<Outpoint>, c: Coin, rest: seq<Coin>)
    requires pins != [] && Key(c.Out()) == Key(pins[0]) && OrderedBy(pins, rest)
    requires forall d :: d in rest ==> Key(d.Out()) != Key(c.Out())
    ensures OrderedBy(pins, [c] + rest)
  {
    var coins := [c] + rest;
    forall i, j | 0 <= i < j < |coins| ensures GivenBefore(pins, Key(coins[i].Out()), Key(coins[j].Out())) {
      assert coins[j] == rest[j - 1] && coins[j] in rest;
      if i > 0 {
        assert coins[i] == rest[i - 1];
      }
    }
  }

  lemma {:induction false} ResolveFromOrder(cands: seq<Coin>, held: set<Outpoint>, pins: seq<Outpoint>, seen: set<Outpoint>)
    requires ResolveFrom(cands, held, pins, seen).Ok?
    ensures OrderedBy(pins, ResolveFrom(cands, held, pins, seen).value)
    decreases |pins|
  {
    if pins != [] {
      var key := Key(pins[0]);
      FindExact(cands, key);
      var next := if key in seen then seen else seen + {key};
      ResolveFromOrder(cands, held, pins[1..], next);
      ResolveFromChosen(cands, held, pins[1..], next);
      var rest := ResolveFrom(cands, held, pins[1..], next).value;
      OrderedLater(pins, rest);
      if key !in seen {
        OrderedFirst(pins, Find(cands, key).value, rest);
      }
    }
  }

  /** Chosen coins are spent in the order their pins are first given. */
  lemma ResolveKeepsOrder(cands: seq<Coin>, held: set<Outpoint>, pins: seq<Outpoint>)
    ensures var r := Resolve(cands, held, pins);
            r.Ok? ==> OrderedBy(pins, r.value)
  {
    if Resolve(cands, held, pins).Ok? {
      ResolveFromOrder(cands, held, pins, {});
    }
  }

  function FaultOf(held: set<Outpoint>, key: Outpoint): string {
    if key in held then "a chosen coin is held" else "a chosen coin is not spendable"
  }

  lemma {:induction false} ResolveFromFault(cands: seq<Coin>, held: set<Outpoint>, pins: seq<Outpoint>, seen: set<Outpoint>) returns (i: nat)
    requires ResolveFrom(cands, held, pins, seen).Err?
    ensures i < |pins| && Key(pins[i]) !in seen && !Choosable(cands, held, Key(pins[i]))
    ensures forall k :: 0 <= k < i && Key(pins[k]) !in seen ==> Choosable(cands, held, Key(pins[k]))
    ensures ResolveFrom(cands, held, pins, seen) == Err(FaultOf(held, Key(pins[i])))
    decreases |pins|
  {
    var key := Key(pins[0]);
    FindExact(cands, key);
    if key !in seen && !Choosable(cands, held, key) {
      i := 0;
    } else {
      var next := if key in seen then seen else seen + {key};
      i := ResolveFromFault(cands, held, pins[1..], next);
      i := i + 1;
      assert forall k :: 1 <= k < |pins| ==> pins[k] == pins[1..][k - 1];
    }
  }

  /** A refusal names the fault of the first pin that cannot be spent. */
  lemma ResolveNamesFirstFault(cands: seq<Coin>, held: set<Outpoint>, pins: seq<Outpoint>) returns (i: nat)
    requires pins != [] && Resolve(cands, held, pins).Err?
    ensures i < |pins| && !Choosable(cands, held, Key(pins[i])) && forall k :: 0 <= k < i ==> Choosable(cands, held, Key(pins[k]))
    ensures Resolve(cands, held, pins) == Err(FaultOf(held, Key(pins[i])))
  {
    i := ResolveFromFault(cands, held, pins, {});
  }

  // ── The automatic pick ───────────────────────────────────────────────────

  function Values(coins: seq<Coin>): seq<nat> {
    seq(|coins|, i requires 0 <= i < |coins| => coins[i].value)
  }

  function SilentFlags(coins: seq<Coin>): seq<bool> {
    seq(|coins|, i requires 0 <= i < |coins| => coins[i].chain == CHAIN_SP)
  }

  function MixedFlags(coins: seq<Coin>): seq<bool> {
    seq(|coins|, i requires 0 <= i < |coins| => coins[i].Mixed())
  }

  /** The silent-payment coins alone if they cover, else every coin with mixed coins last. */
  function AutoPick(coins: seq<Coin>, need: nat -> nat): Option<seq<nat>> {
    var values, silent := Values(coins), Mixed(Values(coins), SilentFlags(coins));
    match (if silent == [] then None else Pick(Gather(values, silent), need))
    case Some(c) =>
      PickThrough(values, silent, need);
      Some(Through(silent, c))
    case None => PickMixedLast(values, MixedFlags(coins), need)
  }

  function At(coins: seq<Coin>, idx: seq<nat>): seq<Coin>
    requires Within(Values(coins), idx)
  {
    seq(|idx|, i requires 0 <= i < |idx| => coins[idx[i]])
  }

  ghost predicate SomeCovers(coins: seq<Coin>, need: nat -> nat) {
    exists s :: Covers(Values(coins), need, s)
  }

  ghost predicate SomeSilentCovers(coins: seq<Coin>, need: nat -> nat) {
    exists s :: s <= MixedSet(Values(coins), SilentFlags(coins)) && Covers(Values(coins), need, s)
  }

  lemma SilentCase(coins: seq<Coin>, need: nat -> nat)
    ensures SomeSilentCovers(coins, need) ==>
              var r := AutoPick(coins, need);
              r.Some? && OptimalPick(Values(coins), MixedSet(Values(coins), SilentFlags(coins)), need, r.value)
    ensures !SomeSilentCovers(coins, need) ==> AutoPick(coins, need) == PickMixedLast(Values(coins), MixedFlags(coins), need)
  {
    var values, silent := Values(coins), Mixed(Values(coins), SilentFlags(coins));
    SplitSets(values, SilentFlags(coins));
    PickThrough(values, silent, need);
    PickAmongOptimal(values, silent, need);
    if silent == [] {
      assert forall s :: s <= ToSet(silent) ==> s == {};
    }
  }

  lemma PickIsAmong(values: seq<nat>, among: set<nat>, need: nat -> nat, c: seq<nat>, i: nat)
    requires OptimalPick(values, among, need, c) && i in c
    ensures i in among
  {
  }

  /** Only silent-payment coins are picked when some set of them covers. */
  lemma AutoPickSilent(coins: seq<Coin>, need: nat -> nat)
    requires SomeSilentCovers(coins, need)
    ensures var r := AutoPick(coins, need);
            r.Some? && forall i :: i in r.value ==> i < |coins| && coins[i].chain == CHAIN_SP
  {
    SilentCase(coins, need);
    var c := AutoPick(coins, need).value;
    forall i | i in c ensures i < |coins| && coins[i].chain == CHAIN_SP {
      PickIsAmong(Values(coins), MixedSet(Values(coins), SilentFlags(coins)), need, c, i);
    }
  }

  /** Else no mixed coin is picked when some unmixed set covers. */
  lemma AutoPickPlain(coins: seq<Coin>, need: nat -> nat)
    requires !SomeSilentCovers(coins, need) && SomePlainCovers(Values(coins), MixedFlags(coins), need)
    ensures var r := AutoPick(coins, need);
            r.Some? && forall i :: i in r.value ==> i < |coins| && !coins[i].Mixed()
  {
    SilentCase(coins, need);
    PlainCase(Values(coins), MixedFlags(coins), need);
    var c := PickMixedLast(Values(coins), MixedFlags(coins), need).value;
    forall i | i in c ensures i < |coins| && !coins[i].Mixed() {
      PickIsAmong(Values(coins), PlainSet(Values(coins), MixedFlags(coins)), need, c, i);
    }
  }

  lemma AutoPickCovers(coins: seq<Coin>, need: nat -> nat)
    ensures var r := AutoPick(coins, need);
            r.Some? ==> && Within(Values(coins), r.value) && Distinct(r.value) && r.value != []
                        && Sum(Values(coins), r.value) >= need(|r.value|)
  {
    SilentCase(coins, need);
    PickedCovers(Values(coins), MixedFlags(coins), need);
    var r := AutoPick(coins, need);
    if r.Some? {
      assert Covers(Values(coins), need, ToSet(r.value)) && |ToSet(r.value)| == |r.value| && Distinct(r.value);
      forall i | 0 <= i < |r.value| ensures r.value[i] < |coins| {
        assert r.value[i] in ToSet(r.value);
      }
      ListSum(Values(coins), r.value);
    }
  }

  lemma {:induction false} PickedValue(coins: seq<Coin>, idx: seq<nat>)
    requires Within(Values(coins), idx)
    ensures TotalValue(At(coins, idx)) == Sum(Values(coins), idx)
    decreases |idx|
  {
    if idx != [] {
      var n := |idx| - 1;
      PickedValue(coins, idx[..n]);
      assert At(coins, idx) == At(coins, idx[..n]) + [coins[idx[n]]];
      SumByAppend(ValueOf, At(coins, idx[..n]), [coins[idx[n]]]);
    }
  }

  // ── select_funding_coins and build_funding_tx_with ───────────────────────

  function SelectAuto(cands: seq<Coin>, value: nat, rate: nat): Result<seq<Coin>> {
    match AutoPick(cands, Need(value, rate))
    case None => Err("insufficient funds for channel")
    case Some(idx) =>
      AutoPickCovers(cands, Need(value, rate));
      Ok(At(cands, idx))
  }

  function SelectChosen(cands: seq<Coin>, held: set<Outpoint>, pins: seq<Outpoint>, value: nat, rate: nat): Result<seq<Coin>> {
    match Resolve(cands, held, pins)
    case Err(m) => Err(m)
    case Ok(coins) =>
      if TotalValue(coins) >= value + FundingFee(coins, rate) then Ok(coins)
      else Err("your chosen coins do not cover this channel")
  }

  function SelectFunding(w: Wallet, value: nat, rate: nat, pins: Option<seq<Outpoint>>): Result<seq<Coin>> {
    var cands := Candidates(w);
    if cands == [] then Err("no spendable on-chain funds to open a channel")
    else match pins
      case None => SelectAuto(cands, value, rate)
      case Some(p) => SelectChosen(cands, w.held, p, value, rate)
  }

  datatype FundingTx = FundingTx(coins: seq<Coin>, outputs: seq<nat>, fee: nat, change: nat)

  /** After the pick: the two checks, then the change as an output, or in the fee when it is dust. */
  function Finish(pending: seq<Pending>, coins: seq<Coin>, value: nat, rate: nat): Result<FundingTx> {
    var fee := FundingFee(coins, rate);
    if exists c :: c in coins && c.Out() in Reserved(pending) then Err("coin already committed to a pending transaction")
    else if TotalValue(coins) < value + fee then Err("insufficient funds for channel")
    else
      var change := TotalValue(coins) - value - fee;
      if change >= DUST_THRESHOLD then Ok(FundingTx(coins, [value, change], fee, change))
      else Ok(FundingTx(coins, [value], fee + change, 0))
  }

  function Build(w: Wallet, value: nat, rate: nat, pins: Option<seq<Outpoint>>): Result<FundingTx> {
    if value < MIN_CHANNEL then Err("channel value below the minimum")
    else match SelectFunding(w, value, rate, pins)
      case Err(m) => Err(m)
      case Ok(coins) => Finish(w.pending, coins, value, rate)
  }

  method FinishFunding(pending: seq<Pending>, coins: seq<Coin>, value: nat, rate: nat) returns (r: Result<FundingTx>)
    ensures r == Finish(pending, coins, value, rate)
  {
    var reserved := Reserved(pending);
    var totalIn := 0;
    var committed := false;
    assert coins[0..] == coins;
    for i := 0 to |coins|
      invariant totalIn + SumBy(ValueOf, coins[i..]) == TotalValue(coins)
      invariant committed <==> exists k :: 0 <= k < i && coins[k].Out() in reserved
    {
      assert coins[i..][1..] == coins[i + 1..];
      totalIn := totalIn + coins[i].value;
      committed := committed || coins[i].Out() in reserved;
    }
    if committed {
      return Err("coin already committed to a pending transaction");
    }
    var fee := FundingFee(coins, rate);
    if totalIn < value + fee {
      return Err("insufficient funds for channel");
    }
    var change := totalIn - value - fee;
    var outputs := [value];
    if change >= DUST_THRESHOLD {
      outputs := outputs + [change];
      assert outputs == [value, change];
    } else {
      fee := fee + change;
      change := 0;
    }
    return Ok(FundingTx(coins, outputs, fee, change));
  }

  method BuildFundingTx(w: Wallet, value: nat, rate: nat, pins: Option<seq<Outpoint>>) returns (r: Result<FundingTx>)
    ensures r == Build(w, value, rate, pins)
  {
    if value < MIN_CHANNEL {
      return Err("channel value below the minimum");
    }
    var selected := SelectFunding(w, value, rate, pins);
    if selected.Err? {
      return Err(selected.message);
    }
    r := FinishFunding(w.pending, selected.value, value, rate);
  }

  ghost predicate Balanced(coins: seq<Coin>, value: nat, rate: nat, tx: FundingTx) {
    && tx.coins == coins
    && TotalValue(coins) == value + tx.change + tx.fee
    && (tx.change == 0 || tx.change >= DUST_THRESHOLD)
    && FundingFee(coins, rate) <= tx.fee < FundingFee(coins, rate) + DUST_THRESHOLD
    && (tx.change > 0 ==> tx.fee == FundingFee(coins, rate))
    && tx.outputs == [value] + (if tx.change > 0 then [tx.change] else [])
  }

  lemma FinishBalances(pending: seq<Pending>, coins: seq<Coin>, value: nat, rate: nat)
    ensures var r := Finish(pending, coins, value, rate);
            && (r.Ok? ==> Balanced(coins, value, rate, r.value))
            && (r.Ok? <==> TotalValue(coins) >= value + FundingFee(coins, rate)
                           && forall c :: c in coins ==> c.Out() !in Reserved(pending))
  {
  }

  lemma SelectedEnough(w: Wallet, value: nat, rate: nat, pins: Option<seq<Outpoint>>)
    ensures var r := SelectFunding(w, value, rate, pins);
            r.Ok? ==> TotalValue(r.value) >= value + FundingFee(r.value, rate) && r.value != []
                      && forall c :: c in r.value ==> c in Candidates(w)
  {
    var cands, need := Candidates(w), Need(value, rate);
    if pins.None? {
      AutoPickCovers(cands, need);
      var idx := AutoPick(cands, need);
      if idx.Some? {
        PickedValue(cands, idx.value);
        EstimateIsEnough(At(cands, idx.value), rate);
        assert need(|idx.value|) == value + EstimateFee(|idx.value|, rate);
      }
    } else {
      ResolveExact(cands, w.held, pins.value);
    }
  }

  /** The checks after the pick never fire: an open of at least the minimum builds exactly when the
      coins are selected. */
  lemma BuildsIffSelected(w: Wallet, value: nat, rate: nat, pins: Option<seq<Outpoint>>)
    requires Formed(w)
    ensures Build(w, value, rate, pins).Ok? <==> value >= MIN_CHANNEL && SelectFunding(w, value, rate, pins).Ok?
  {
    SelectedEnough(w, value, rate, pins);
    CandidatesExact(w);
    var r := SelectFunding(w, value, rate, pins);
    if r.Ok? {
      FinishBalances(w.pending, r.value, value, rate);
    }
  }

  /** Every built transaction balances: inputs are channel, change and fee; the change is none or at
      least dust; the fee is the coins' own fee plus less than a dust output. */
  lemma BuildBalances(w: Wallet, value: nat, rate: nat, pins: Option<seq<Outpoint>>)
    ensures var r, selected := Build(w, value, rate, pins), SelectFunding(w, value, rate, pins);
            r.Ok? ==> selected.Ok? && Balanced(selected.value, value, rate, r.value)
  {
    var selected := SelectFunding(w, value, rate, pins);
    if selected.Ok? {
      FinishBalances(w.pending, selected.value, value, rate);
    }
  }

  lemma FeeReaches(size: nat, rate: nat)
    ensures 250 * (size * SatPerVb(rate)) >= size * rate
    ensures SatPerVb(rate) > 1 && size > 0 ==> 250 * (size * SatPerVb(rate)) < size * (rate + 250)
  {
    var r := SatPerVb(rate);
    assert 250 * (size * r) == size * (250 * r);
    MulOrder(size, rate, 250 * r);
    if r > 1 && size > 0 {
      MulOrder(size, 250 * r + 1, rate + 250);
      assert size * (250 * r + 1) == size * (250 * r) + size;
    }
  }

  lemma MulOrder(size: nat, a: nat, b: nat)
    requires a <= b
    ensures size * a <= size * b
  {
  }

  lemma RateBounds(size: nat, rate: nat, fee: nat)
    requires size > 0 && size * SatPerVb(rate) <= fee < size * SatPerVb(rate) + DUST_THRESHOLD
    ensures 250 * fee >= size * rate
    ensures rate > 250 ==> 250 * fee < size * (rate + 250) + 250 * DUST_THRESHOLD
  {
    FeeReaches(size, rate);
  }

  /** Every built transaction pays at least the rate asked for on the real size of its inputs and two
      outputs; and, above the least rate, less than one sat a vbyte more, and less than a dust output. */
  lemma BuildReachesRate(w: Wallet, value: nat, rate: nat, pins: Option<seq<Outpoint>>)
    ensures var r := Build(w, value, rate, pins);
            r.Ok? ==>
              && 250 * r.value.fee >= Vsize(r.value.coins) * rate
              && (rate > 250 ==> 250 * r.value.fee < Vsize(r.value.coins) * (rate + 250) + 250 * DUST_THRESHOLD)
  {
    BuildBalances(w, value, rate, pins);
    var r := Build(w, value, rate, pins);
    if r.Ok? {
      RateBounds(Vsize(r.value.coins), rate, r.value.fee);
    }
  }

  /** Nothing below 5000 sats builds, and change is 294 at least or none: a smaller rest goes to the fee. */
  lemma BuildBounds(w: Wallet, value: nat, rate: nat, pins: Option<seq<Outpoint>>)
    ensures var r := Build(w, value, rate, pins);
            && (value < 5_000 ==> r.Err?)
            && (r.Ok? ==> r.value.change == 0 || r.value.change >= 294)
            && (r.Ok? && r.value.change == 0 ==> r.value.fee < FundingFee(r.value.coins, rate) + 294)
  {
    BuildBalances(w, value, rate, pins);
  }

  /** The wallet's own floor of 253 and one P2WPKH coin: two sats a vbyte, 282 in all. */
  lemma FloorRateFee(c: Coin)
    requires !c.Taproot()
    ensures FundingFee([c], 253) == 282
  {
    assert [c][1..] == [] && SumBy(Vbytes, []) == 0;
    assert SumBy(Vbytes, [c]) == 68;
  }

  lemma AutoBuildSpends(w: Wallet, value: nat, rate: nat)
    ensures var tx, r := Build(w, value, rate, None), AutoPick(Candidates(w), Need(value, rate));
            tx.Ok? ==> r.Some? && Within(Values(Candidates(w)), r.value) && tx.value.coins == At(Candidates(w), r.value)
  {
    AutoPickCovers(Candidates(w), Need(value, rate));
  }

  ghost predicate Prefers(cands: seq<Coin>, need: nat -> nat, spent: seq<Coin>) {
    && (SomeSilentCovers(cands, need) ==> forall c :: c in spent ==> c.chain == CHAIN_SP)
    && (!SomeSilentCovers(cands, need) && SomePlainCovers(Values(cands), MixedFlags(cands), need) ==>
          forall c :: c in spent ==> !c.Mixed())
  }

  lemma PickPrefers(cands: seq<Coin>, need: nat -> nat)
    ensures var r := AutoPick(cands, need);
            r.Some? ==> Within(Values(cands), r.value) && Prefers(cands, need, At(cands, r.value))
  {
    AutoPickCovers(cands, need);
    var r := AutoPick(cands, need);
    if r.Some? {
      assert forall k :: 0 <= k < |r.value| ==> r.value[k] in r.value;
      if SomeSilentCovers(cands, need) {
        AutoPickSilent(cands, need);
      } else if SomePlainCovers(Values(cands), MixedFlags(cands), need) {
        AutoPickPlain(cands, need);
      }
    }
  }

  /** An automatic open spends silent-payment coins only when some set of them covers, else no mixed
      coin when some unmixed set covers. */
  lemma AutoBuildPrefers(w: Wallet, value: nat, rate: nat)
    ensures var tx := Build(w, value, rate, None);
            tx.Ok? ==> Prefers(Candidates(w), Need(value, rate), tx.value.coins)
  {
    AutoBuildSpends(w, value, rate);
    PickPrefers(Candidates(w), Need(value, rate));
  }
}
