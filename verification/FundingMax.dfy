/**
 The largest channel the wallet quotes (lij/lij-core/src/channel_open.rs, max_channel_value_with)
 against what the builder accepts: exact for chosen coins; for the automatic pick, which counts every
 coin at 68 vB, the exact condition for every wallet.
 */
module FundingMax {
  import opened Prelude
  import opened Text
  import opened CoinSelect
  import opened MixedLast
  import opened WalletCoins
  import opened ChannelOpen

  /** The quote's own list: the view's coins largest first, then the unconfirmed change. */
  function QuoteCoins(w: Wallet): seq<Coin> {
    SortDown(ValueOf, FreeCoins(w, w.view)) + ChangeCandidates(w)
  }

  function Room(coins: seq<Coin>, rate: nat): nat {
    var overhead := FundingFee(coins, rate) + ANCHOR_FEE_RESERVE;
    if coins == [] || TotalValue(coins) < overhead then 0 else TotalValue(coins) - overhead
  }

  function MaxChannelValue(w: Wallet, rate: nat, pins: Option<seq<Outpoint>>): Result<nat> {
    match pins
    case None => Ok(Room(QuoteCoins(w), rate))
    case Some(p) =>
      match Resolve(QuoteCoins(w), w.held, p)
      case Err(m) => Err(m)
      case Ok(coins) => Ok(Room(coins, rate))
  }

  // ── The quote and the build see the same coins ───────────────────────────

  ghost predicate SameCoins(a: seq<Coin>, b: seq<Coin>) {
    && (forall c :: c in a <==> c in b)
    && (forall c, d :: c in a && d in a && Key(c.Out()) == Key(d.Out()) ==> c == d)
  }

  lemma FindSame(a: seq<Coin>, b: seq<Coin>, key: Outpoint)
    requires SameCoins(a, b)
    ensures Find(a, key) == Find(b, key)
  {
    FindExact(a, key);
    FindExact(b, key);
  }

  lemma {:induction false} ResolveSame(a: seq<Coin>, b: seq<Coin>, held: set<Outpoint>, pins: seq<Outpoint>, seen: set<Outpoint>)
    requires SameCoins(a, b)
    ensures ResolveFrom(a, held, pins, seen) == ResolveFrom(b, held, pins, seen)
    decreases |pins|
  {
    if pins != [] {
      var key := Key(pins[0]);
      FindSame(a, b, key);
      ResolveSame(a, b, held, pins[1..], seen);
      ResolveSame(a, b, held, pins[1..], seen + {key});
    }
  }

  lemma QuoteSeesCandidates(w: Wallet)
    requires Formed(w)
    ensures SameCoins(QuoteCoins(w), Candidates(w))
    ensures TotalValue(QuoteCoins(w)) == TotalValue(Candidates(w))
    ensures SumBy(Vbytes, QuoteCoins(w)) == SumBy(Vbytes, Candidates(w))
  {
    var free, change := FreeCoins(w, w.view), ChangeCandidates(w);
    var sorted := SortDown(ValueOf, free);
    SortDownKeeps(ValueOf, ValueOf, free);
    SortDownKeeps(ValueOf, Vbytes, free);
    SumByAppend(ValueOf, sorted, change);
    SumByAppend(ValueOf, free, change);
    SumByAppend(Vbytes, sorted, change);
    SumByAppend(Vbytes, free, change);
    forall c ensures c in sorted <==> c in free {
      SortDownMembers(ValueOf, free, c);
    }
    CandidatesExact(w);
    UniqueKeys(Candidates(w));
  }

  lemma UniqueKeys(coins: seq<Coin>)
    requires DistinctOuts(coins) && forall c :: c in coins ==> LowerCase(c.Out())
    ensures forall c, d :: c in coins && d in coins && Key(c.Out()) == Key(d.Out()) ==> c == d
  {
  }

  /** Chosen coins: a channel of at least the minimum size builds exactly when the quote answers and
      is at least its value. */
  lemma ChosenBuildsIffWithinMax(w: Wallet, value: nat, rate: nat, pins: seq<Outpoint>)
    requires Formed(w) && value >= MIN_CHANNEL
    ensures Build(w, value, rate, Some(pins)).Ok? <==>
            var max := MaxChannelValue(w, rate, Some(pins));
            max.Ok? && value <= max.value
  {
    BuildsIffSelected(w, value, rate, Some(pins));
    QuoteSeesCandidates(w);
    ResolveSame(QuoteCoins(w), Candidates(w), w.held, pins, {});
    ChosenFits(Candidates(w), w.held, pins, value, rate);
    ResolveExact(Candidates(w), w.held, pins);
  }

  lemma ChosenFits(cands: seq<Coin>, held: set<Outpoint>, pins: seq<Outpoint>, value: nat, rate: nat)
    requires value >= MIN_CHANNEL
    ensures var r := Resolve(cands, held, pins);
            SelectChosen(cands, held, pins, value, rate).Ok? <==> r.Ok? && value <= Room(r.value, rate)
  {
  }

  // ── The automatic pick ───────────────────────────────────────────────────

  /** Whether the automatic pick affords a channel: its value and 73 vB, with 68 vB an input. */
  ghost predicate AutoAffords(cands: seq<Coin>, value: int, rate: nat) {
    Affords(Values(cands), MixedFlags(cands), value + 73 * SatPerVb(rate), 68 * SatPerVb(rate))
  }

  /** Silent-payment coins are plain, so a covering set of them is no further case. */
  lemma AutoPickAnswers(cands: seq<Coin>, need: nat -> nat)
    ensures AutoPick(cands, need).Some? <==> PickMixedLast(Values(cands), MixedFlags(cands), need).Some?
  {
    SilentCase(cands, need);
    if SomeSilentCovers(cands, need) {
      var s :| s <= MixedSet(Values(cands), SilentFlags(cands)) && Covers(Values(cands), need, s);
      assert s <= PlainSet(Values(cands), MixedFlags(cands));
      PlainCase(Values(cands), MixedFlags(cands), need);
    }
  }

  lemma AutoPickAffords(cands: seq<Coin>, need: nat -> nat, amount: nat, fee: nat)
    requires need == Linear(amount, fee) && amount > 0
    ensures AutoPick(cands, need).Some? <==> Affords(Values(cands), MixedFlags(cands), amount, fee)
  {
    AutoPickAnswers(cands, need);
    AnswersIff(Values(cands), MixedFlags(cands), amount, fee);
  }

  lemma AutoSelectsIff(cands: seq<Coin>, value: nat, rate: nat)
    requires value > 0
    ensures SelectAuto(cands, value, rate).Ok? <==> AutoAffords(cands, value, rate)
  {
    AutoPickAffords(cands, Need(value, rate), value + 73 * SatPerVb(rate), 68 * SatPerVb(rate));
  }

  /** Every wallet: an automatic open builds exactly when its value with 73 vB is at most what the
      unmixed candidates worth a 68-vB input carry, or one mixed candidate, or all unmixed candidates
      with the mixed ones worth their input. */
  lemma AutoBuildsIff(w: Wallet, value: nat, rate: nat)
    requires Formed(w) && value >= MIN_CHANNEL
    ensures Build(w, value, rate, None).Ok? <==> AutoAffords(Candidates(w), value, rate)
  {
    BuildsIffSelected(w, value, rate, None);
    AutoSelectsIff(Candidates(w), value, rate);
  }

  lemma FeeSplit(n: nat, t: int, r: nat)
    ensures (11 + (68 * n - 10 * t) + 31 * 2) * r == 73 * r + (68 * r) * n - 10 * r * t
  {
  }

  /** What all the coins carry at 68 vB an input. */
  lemma AllNet(coins: seq<Coin>, rate: nat)
    ensures Net(Values(coins), 68 * SatPerVb(rate), All(Values(coins))) ==
            TotalValue(coins) - EstimateFee(|coins|, rate) + 73 * SatPerVb(rate)
  {
    var all := Range(|coins|);
    ListSum(Values(coins), all);
    PickedValue(coins, all);
    assert At(coins, all) == coins;
    FeeSplit(|coins|, 0, SatPerVb(rate));
  }

  /** Every value up to the total minus the 68-vB fee of all the coins builds automatically. */
  lemma AutoBuildsUpTo(w: Wallet, value: nat, rate: nat)
    requires Formed(w) && value >= MIN_CHANNEL
    requires value + EstimateFee(|Candidates(w)|, rate) <= TotalValue(Candidates(w))
    ensures Build(w, value, rate, None).Ok?
  {
    var r := SatPerVb(rate);
    AutoBuildsIff(w, value, rate);
    AllNet(Candidates(w), rate);
    LastSetNets(Values(Candidates(w)), MixedFlags(Candidates(w)), 68 * r);
  }

  lemma AutoCovers(cands: seq<Coin>, value: nat, rate: nat)
    requires SelectAuto(cands, value, rate).Ok?
    ensures SomeCovers(cands, Need(value, rate))
  {
    var need := Need(value, rate);
    AutoPickCovers(cands, need);
    var idx := AutoPick(cands, need).value;
    ListSum(Values(cands), idx);
    assert idx[0] in ToSet(idx);
    assert Covers(Values(cands), need, ToSet(idx));
  }

  ghost predicate NoneRefused(cands: seq<Coin>, rate: nat) {
    NothingRefused(Values(cands), MixedFlags(cands), 68 * SatPerVb(rate))
  }

  lemma AutoSelectsCovered(cands: seq<Coin>, value: nat, rate: nat)
    requires NoneRefused(cands, rate) && SomeCovers(cands, Need(value, rate))
    ensures SelectAuto(cands, value, rate).Ok?
  {
    var r := SatPerVb(rate);
    AnswersCovered(Values(cands), MixedFlags(cands), Need(value, rate), value + 73 * r, 68 * r);
    AutoPickAnswers(cands, Need(value, rate));
  }

  /** An automatic open builds only if some set of candidates covers at 68 vB an input; and it does
      whenever one covers, if no coverable amount is refused by the pick. */
  lemma AutoBuildsIffCovered(w: Wallet, value: nat, rate: nat)
    requires Formed(w) && value >= MIN_CHANNEL
    ensures Build(w, value, rate, None).Ok? ==> SomeCovers(Candidates(w), Need(value, rate))
    ensures NoneRefused(Candidates(w), rate) ==>
              (Build(w, value, rate, None).Ok? <==> SomeCovers(Candidates(w), Need(value, rate)))
  {
    var cands := Candidates(w);
    BuildsIffSelected(w, value, rate, None);
    if SelectAuto(cands, value, rate).Ok? {
      AutoCovers(cands, value, rate);
    } else if NoneRefused(cands, rate) && SomeCovers(cands, Need(value, rate)) {
      AutoSelectsCovered(cands, value, rate);
    }
  }

  lemma QuotedRoom(w: Wallet, rate: nat)
    requires Formed(w)
    ensures MaxChannelValue(w, rate, None) == Ok(Room(Candidates(w), rate))
  {
    QuoteSeesCandidates(w);
    var a, b := QuoteCoins(w), Candidates(w);
    assert FundingFee(a, rate) == FundingFee(b, rate);
    assert a != [] ==> a[0] in b;
    assert b != [] ==> b[0] in a;
  }

  function TaprootOne(c: Coin): nat {
    if c.Taproot() then 1 else 0
  }

  function Taproots(coins: seq<Coin>): nat {
    SumBy(TaprootOne, coins)
  }

  lemma {:induction false} TaprootSizes(coins: seq<Coin>)
    ensures SumBy(Vbytes, coins) == 68 * |coins| - 10 * Taproots(coins)
    ensures Taproots(coins) == 0 <==> forall c :: c in coins ==> !c.Taproot()
    decreases |coins|
  {
    if coins != [] {
      TaprootSizes(coins[1..]);
      assert forall c :: c in coins <==> c == coins[0] || c in coins[1..];
    }
  }

  /** The quoted Max is what all the coins carry at 68 vB an input, and 10 vB for each taproot coin. */
  lemma RoomNet(coins: seq<Coin>, rate: nat)
    requires Room(coins, rate) > 0
    ensures Room(coins, rate) + 73 * SatPerVb(rate) ==
            Net(Values(coins), 68 * SatPerVb(rate), All(Values(coins))) + 10 * SatPerVb(rate) * Taproots(coins)
  {
    AllNet(coins, rate);
    TaprootSizes(coins);
    FeeSplit(|coins|, 0, SatPerVb(rate));
    FeeSplit(|coins|, Taproots(coins), SatPerVb(rate));
  }

  /** Every wallet: the quoted Max builds automatically exactly when the candidates afford what they
      all carry together and the 10 vB that the quote saves on each taproot coin. */
  lemma QuotedMaxBuildsIff(w: Wallet, rate: nat)
    requires Formed(w) && MaxChannelValue(w, rate, None).value >= MIN_CHANNEL
    ensures var cands, r := Candidates(w), SatPerVb(rate);
            Build(w, MaxChannelValue(w, rate, None).value, rate, None).Ok? <==>
            Affords(Values(cands), MixedFlags(cands), Net(Values(cands), 68 * r, All(Values(cands))) + 10 * r * Taproots(cands), 68 * r)
  {
    QuotedRoom(w, rate);
    RoomNet(Candidates(w), rate);
    AutoBuildsIff(w, Room(Candidates(w), rate), rate);
  }

  /** Where the pick refuses nothing coverable: exactly when the 10 vB saved on each taproot coin is
      no more than what the coins not worth their input cost. */
  lemma QuotedMaxBuildsIffDust(w: Wallet, rate: nat)
    requires Formed(w) && NoneRefused(Candidates(w), rate)
    requires MaxChannelValue(w, rate, None).value >= MIN_CHANNEL
    ensures var cands, r := Candidates(w), SatPerVb(rate);
            Build(w, MaxChannelValue(w, rate, None).value, rate, None).Ok? <==>
            10 * r * Taproots(cands) <= -Net(Values(cands), 68 * r, Dust(Values(cands), 68 * r))
  {
    var cands, r := Candidates(w), SatPerVb(rate);
    QuotedMaxBuildsIff(w, rate);
    QuotedRoom(w, rate);
    RoomNet(cands, rate);
    AffordsExcess(Values(cands), MixedFlags(cands), Room(cands, rate) + 73 * r, 10 * r * Taproots(cands), 68 * r);
  }

  ghost predicate EachPaysItsWay(coins: seq<Coin>, rate: nat) {
    forall c :: c in coins ==> c.value >= 68 * SatPerVb(rate)
  }

  lemma PayingDust(coins: seq<Coin>, rate: nat)
    requires EachPaysItsWay(coins, rate)
    ensures var fee := 68 * SatPerVb(rate);
            NoneRefused(coins, rate) && Net(Values(coins), fee, Dust(Values(coins), fee)) == 0
  {
    AllHolds(Values(coins));
    forall i | 0 <= i < |coins| ensures Values(coins)[i] >= 68 * SatPerVb(rate) {
      assert coins[i] in coins;
    }
    NetSign(Values(coins), 68 * SatPerVb(rate), Dust(Values(coins), 68 * SatPerVb(rate)));
  }

  /** When each candidate is worth its 68-vB input: exactly when none is a taproot coin. */
  lemma QuotedMaxBuildsIffPlain(w: Wallet, rate: nat)
    requires Formed(w) && EachPaysItsWay(Candidates(w), rate)
    requires MaxChannelValue(w, rate, None).value >= MIN_CHANNEL
    ensures Build(w, MaxChannelValue(w, rate, None).value, rate, None).Ok? <==>
            forall c :: c in Candidates(w) ==> !c.Taproot()
  {
    PayingDust(Candidates(w), rate);
    QuotedMaxBuildsIffDust(w, rate);
    TaprootSizes(Candidates(w));
    NoSaving(SatPerVb(rate), Taproots(Candidates(w)));
  }

  lemma NoSaving(r: nat, t: nat)
    requires r >= 1
    ensures 10 * r * t <= 0 <==> t == 0
  {
  }

  lemma SoleSilentCoin(w: Wallet, c: Coin)
    requires w == Wallet([c], [], {}) && c == Coin("ab", 0, 100_000, CHAIN_SP, false, true)
    ensures Formed(w) && Candidates(w) == [c]
  {
    assert Lower("ab") == "ab";
    assert [c][1..] == [] && FreeCoins(w, []) == [];
    assert Newest([]) == [] && ChangeCandidates(w) == [];
  }

  lemma SoleSilentRoom(c: Coin)
    requires c == Coin("ab", 0, 100_000, CHAIN_SP, false, true)
    ensures Room([c], 250) == 99_869 && EachPaysItsWay([c], 250)
  {
    assert [c][1..] == [] && SumBy(ValueOf, []) == 0 && SumBy(Vbytes, []) == 0;
    assert Vbytes(c) == 58 && ValueOf(c) == 100_000;
  }

  /** One silent-payment coin of 100000 at one sat a vbyte: the quote says 99869 and the automatic
      pick refuses it. */
  lemma QuotedMaxRefused()
    ensures var w := Wallet([Coin("ab", 0, 100_000, CHAIN_SP, false, true)], [], {});
            MaxChannelValue(w, 250, None) == Ok(99_869) && Build(w, 99_869, 250, None).Err?
  {
    var c := Coin("ab", 0, 100_000, CHAIN_SP, false, true);
    var w := Wallet([c], [], {});
    SoleSilentCoin(w, c);
    SoleSilentRoom(c);
    QuotedRoom(w, 250);
    QuotedMaxBuildsIffPlain(w, 250);
    assert c in Candidates(w) && c.Taproot();
  }
}
