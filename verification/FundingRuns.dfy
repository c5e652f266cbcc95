/**
 Runs of opens and sends (lij/lij-core/src/channel_open.rs, lij/lij-core/src/tier2_wallet.rs,
 lij/lij-wasm/src/lib.rs). An open builds its transaction and records the spent outpoints as pending
 in one go. A send chooses its outpoints, waits for its broadcast, and records them only then, with
 no further look at what is pending by that time; any number of sends may be waiting. Other paths
 record rows of their own, syncs replace the view, the held coins change, and rows go away.
 */
module FundingRuns {
  import opened Prelude
  import opened Text
  import opened WalletCoins
  import opened ChannelOpen
  import FundingMax

  function Outs(coins: seq<Coin>): seq<Outpoint> {
    seq(|coins|, i requires 0 <= i < |coins| => coins[i].Out())
  }

  /** retain and push: one row a transaction. */
  function Without(pending: seq<Pending>, txid: string): seq<Pending> {
    if pending == [] then []
    else
      var n := |pending| - 1;
      Without(pending[..n], txid) + (if pending[n].txid != txid then [pending[n]] else [])
  }

  function Recorded(pending: seq<Pending>, p: Pending): seq<Pending> {
    Without(pending, p.txid) + [p]
  }

  /** The pending row of a built open; `txid` is the signed transaction's. */
  function OpenRow(tx: FundingTx, txid: string, now: nat): Pending {
    Pending(txid, Outs(tx.coins), if tx.change > 0 then Some((txid, 1)) else None, tx.change, now, true)
  }

  ghost predicate NoRepeat(outs: seq<Outpoint>) {
    forall i, j :: 0 <= i < j < |outs| ==> outs[i] != outs[j]
  }

  // ── Lists of rows ────────────────────────────────────────────────────────

  ghost predicate Pairwise(rel: (Pending, Pending) -> bool, rows: seq<Pending>) {
    forall i, j :: 0 <= i < j < |rows| ==> rel(rows[i], rows[j])
  }

  predicate OtherId(p: Pending, q: Pending) {
    p.txid != q.txid
  }

  predicate Apart(p: Pending, q: Pending) {
    forall o :: o in p.spends ==> o !in q.spends
  }

  /** An open is apart from what was recorded before it. */
  predicate OpenApart(p: Pending, q: Pending) {
    q.open ==> Apart(p, q)
  }

  /** No outpoint is spent by two pending transactions, or twice by one. */
  ghost predicate NoDoubleSpend(pending: seq<Pending>) {
    && (forall p :: p in pending ==> NoRepeat(p.spends))
    && Pairwise(Apart, pending)
  }

  ghost predicate Safe(w: Wallet) {
    Formed(w) && NoDoubleSpend(w.pending)
  }

  lemma {:induction false} WithoutMembers(pending: seq<Pending>, txid: string)
    ensures forall p :: p in Without(pending, txid) <==> p in pending && p.txid != txid
    decreases |pending|
  {
    if pending != [] {
      var n := |pending| - 1;
      WithoutMembers(pending[..n], txid);
      assert forall p :: p in pending <==> p in pending[..n] || p == pending[n];
    }
  }

  lemma PushPairwise(rel: (Pending, Pending) -> bool, rows: seq<Pending>, row: Pending)
    ensures Pairwise(rel, rows + [row]) <==> Pairwise(rel, rows) && forall p :: p in rows ==> rel(p, row)
  {
    var all := rows + [row];
    assert forall i :: 0 <= i < |rows| ==> all[i] == rows[i] && rows[i] in rows;
    if Pairwise(rel, all) {
      forall p | p in rows ensures rel(p, row) {
        var i :| 0 <= i < |rows| && rows[i] == p;
        assert rel(all[i], all[|rows|]);
      }
    }
  }

  lemma {:induction false} WithoutPairwise(rel: (Pending, Pending) -> bool, pending: seq<Pending>, txid: string)
    requires Pairwise(rel, pending)
    ensures Pairwise(rel, Without(pending, txid))
    decreases |pending|
  {
    if pending != [] {
      var n := |pending| - 1;
      var before := pending[..n];
      assert before + [pending[n]] == pending;
      PushPairwise(rel, before, pending[n]);
      WithoutPairwise(rel, before, txid);
      WithoutMembers(before, txid);
      PushPairwise(rel, Without(before, txid), pending[n]);
    }
  }

  /** Recording keeps a relation between the rows exactly when those that stay have it to the new one. */
  lemma RecordedPairwise(rel: (Pending, Pending) -> bool, pending: seq<Pending>, row: Pending)
    requires Pairwise(rel, pending)
    ensures Pairwise(rel, Recorded(pending, row)) <==> forall p :: p in Without(pending, row.txid) ==> rel(p, row)
  {
    WithoutPairwise(rel, pending, row.txid);
    PushPairwise(rel, Without(pending, row.txid), row);
  }

  lemma RecordedFormed(w: Wallet, row: Pending)
    requires Formed(w) && PendingFormed(row)
    ensures Formed(w.(pending := Recorded(w.pending, row)))
  {
    WithoutMembers(w.pending, row.txid);
    assert Pairwise(OtherId, w.pending);
    RecordedPairwise(OtherId, w.pending, row);
    assert Pairwise(OtherId, Recorded(w.pending, row));
  }

  lemma WithoutFormed(w: Wallet, txid: string)
    requires Formed(w)
    ensures Formed(w.(pending := Without(w.pending, txid)))
  {
    WithoutMembers(w.pending, txid);
    assert Pairwise(OtherId, w.pending);
    WithoutPairwise(OtherId, w.pending, txid);
    assert Pairwise(OtherId, Without(w.pending, txid));
  }

  /** A row spends each outpoint once and none that another row holds. */
  ghost predicate Clear(pending: seq<Pending>, row: Pending) {
    NoRepeat(row.spends) && forall o :: o in row.spends ==> o !in Reserved(Without(pending, row.txid))
  }

  lemma ReservedApart(rows: seq<Pending>, row: Pending)
    ensures (forall o :: o in row.spends ==> o !in Reserved(rows)) <==> forall p :: p in rows ==> Apart(p, row)
  {
    if forall p :: p in rows ==> Apart(p, row) {
      forall o | o in row.spends ensures o !in Reserved(rows) {
        assert forall p :: p in rows && o in p.spends ==> !Apart(p, row);
      }
    }
  }

  /** Recording a row, which checks nothing, keeps the outpoints disjoint exactly when it is clear. */
  lemma RecordSafeIff(w: Wallet, row: Pending)
    requires Safe(w) && PendingFormed(row)
    ensures Safe(w.(pending := Recorded(w.pending, row))) <==> Clear(w.pending, row)
  {
    var rows := Without(w.pending, row.txid);
    RecordedFormed(w, row);
    RecordedPairwise(Apart, w.pending, row);
    ReservedApart(rows, row);
    WithoutMembers(w.pending, row.txid);
    assert forall p :: p in Recorded(w.pending, row) <==> p in rows || p == row;
  }

  // ── What an open spends ──────────────────────────────────────────────────

  ghost predicate SpendsFree(w: Wallet, coins: seq<Coin>) {
    NoRepeat(Outs(coins)) && forall c :: c in coins ==> Spendable(w, c) && LowerCase(c.Out())
  }

  lemma AutoSpendsOnce(w: Wallet, value: nat, rate: nat)
    requires Formed(w)
    ensures var r := Build(w, value, rate, None);
            r.Ok? ==> NoRepeat(Outs(r.value.coins))
  {
    CandidatesExact(w);
    AutoBuildSpends(w, value, rate);
    AutoPickCovers(Candidates(w), Need(value, rate));
    if Build(w, value, rate, None).Ok? {
      AtDistinct(Candidates(w), AutoPick(Candidates(w), Need(value, rate)).value);
    }
  }

  lemma KeysApart(coins: seq<Coin>)
    requires DistinctKeys(coins)
    ensures NoRepeat(Outs(coins))
  {
  }

  lemma ChosenAre(w: Wallet, value: nat, rate: nat, pins: seq<Outpoint>)
    ensures var r, chosen := Build(w, value, rate, Some(pins)), Resolve(Candidates(w), w.held, pins);
            r.Ok? ==> chosen.Ok? && r.value.coins == chosen.value
  {
    BuildBalances(w, value, rate, Some(pins));
  }

  lemma ChosenSpendsOnce(w: Wallet, value: nat, rate: nat, pins: seq<Outpoint>)
    ensures var r := Build(w, value, rate, Some(pins));
            r.Ok? ==> NoRepeat(Outs(r.value.coins))
  {
    ChosenAre(w, value, rate, pins);
    ResolveExact(Candidates(w), w.held, pins);
    var chosen := Resolve(Candidates(w), w.held, pins);
    if chosen.Ok? {
      KeysApart(chosen.value);
    }
  }

  /** What a built open spends: spendable coins, each once. */
  lemma BuiltSpends(w: Wallet, value: nat, rate: nat, pins: Option<seq<Outpoint>>)
    requires Formed(w)
    ensures var r := Build(w, value, rate, pins);
            r.Ok? ==> SpendsFree(w, r.value.coins) && forall c :: c in r.value.coins ==> c in Candidates(w)
  {
    CandidatesExact(w);
    SelectedEnough(w, value, rate, pins);
    BuildBalances(w, value, rate, pins);
    match pins
    case None => AutoSpendsOnce(w, value, rate);
    case Some(chosen) => ChosenSpendsOnce(w, value, rate, chosen);
  }

  lemma AtDistinct(coins: seq<Coin>, idx: seq<nat>)
    requires DistinctOuts(coins) && CoinSelect.Within(Values(coins), idx) && CoinSelect.Distinct(idx)
    ensures NoRepeat(Outs(At(coins, idx)))
  {
  }

  /** Not held, not committed to a pending transaction, and unspent wherever the view shows it. */
  ghost predicate FreeOut(w: Wallet, o: Outpoint) {
    o !in w.held && o !in Reserved(w.pending) && forall c :: c in w.view && c.Out() == o ==> !c.spent && c.Signable()
  }

  /** A built open never spends a held, already spent or already committed coin, chosen or not. */
  lemma OpenSpendsOnlyFree(w: Wallet, value: nat, rate: nat, pins: Option<seq<Outpoint>>)
    requires Formed(w)
    ensures var r := Build(w, value, rate, pins);
            r.Ok? ==> forall o :: o in Outs(r.value.coins) ==> FreeOut(w, o)
  {
    BuiltSpends(w, value, rate, pins);
    var r := Build(w, value, rate, pins);
    if r.Ok? {
      var coins := r.value.coins;
      forall o | o in Outs(coins) ensures FreeOut(w, o) {
        var i :| 0 <= i < |coins| && coins[i].Out() == o;
        assert coins[i] in coins;
        forall c | c in w.view && c.Out() == o ensures !c.spent && c.Signable() {
          InViewIsFree(w, coins[i], c);
        }
      }
    }
  }

  lemma InViewIsFree(w: Wallet, d: Coin, c: Coin)
    requires Formed(w) && d in Candidates(w) && c in w.view && c.Out() == d.Out()
    ensures !c.spent && c.Signable()
  {
    FreeCoinsExact(w, w.view);
    ChangeCandidatesExact(w);
    var k :| 0 <= k < |w.view| && w.view[k] == c;
    assert InView(w.view, c.Out());
    assert d in FreeCoins(w, w.view);
    var j :| 0 <= j < |w.view| && w.view[j] == d;
  }

  lemma OpenIsClear(w: Wallet, value: nat, rate: nat, pins: Option<seq<Outpoint>>, txid: string, now: nat)
    requires Formed(w) && LowerCase((txid, 1)) && Build(w, value, rate, pins).Ok?
    ensures var row := OpenRow(Build(w, value, rate, pins).value, txid, now);
            PendingFormed(row) && Clear(w.pending, row) && forall o :: o in row.spends ==> o !in Reserved(w.pending)
  {
    BuiltSpends(w, value, rate, pins);
    OpenSpendsOnlyFree(w, value, rate, pins);
    WithoutMembers(w.pending, txid);
  }

  // ── Runs ─────────────────────────────────────────────────────────────────

  /** The wallet, and the sends that have chosen their outpoints and not yet recorded them. */
  datatype Ledger = Ledger(wallet: Wallet, chosen: multiset<Pending>)

  datatype Step =
    | Open(value: nat, rate: nat, pins: Option<seq<Outpoint>>, txid: string, now: nat)
    | Choose(row: Pending)
    | Record(row: Pending, now: nat)
    | Fail(row: Pending)
    | Note(row: Pending)
    | Drop(txid: string)
    | Sync(view: seq<Coin>)
    | Mark(held: set<Outpoint>)

  /** The row that a step records. */
  function RowOf(w: Wallet, s: Step): Option<Pending> {
    match s
    case Open(value, rate, pins, txid, now) =>
      (match Build(w, value, rate, pins)
       case Err(_) => None
       case Ok(tx) => Some(OpenRow(tx, txid, now)))
    case Record(row, now) => Some(row.(created := now))
    case Note(row) => Some(row)
    case _ => None
  }

  function Written(w: Wallet, s: Step): Wallet {
    match s
    case Drop(txid) => w.(pending := Without(w.pending, txid))
    case Sync(view) => w.(view := view)
    case Mark(held) => w.(held := held)
    case _ => if RowOf(w, s).Some? then w.(pending := Recorded(w.pending, RowOf(w, s).value)) else w
  }

  function Apply(l: Ledger, s: Step): Ledger {
    Ledger(Written(l.wallet, s),
           match s
           case Choose(row) => l.chosen + multiset{row}
           case Record(row, _) => l.chosen - multiset{row}
           case Fail(row) => l.chosen - multiset{row}
           case _ => l.chosen)
  }

  /** A send's outpoints: each once, and none reserved. */
  ghost predicate MayChoose(w: Wallet, row: Pending) {
    PendingFormed(row) && !row.open && NoRepeat(row.spends) && forall o :: o in row.spends ==> o !in Reserved(w.pending)
  }

  /** Ids are lower-case hex and a view has one row an outpoint. A send chooses outpoints that are not
      reserved when it chooses, each once; nothing is asked when it records, or of the other paths. */
  ghost predicate Legal(l: Ledger, s: Step) {
    match s
    case Open(_, _, _, txid, _) => LowerCase((txid, 1))
    case Choose(row) => MayChoose(l.wallet, row)
    case Record(row, _) => row in l.chosen
    case Fail(row) => row in l.chosen
    case Note(row) => PendingFormed(row) && !row.open
    case Drop(_) => true
    case Sync(view) => DistinctOuts(view) && forall c :: c in view ==> LowerCase(c.Out())
    case Mark(_) => true
  }

  ghost predicate ChosenFormed(l: Ledger) {
    forall row :: row in l.chosen ==> PendingFormed(row) && !row.open && NoRepeat(row.spends)
  }

  /** What every step keeps. */
  ghost predicate Kept(l: Ledger) {
    Formed(l.wallet) && ChosenFormed(l)
  }

  lemma StepKeeps(l: Ledger, s: Step)
    requires Kept(l) && Legal(l, s)
    ensures Kept(Apply(l, s))
    ensures var row := RowOf(l.wallet, s);
            row.Some? ==> PendingFormed(row.value) && (row.value.open <==> s.Open?)
  {
    if s.Open? && Build(l.wallet, s.value, s.rate, s.pins).Ok? {
      OpenIsClear(l.wallet, s.value, s.rate, s.pins, s.txid, s.now);
    }
    if RowOf(l.wallet, s).Some? {
      RecordedFormed(l.wallet, RowOf(l.wallet, s).value);
    } else if s.Drop? {
      WithoutFormed(l.wallet, s.txid);
    }
  }

  /** A step that records a row other than an open's. */
  predicate Records(s: Step) {
    s.Record? || s.Note?
  }

  ghost predicate StepClear(l: Ledger, s: Step) {
    Records(s) ==> Clear(l.wallet.pending, RowOf(l.wallet, s).value)
  }

  /** A step keeps the pending transactions' outpoints disjoint exactly when the row it records, if it
      is not an open's, is clear by then. An open always keeps them so. */
  lemma StepSafeIff(l: Ledger, s: Step)
    requires Kept(l) && NoDoubleSpend(l.wallet.pending) && Legal(l, s)
    ensures NoDoubleSpend(Apply(l, s).wallet.pending) <==> StepClear(l, s)
  {
    StepKeeps(l, s);
    if s.Open? && Build(l.wallet, s.value, s.rate, s.pins).Ok? {
      OpenIsClear(l.wallet, s.value, s.rate, s.pins, s.txid, s.now);
    }
    if RowOf(l.wallet, s).Some? {
      RecordSafeIff(l.wallet, RowOf(l.wallet, s).value);
    } else if s.Drop? {
      WithoutMembers(l.wallet.pending, s.txid);
      WithoutPairwise(Apart, l.wallet.pending, s.txid);
    }
  }

  function Exec(l: Ledger, steps: seq<Step>): Ledger {
    if steps == [] then l else Apply(Exec(l, steps[..|steps| - 1]), steps[|steps| - 1])
  }

  /** The ledger after the first `k` steps. */
  function After(l: Ledger, steps: seq<Step>, k: nat): Ledger
    requires k <= |steps|
  {
    Exec(l, steps[..k])
  }

  lemma AfterNext(l: Ledger, steps: seq<Step>, k: nat)
    requires k < |steps|
    ensures After(l, steps, k + 1) == Apply(After(l, steps, k), steps[k])
    ensures After(l, steps, |steps|) == Exec(l, steps)
  {
    assert steps[..k + 1][..k] == steps[..k];
    assert steps[..|steps|] == steps;
  }

  ghost predicate IsRun(l: Ledger, steps: seq<Step>) {
    forall k :: 0 <= k < |steps| ==> Legal(After(l, steps, k), steps[k])
  }

  lemma {:induction false} RunKeeps(l: Ledger, steps: seq<Step>, k: nat)
    requires Kept(l) && IsRun(l, steps) && k <= |steps|
    ensures Kept(After(l, steps, k))
    decreases k
  {
    if k > 0 {
      RunKeeps(l, steps, k - 1);
      AfterNext(l, steps, k - 1);
      StepKeeps(After(l, steps, k - 1), steps[k - 1]);
    }
  }

  // ── What an open leaves behind ───────────────────────────────────────────

  lemma RecordedHolds(w: Wallet, row: Pending)
    ensures row in Recorded(w.pending, row)
    ensures forall o :: o in row.spends ==> o in Reserved(Recorded(w.pending, row))
    ensures forall p :: p in Recorded(w.pending, row) ==> p == row || (p in w.pending && p.txid != row.txid)
  {
    WithoutMembers(w.pending, row.txid);
    assert Recorded(w.pending, row)[|Without(w.pending, row.txid)|] == row;
  }

  lemma OpenKeepsFormed(w: Wallet, open: Step)
    requires Formed(w) && open.Open? && LowerCase((open.txid, 1))
    ensures Formed(Written(w, open))
  {
    StepKeeps(Ledger(w, multiset{}), open);
  }

  /** Every coin an open spends is reserved by it: no later open, of whatever size and coins, spends one
      of them while the open is pending. */
  lemma NextOpenSpendsOthers(w: Wallet, open: Step, value: nat, rate: nat, pins: Option<seq<Outpoint>>)
    requires Formed(w) && open.Open? && LowerCase((open.txid, 1))
    requires Build(w, open.value, open.rate, open.pins).Ok?
    ensures var tx, w' := Build(w, open.value, open.rate, open.pins).value, Written(w, open);
            && (forall o :: o in Outs(tx.coins) ==> o in Reserved(w'.pending))
            && (Build(w', value, rate, pins).Ok? ==> forall o :: o in Outs(Build(w', value, rate, pins).value.coins) ==> o !in Outs(tx.coins))
  {
    RecordedHolds(w, RowOf(w, open).value);
    OpenKeepsFormed(w, open);
    OpenSpendsOnlyFree(Written(w, open), value, rate, pins);
  }

  /** The change of a pending row is offered first when the row is newer than every other. */
  lemma NewestChangeOffered(w: Wallet, row: Pending)
    requires Formed(w) && row in w.pending && forall p :: p in w.pending && p != row ==> p.created < row.created
    ensures OpenChange(w, row) && row.change.value !in w.held ==> ChangeCoin(row) in ChangeCandidates(w)
  {
    ChangeIsMostRecent(w);
    var rows := OfferedRows(w, Newest(w.pending));
    if OpenChange(w, row) && row.change.value !in w.held {
      var i :| 0 <= i < |rows| && rows[i] == row;
      assert rows[0] in rows;
      assert rows[0] == row;
      assert ChangeCandidates(w)[0] == ChangeCoin(row);
    }
  }

  lemma OfferedChangeIsOwn(w: Wallet, row: Pending, c: Coin)
    requires Formed(w) && row in w.pending && c in ChangeCandidates(w) && c.txid == row.txid
    ensures OpenChange(w, row) && row.change.value !in w.held && c == ChangeCoin(row)
  {
    ChangeIsMostRecent(w);
    var rows, coins := OfferedRows(w, Newest(w.pending)), ChangeCandidates(w);
    var i :| 0 <= i < |coins| && coins[i] == c;
    assert rows[i] in rows && PendingFormed(rows[i]);
    var j :| 0 <= j < |w.pending| && w.pending[j] == rows[i];
    var k :| 0 <= k < |w.pending| && w.pending[k] == row;
  }

  /** After an open the next one is offered its change, an output of that transaction with exactly the
      change's value, if and only if there is change that is not held and that nothing pending spends. */
  lemma OpenOffersChangeIff(w: Wallet, open: Step)
    requires Formed(w) && open.Open? && LowerCase((open.txid, 1)) && Build(w, open.value, open.rate, open.pins).Ok?
    requires (forall p :: p in w.pending ==> p.created < open.now) && forall c :: c in w.view ==> c.txid != open.txid
    ensures var tx, w', out := Build(w, open.value, open.rate, open.pins).value, Written(w, open), (open.txid, 1);
            && ((exists c :: c in Candidates(w') && c.txid == open.txid) <==>
                tx.change > 0 && out !in w.held && out !in Reserved(w'.pending))
            && (forall c :: c in Candidates(w') && c.txid == open.txid ==>
                  c == Coin(open.txid, 1, tx.change, CHAIN_CHANGE, false, false))
  {
    var row, w' := RowOf(w, open).value, Written(w, open);
    RecordedHolds(w, row);
    OpenKeepsFormed(w, open);
    FreeCoinsExact(w', w'.view);
    assert !InView(w'.view, (open.txid, 1));
    NewestChangeOffered(w', row);
    if OpenChange(w', row) && row.change.value !in w'.held {
      assert ChangeCoin(row) in Candidates(w');
    }
    forall c | c in Candidates(w') && c.txid == open.txid
      ensures OpenChange(w', row) && row.change.value !in w'.held && c == ChangeCoin(row)
    {
      OfferedChangeIsOwn(w', row, c);
    }
  }

  /** A send recorded now is newer than every row recorded before, so its change is offered next. */
  lemma RecordOffersChange(w: Wallet, row: Pending, now: nat)
    requires Formed(w) && PendingFormed(row) && (forall p :: p in w.pending ==> p.created < now)
    ensures var w', sent := Written(w, Record(row, now)), row.(created := now);
            OpenChange(w', sent) && sent.change.value !in w'.held ==> ChangeCoin(row) in Candidates(w')
  {
    var sent := row.(created := now);
    RecordedHolds(w, sent);
    RecordedFormed(w, sent);
    NewestChangeOffered(Written(w, Record(row, now)), sent);
  }

  lemma WithoutReserves(pending: seq<Pending>, txid: string, o: Outpoint)
    ensures o in Reserved(Without(pending, txid)) <==> exists p :: p in pending && p.txid != txid && o in p.spends
  {
    WithoutMembers(pending, txid);
  }

  /** A dropped transaction frees what only it had reserved, and nothing else. */
  lemma DropFreesIff(w: Wallet, txid: string, o: Outpoint)
    ensures o in Reserved(Written(w, Drop(txid)).pending) <==> exists p :: p in w.pending && p.txid != txid && o in p.spends
  {
    WithoutReserves(w.pending, txid, o);
  }

  /** After a sync with a new view, or a change of the held coins, a coin of the view is offered exactly
      when it is unspent and signable there, not held and not reserved. */
  lemma ShownIsOfferedIff(w: Wallet, view: seq<Coin>, held: set<Outpoint>, c: Coin)
    requires Formed(w) && DistinctOuts(view) && (forall d :: d in view ==> LowerCase(d.Out())) && c in view
    ensures c in Candidates(Written(Written(w, Sync(view)), Mark(held))) <==>
            && !c.spent && c.Out() !in held && c.Out() !in Reserved(w.pending)
            && (c.chain in {0, 1, 86, 87} || (c.chain == 352 && c.hasTweak))
  {
    CandidatesExact(Written(Written(w, Sync(view)), Mark(held)));
  }

  // ── Opens ────────────────────────────────────────────────────────────────

  ghost predicate OpensApart(pending: seq<Pending>) {
    (forall p :: p in pending && p.open ==> NoRepeat(p.spends)) && Pairwise(OpenApart, pending)
  }

  lemma StepKeepsOpensApart(l: Ledger, s: Step)
    requires Kept(l) && Legal(l, s) && OpensApart(l.wallet.pending)
    ensures OpensApart(Apply(l, s).wallet.pending)
  {
    var w := l.wallet;
    StepKeeps(l, s);
    if s.Open? && Build(w, s.value, s.rate, s.pins).Ok? {
      OpenIsClear(w, s.value, s.rate, s.pins, s.txid, s.now);
    }
    if RowOf(w, s).Some? {
      var row := RowOf(w, s).value;
      WithoutMembers(w.pending, row.txid);
      ReservedApart(Without(w.pending, row.txid), row);
      RecordedPairwise(OpenApart, w.pending, row);
      assert forall p :: p in Recorded(w.pending, row) <==> p in Without(w.pending, row.txid) || p == row;
    } else if s.Drop? {
      WithoutMembers(w.pending, s.txid);
      WithoutPairwise(OpenApart, w.pending, s.txid);
    }
  }

  lemma {:induction false} RunKeepsOpensApart(l: Ledger, steps: seq<Step>, k: nat)
    requires Kept(l) && OpensApart(l.wallet.pending) && IsRun(l, steps) && k <= |steps|
    ensures OpensApart(After(l, steps, k).wallet.pending)
    decreases k
  {
    if k > 0 {
      RunKeepsOpensApart(l, steps, k - 1);
      RunKeeps(l, steps, k - 1);
      AfterNext(l, steps, k - 1);
      StepKeepsOpensApart(After(l, steps, k - 1), steps[k - 1]);
    }
  }

  /** Nothing pending and no send waiting. */
  ghost predicate New(l: Ledger) {
    l.wallet.pending == [] && l.chosen == multiset{} && DistinctOuts(l.wallet.view)
    && forall c :: c in l.wallet.view ==> LowerCase(c.Out())
  }

  /** In every run, whatever sends and other paths record in between: a pending open shares no outpoint
      with a row recorded before it, so no two opens share one, and the next open spends only coins
      that are not held, spent or reserved. */
  lemma EveryRunOpensApart(l: Ledger, steps: seq<Step>, value: nat, rate: nat, pins: Option<seq<Outpoint>>)
    requires New(l) && IsRun(l, steps)
    ensures var w := Exec(l, steps).wallet;
            var next := Build(w, value, rate, pins);
            && OpensApart(w.pending)
            && (next.Ok? ==> forall o :: o in Outs(next.value.coins) ==> FreeOut(w, o))
  {
    assert steps[..|steps|] == steps;
    RunKeeps(l, steps, |steps|);
    RunKeepsOpensApart(l, steps, |steps|);
    OpenSpendsOnlyFree(Exec(l, steps).wallet, value, rate, pins);
  }

  // ── Sends that wait ──────────────────────────────────────────────────────

  ghost predicate SpendsOnceThroughout(l: Ledger, steps: seq<Step>) {
    forall k :: 0 <= k <= |steps| ==> NoDoubleSpend(After(l, steps, k).wallet.pending)
  }

  lemma {:induction false} ClearKeepsSpendsOnce(l: Ledger, steps: seq<Step>, k: nat)
    requires Kept(l) && NoDoubleSpend(l.wallet.pending) && IsRun(l, steps) && k <= |steps|
    requires forall j :: 0 <= j < |steps| ==> StepClear(After(l, steps, j), steps[j])
    ensures NoDoubleSpend(After(l, steps, k).wallet.pending)
    decreases k
  {
    if k > 0 {
      ClearKeepsSpendsOnce(l, steps, k - 1);
      RunKeeps(l, steps, k - 1);
      AfterNext(l, steps, k - 1);
      StepSafeIff(After(l, steps, k - 1), steps[k - 1]);
    }
  }

  lemma RunSafeIff(l: Ledger, steps: seq<Step>)
    requires Kept(l) && NoDoubleSpend(l.wallet.pending) && IsRun(l, steps)
    ensures SpendsOnceThroughout(l, steps) <==> forall j :: 0 <= j < |steps| ==> StepClear(After(l, steps, j), steps[j])
  {
    if forall j :: 0 <= j < |steps| ==> StepClear(After(l, steps, j), steps[j]) {
      forall k | 0 <= k <= |steps| ensures NoDoubleSpend(After(l, steps, k).wallet.pending) {
        ClearKeepsSpendsOnce(l, steps, k);
      }
    }
    if SpendsOnceThroughout(l, steps) {
      forall j | 0 <= j < |steps| ensures StepClear(After(l, steps, j), steps[j]) {
        assert NoDoubleSpend(After(l, steps, j).wallet.pending) && NoDoubleSpend(After(l, steps, j + 1).wallet.pending);
        RunKeeps(l, steps, j);
        AfterNext(l, steps, j);
        StepSafeIff(After(l, steps, j), steps[j]);
      }
    }
  }

  lemma RowsAfter(w: Wallet, s: Step, p: Pending)
    requires p in Written(w, s).pending
    ensures p in w.pending || RowOf(w, s) == Some(p)
  {
    if s.Drop? {
      WithoutMembers(w.pending, s.txid);
    } else if RowOf(w, s).Some? {
      WithoutMembers(w.pending, RowOf(w, s).value.txid);
    }
  }

  /** What holds at `j`, did not at `i`, and only comes to hold when it is made, was made in between. */
  lemma {:induction false} MadeBetween(holds: nat -> bool, made: nat -> bool, i: nat, j: nat) returns (k: nat)
    requires i <= j && !holds(i) && holds(j)
    requires forall m :: i <= m < j && holds(m + 1) ==> holds(m) || made(m)
    ensures i <= k < j && made(k)
    decreases j
  {
    if holds(j - 1) {
      k := MadeBetween(holds, made, i, j - 1);
    } else {
      assert holds(j - 1 + 1);
      k := j - 1;
    }
  }

  predicate HasRow(l: Ledger, steps: seq<Step>, p: Pending, k: nat) {
    k <= |steps| && p in After(l, steps, k).wallet.pending
  }

  predicate RecordsRow(l: Ledger, steps: seq<Step>, p: Pending, k: nat) {
    k < |steps| && RowOf(After(l, steps, k).wallet, steps[k]) == Some(p)
  }

  lemma RowIsRecorded(l: Ledger, steps: seq<Step>, p: Pending, k: nat)
    requires HasRow(l, steps, p, k + 1)
    ensures HasRow(l, steps, p, k) || RecordsRow(l, steps, p, k)
  {
    AfterNext(l, steps, k);
    RowsAfter(After(l, steps, k).wallet, steps[k], p);
  }

  /** A row that is there at `j` and was not at `i` was recorded by a step in between. */
  lemma RecordedSince(l: Ledger, steps: seq<Step>, i: nat, j: nat, p: Pending) returns (k: nat)
    requires i <= j && HasRow(l, steps, p, j) && !HasRow(l, steps, p, i)
    ensures i <= k < j && RecordsRow(l, steps, p, k)
  {
    var holds, made := (m: nat) => HasRow(l, steps, p, m), (m: nat) => RecordsRow(l, steps, p, m);
    forall m | i <= m < j && holds(m + 1) ensures holds(m) || made(m) {
      RowIsRecorded(l, steps, p, m);
    }
    k := MadeBetween(holds, made, i, j);
  }

  lemma ChosenAfter(l: Ledger, s: Step, row: Pending)
    requires row in Apply(l, s).chosen
    ensures row in l.chosen || s == Choose(row)
  {
  }

  lemma ChosenBefore(l: Ledger, steps: seq<Step>, j: nat, row: Pending) returns (i: nat)
    requires l.chosen == multiset{} && j <= |steps| && row in After(l, steps, j).chosen
    ensures i < j && steps[i] == Choose(row)
  {
    var holds := (m: nat) => m <= |steps| && row in After(l, steps, m).chosen;
    var made := (m: nat) => m < |steps| && steps[m] == Choose(row);
    forall m | 0 <= m < j && holds(m + 1) ensures holds(m) || made(m) {
      AfterNext(l, steps, m);
      ChosenAfter(After(l, steps, m), steps[m], row);
    }
    i := MadeBetween(holds, made, 0, j);
  }

  /** Between the choice at `i` and the record at `j`, an open or another record took one of the row's
      outpoints for another transaction that is still pending. */
  ghost predicate Taken(l: Ledger, steps: seq<Step>, i: nat, j: nat, row: Pending)
    requires j <= |steps|
  {
    exists k :: i < k < j && TookAt(l, steps, j, k, row)
  }

  ghost predicate TookAt(l: Ledger, steps: seq<Step>, j: nat, k: nat, row: Pending)
    requires k < j <= |steps|
  {
    var p := RowOf(After(l, steps, k).wallet, steps[k]);
    p.Some? && p.value in After(l, steps, j).wallet.pending && p.value.txid != row.txid && !Apart(p.value, row)
  }

  lemma ClearIffApart(pending: seq<Pending>, row: Pending, now: nat)
    requires NoRepeat(row.spends)
    ensures Clear(pending, row.(created := now)) <==> forall p :: p in pending && p.txid != row.txid ==> Apart(p, row)
  {
    WithoutMembers(pending, row.txid);
    ReservedApart(Without(pending, row.txid), row);
  }

  lemma HeldIsTaken(l: Ledger, steps: seq<Step>, i: nat, j: nat, p: Pending)
    requires IsRun(l, steps) && i < j < |steps| && steps[i].Choose?
    requires p in After(l, steps, j).wallet.pending && p.txid != steps[i].row.txid && !Apart(p, steps[i].row)
    ensures Taken(l, steps, i, j, steps[i].row)
  {
    assert Legal(After(l, steps, i), steps[i]);
    ReservedApart(After(l, steps, i).wallet.pending, steps[i].row);
    var k := RecordedSince(l, steps, i, j, p);
    assert TookAt(l, steps, j, k, steps[i].row);
  }

  /** A send's row is clear when it is recorded exactly when none of its outpoints was taken since it
      chose them. */
  lemma ClearIffNotTaken(l: Ledger, steps: seq<Step>, i: nat, j: nat)
    requires IsRun(l, steps) && i < j < |steps| && steps[i].Choose? && steps[j].Record? && steps[j].row == steps[i].row
    ensures StepClear(After(l, steps, j), steps[j]) <==> !Taken(l, steps, i, j, steps[i].row)
  {
    var row, pending := steps[i].row, After(l, steps, j).wallet.pending;
    assert Legal(After(l, steps, i), steps[i]);
    ClearIffApart(pending, row, steps[j].now);
    if p :| p in pending && p.txid != row.txid && !Apart(p, row) {
      HeldIsTaken(l, steps, i, j, p);
    }
  }

  /** No send records outpoints that were taken while it waited, and no other path records outpoints
      that another row holds. */
  ghost predicate NothingTaken(l: Ledger, steps: seq<Step>) {
    && (forall i, j :: 0 <= i < j < |steps| && steps[i].Choose? && steps[j].Record? && steps[j].row == steps[i].row ==>
          !Taken(l, steps, i, j, steps[i].row))
    && (forall j :: 0 <= j < |steps| && steps[j].Note? ==> Clear(After(l, steps, j).wallet.pending, steps[j].row))
  }

  /** Every run from a wallet with nothing pending: at no moment do two pending transactions spend the
      same outpoint, or one twice, exactly when nothing was taken while a send waited. */
  lemma EveryRunSpendsOnceIff(l: Ledger, steps: seq<Step>)
    requires New(l) && IsRun(l, steps)
    ensures SpendsOnceThroughout(l, steps) <==> NothingTaken(l, steps)
  {
    RunSafeIff(l, steps);
    forall i, j | 0 <= i < j < |steps| && steps[i].Choose? && steps[j].Record? && steps[j].row == steps[i].row
      ensures StepClear(After(l, steps, j), steps[j]) <==> !Taken(l, steps, i, j, steps[i].row)
    {
      ClearIffNotTaken(l, steps, i, j);
    }
    if NothingTaken(l, steps) {
      forall j | 0 <= j < |steps| && steps[j].Record? ensures StepClear(After(l, steps, j), steps[j]) {
        assert Legal(After(l, steps, j), steps[j]);
        var i := ChosenBefore(l, steps, j, steps[j].row);
      }
    }
  }

  function Chosen(steps: seq<Step>, row: Pending): nat {
    if steps == [] then 0 else Chosen(steps[..|steps| - 1], row) + (if steps[|steps| - 1] == Choose(row) then 1 else 0)
  }

  /** How often a choice of this row was recorded or given up. */
  function Settled(steps: seq<Step>, row: Pending): nat {
    if steps == [] then 0
    else
      var s := steps[|steps| - 1];
      Settled(steps[..|steps| - 1], row) + (if (s.Record? || s.Fail?) && s.row == row then 1 else 0)
  }

  lemma StepSettles(l: Ledger, s: Step, row: Pending)
    requires Legal(l, s)
    ensures Apply(l, s).chosen[row] + (if (s.Record? || s.Fail?) && s.row == row then 1 else 0) ==
            l.chosen[row] + (if s == Choose(row) then 1 else 0)
  {
  }

  lemma CountsPush(steps: seq<Step>, k: nat, row: Pending)
    requires k < |steps|
    ensures var s := steps[k];
            && Chosen(steps[..k + 1], row) == Chosen(steps[..k], row) + (if s == Choose(row) then 1 else 0)
            && Settled(steps[..k + 1], row) == Settled(steps[..k], row) + (if (s.Record? || s.Fail?) && s.row == row then 1 else 0)
  {
    assert steps[..k + 1][..k] == steps[..k];
  }

  lemma NextSettles(l: Ledger, steps: seq<Step>, k: nat, row: Pending)
    requires k < |steps| && Legal(After(l, steps, k), steps[k])
    ensures var s := steps[k];
            After(l, steps, k + 1).chosen[row] + (if (s.Record? || s.Fail?) && s.row == row then 1 else 0) ==
            After(l, steps, k).chosen[row] + (if s == Choose(row) then 1 else 0)
  {
    AfterNext(l, steps, k);
    StepSettles(After(l, steps, k), steps[k], row);
  }

  /** A ledger's waiting sends of one row against what the steps say. */
  ghost predicate ChoicesBalance(l: Ledger, m: Ledger, steps: seq<Step>, row: Pending) {
    m.chosen[row] + Settled(steps, row) == l.chosen[row] + Chosen(steps, row)
  }

  lemma ChoicesStep(l: Ledger, steps: seq<Step>, k: nat, row: Pending)
    requires k < |steps| && Legal(After(l, steps, k), steps[k]) && ChoicesBalance(l, After(l, steps, k), steps[..k], row)
    ensures ChoicesBalance(l, After(l, steps, k + 1), steps[..k + 1], row)
  {
    NextSettles(l, steps, k, row);
    CountsPush(steps, k, row);
  }

  /** Each choice is recorded or given up at most once: the sends still waiting are those chosen and not
      settled. */
  lemma {:induction false} EveryChoiceSettledOnce(l: Ledger, steps: seq<Step>, k: nat, row: Pending)
    requires IsRun(l, steps) && k <= |steps|
    ensures ChoicesBalance(l, After(l, steps, k), steps[..k], row)
    decreases k
  {
    if k > 0 {
      EveryChoiceSettledOnce(l, steps, k - 1, row);
      ChoicesStep(l, steps, k - 1, row);
    }
  }

  /** Opens alone never spend an outpoint twice. */
  lemma EveryRunOfOpensSpendsOnce(l: Ledger, steps: seq<Step>)
    requires New(l) && IsRun(l, steps) && forall j :: 0 <= j < |steps| ==> !Records(steps[j])
    ensures SpendsOnceThroughout(l, steps)
  {
    EveryRunSpendsOnceIff(l, steps);
  }

  /** A run to `m` goes on with one more step. */
  lemma Then(l: Ledger, steps: seq<Step>, m: Ledger, s: Step) returns (longer: seq<Step>, n: Ledger)
    requires IsRun(l, steps) && Exec(l, steps) == m && Legal(m, s)
    ensures longer == steps + [s] && n == Apply(m, s) && IsRun(l, longer) && Exec(l, longer) == n
  {
    longer, n := steps + [s], Apply(m, s);
    assert longer[..|steps|] == steps;
    forall k | 0 <= k < |longer| ensures Legal(After(l, longer, k), longer[k]) {
      assert k < |steps| ==> longer[..k] == steps[..k] && longer[k] == steps[k];
    }
  }

  lemma RecordClashes(pending: seq<Pending>, p: Pending, row: Pending)
    requires p in pending && p.txid != row.txid && !Apart(p, row)
    ensures !NoDoubleSpend(Recorded(pending, row))
  {
    WithoutMembers(pending, row.txid);
    PushPairwise(Apart, Without(pending, row.txid), row);
  }

  lemma SentRow(m: Ledger, row: Pending, now: nat, p: Pending)
    requires p in m.wallet.pending && p.txid != row.txid && !Apart(p, row)
    ensures !NoDoubleSpend(Apply(m, Record(row, now)).wallet.pending)
  {
    RecordClashes(m.wallet.pending, p, row.(created := now));
  }

  lemma ThreeSteps(l: Ledger, m: Ledger, n: Ledger, a: Step, b: Step, c: Step) returns (steps: seq<Step>)
    requires Legal(l, a) && m == Apply(l, a) && Legal(m, b) && n == Apply(m, b) && Legal(n, c)
    ensures steps == [a, b, c] && IsRun(l, steps) && Exec(l, steps) == Apply(n, c)
  {
    var last: Ledger;
    steps, last := Then(l, [], l, a);
    steps, last := Then(l, steps, m, b);
    steps, last := Then(l, steps, n, c);
  }

  lemma SendWaits(w: Wallet, row: Pending)
    ensures Apply(Ledger(w, multiset{}), Choose(row)) == Ledger(w, multiset{row})
  {
  }

  lemma OpenedWhileWaiting(w: Wallet, open: Step, row: Pending)
    requires open.Open? && RowOf(w, open).Some?
    ensures var m := Apply(Ledger(w, multiset{row}), open);
            row in m.chosen && RowOf(w, open).value in m.wallet.pending && RowOf(w, open).value.txid == open.txid
  {
  }

  /** From every wallet: a send chooses, an open of one of its coins builds and records while the send
      waits, the send records, and both are pending on the same outpoint. */
  lemma OpenWhileSendWaits(w: Wallet, open: Step, row: Pending, now: nat) returns (steps: seq<Step>)
    requires open.Open? && LowerCase((open.txid, 1)) && MayChoose(w, row) && row.txid != open.txid
    requires RowOf(w, open).Some? && !Apart(RowOf(w, open).value, row)
    ensures steps == [Choose(row), open, Record(row, now)] && IsRun(Ledger(w, multiset{}), steps)
    ensures !NoDoubleSpend(Exec(Ledger(w, multiset{}), steps).wallet.pending)
  {
    var l, waiting := Ledger(w, multiset{}), Ledger(w, multiset{row});
    SendWaits(w, row);
    OpenedWhileWaiting(w, open, row);
    SentRow(Apply(waiting, open), row, now, RowOf(w, open).value);
    steps := ThreeSteps(l, waiting, Apply(waiting, open), Choose(row), open, Record(row, now));
  }

  lemma SoleCoinOpens(w: Wallet, c: Coin)
    requires w == Wallet([c], [], {}) && c == Coin("ab", 0, 100_000, CHAIN_SP, false, true)
    ensures Build(w, 50_000, 250, None).Ok? && c in Build(w, 50_000, 250, None).value.coins
  {
    FundingMax.SoleSilentCoin(w, c);
    assert [c][1..] == [] && SumBy(ValueOf, []) == 0;
    assert TotalValue([c]) == ValueOf(c);
    FundingMax.AutoBuildsUpTo(w, 50_000, 250);
    BuiltSpends(w, 50_000, 250, None);
    BuildBalances(w, 50_000, 250, None);
    SelectedEnough(w, 50_000, 250, None);
    var coins := Build(w, 50_000, 250, None).value.coins;
    assert coins[0] in coins;
  }

  lemma CoinInOuts(coins: seq<Coin>, c: Coin)
    requires c in coins
    ensures c.Out() in Outs(coins)
  {
    var i :| 0 <= i < |coins| && coins[i] == c;
    assert Outs(coins)[i] == c.Out();
  }

  lemma SoleCoinSpent(w: Wallet, c: Coin)
    requires w == Wallet([c], [], {}) && c == Coin("ab", 0, 100_000, CHAIN_SP, false, true)
    ensures var row := RowOf(w, Open(50_000, 250, None, "ef", 0));
            row.Some? && ("ab", 0) in row.value.spends && row.value.txid == "ef"
  {
    SoleCoinOpens(w, c);
    CoinInOuts(Build(w, 50_000, 250, None).value.coins, c);
  }

  lemma SoleCoinSend(w: Wallet, c: Coin, row: Pending)
    requires w == Wallet([c], [], {}) && c == Coin("ab", 0, 100_000, CHAIN_SP, false, true)
    requires row == Pending("cd", [("ab", 0)], None, 0, 0, false)
    ensures New(Ledger(w, multiset{})) && MayChoose(w, row) && LowerCase(("ef", 1))
    ensures forall p: Pending :: ("ab", 0) in p.spends ==> !Apart(p, row)
  {
    assert Lower("ab") == "ab" && Lower("cd") == "cd" && Lower("ef") == "ef";
    assert ("ab", 0) in row.spends;
  }

  /** Such a run: one coin of 100000, a channel of 50000 at one sat a vbyte. */
  lemma SendAcrossAnOpenSpendsTwice() returns (l: Ledger, steps: seq<Step>)
    ensures New(l) && IsRun(l, steps) && !NoDoubleSpend(Exec(l, steps).wallet.pending)
  {
    var c := Coin("ab", 0, 100_000, CHAIN_SP, false, true);
    var w := Wallet([c], [], {});
    var row := Pending("cd", [("ab", 0)], None, 0, 0, false);
    SoleCoinSpent(w, c);
    SoleCoinSend(w, c, row);
    l := Ledger(w, multiset{});
    steps := OpenWhileSendWaits(w, Open(50_000, 250, None, "ef", 0), row, 0);
  }

  // ── The wallet's store ───────────────────────────────────────────────────

  /** The storage keys an open reads and writes. */
  class Store {
    var view: seq<Coin>
    var pending: seq<Pending>
    var held: set<Outpoint>

    function Contents(): Wallet
      reads this
    {
      Wallet(view, pending, held)
    }

    constructor (view0: seq<Coin>)
      ensures Contents() == Wallet(view0, [], {})
    {
      view, pending, held := view0, [], {};
    }

    /** Build, and on success record the spent outpoints and the change as pending. */
    method OpenChannel(value: nat, rate: nat, pins: Option<seq<Outpoint>>, txid: string, now: nat) returns (r: Result<FundingTx>)
      requires Safe(Contents()) && LowerCase((txid, 1))
      modifies this`pending
      ensures r == old(Build(Contents(), value, rate, pins))
      ensures Contents() == old(Written(Contents(), Open(value, rate, pins, txid, now)))
      ensures Safe(Contents())
    {
      StepSafeIff(Ledger(Contents(), multiset{}), Open(value, rate, pins, txid, now));
      StepKeeps(Ledger(Contents(), multiset{}), Open(value, rate, pins, txid, now));
      r := BuildFundingTx(Contents(), value, rate, pins);
      if r.Ok? {
        var row := OpenRow(r.value, txid, now);
        var list := Retain(pending, txid);
        pending := list + [row];
      }
    }
  }

  /** Vec::retain on the pending list. */
  method Retain(pending: seq<Pending>, txid: string) returns (list: seq<Pending>)
    ensures list == Without(pending, txid)
  {
    list := [];
    for i := 0 to |pending|
      invariant list == Without(pending[..i], txid)
    {
      assert pending[..i + 1][..i] == pending[..i];
      if pending[i].txid != txid {
        list := list + [pending[i]];
      }
    }
    assert pending[..|pending|] == pending;
  }
}
