/**
 The chain coordinator (lij/lij-core/src/chain_coordinator.rs): two lanes of tips under one ratchet,
 the confirmations it holds, and the calls that LDK's monitor, manager and sweeper have received,
 from it and (the sweeper) from the node itself (lij/lij-core/src/node.rs).
 */
module ChainCoordinator {
  import opened Prelude

  type Txid = nat
  type Hash = nat
  type Header = nat
  type Raw = seq<nat>

  /** Foreign code: the transaction a byte string parses to, if any, and a header's hash. */
  datatype Env = Env(decode: Raw -> Option<Txid>, hashOf: Header -> Hash)

  datatype Source = CooperativeBridge | IndependentEsplora | Hydrated

  datatype Confirmation = Confirmation(height: nat, block: Hash, index: nat, raw: Raw, source: Source)

  datatype Action =
    | NoAction
    | Confirmed(header: Header, index: nat, txid: Txid, height: nat)
    | BestBlock(header: Header, height: nat)
    | Unconfirmed(txid: Txid)

  datatype Coordinator = Coordinator(tip: nat, tipHash: Hash, confirmed: map<Txid, Confirmation>,
                                     observed: Option<(nat, Hash)>, floor: Option<nat>)

  datatype Conf = Conf(txid: Txid, height: nat, block: Hash, index: nat, raw: Raw, header: Header)

  datatype TxStatus = TxConfirmed(height: nat) | TxUnconfirmed | TxNotFound

  datatype Call =
    | Hydrate(channels: seq<(Txid, nat, nat)>)
    | BridgeTip(height: nat, hash: Hash, header: Header)
    | BridgeConf(conf: Conf)
    | BridgeHeader(header: Header, height: nat)
    | BridgeTipObserved(height: nat, hash: Hash)
    | SeedFloor(height: nat, hash: Hash)
    | IndependentTip(height: nat, hash: Hash)
    | IndependentStatus(txid: Txid, status: TxStatus)
    | IndependentConf(conf: Conf)
    | ForceUnconfirm(txid: Txid)

  function New(tip: nat, hash: Hash): Coordinator {
    Coordinator(tip, hash, map[], None, None)
  }

  // ── The calls ────────────────────────────────────────────────────────────

  function EmitBestBlock(c: Coordinator, header: Header, height: nat): (Coordinator, Action) {
    if c.floor.Some? && height < c.floor.value then (c, NoAction)
    else (c.(floor := Some(height)), BestBlock(header, height))
  }

  /** Both lanes: a height above the tip moves it and goes to the mint. */
  function Candidate(c: Coordinator, height: nat, hash: Hash, header: Header): (Coordinator, Action) {
    if height <= c.tip then (c, NoAction)
    else EmitBestBlock(c.(tip := height, tipHash := hash), header, height)
  }

  /** The confirmation is stored whether or not the raw transaction parses. */
  function Store(env: Env, c: Coordinator, conf: Conf, source: Source): (Coordinator, Action) {
    (c.(confirmed := c.confirmed[conf.txid := Confirmation(conf.height, conf.block, conf.index, conf.raw, source)]),
     match env.decode(conf.raw)
     case None => NoAction
     case Some(tx) => Confirmed(conf.header, conf.index, tx, conf.height))
  }

  predicate AlreadyHeld(c: Coordinator, conf: Conf) {
    conf.txid in c.confirmed && c.confirmed[conf.txid].height == conf.height
  }

  function HydrateAll(m: map<Txid, Confirmation>, channels: seq<(Txid, nat, nat)>): map<Txid, Confirmation> {
    if channels == [] then m
    else
      var n := |channels| - 1;
      HydrateAll(m, channels[..n])[channels[n].0 := Confirmation(channels[n].1, 0, channels[n].2, [], Hydrated)]
  }

  function ObservedHeight(c: Coordinator): nat {
    if c.observed.Some? then c.observed.value.0 else 0
  }

  function Step(env: Env, c: Coordinator, call: Call): (Coordinator, Action) {
    match call
    case Hydrate(channels) => (c.(confirmed := HydrateAll(c.confirmed, channels)), NoAction)
    case BridgeTip(height, hash, header) => Candidate(c, height, hash, header)
    case BridgeConf(conf) => Store(env, c, conf, CooperativeBridge)
    case BridgeHeader(header, height) => Candidate(c, height, env.hashOf(header), header)
    case BridgeTipObserved(height, hash) =>
      (if height < ObservedHeight(c) then c else c.(observed := Some((height, hash))), NoAction)
    case SeedFloor(height, hash) =>
      (c.(observed := if height > ObservedHeight(c) then Some((height, hash)) else c.observed,
          floor := if c.floor.None? || height > c.floor.value then Some(height) else c.floor), NoAction)
    case IndependentTip(_, _) => (c, NoAction)
    case IndependentStatus(_, _) => (c, NoAction)
    case IndependentConf(conf) =>
      if AlreadyHeld(c, conf) then (c, NoAction) else Store(env, c, conf, IndependentEsplora)
    case ForceUnconfirm(txid) => (c.(confirmed := c.confirmed - {txid}), Unconfirmed(txid))
  }

  // ── Runs ─────────────────────────────────────────────────────────────────

  function After(env: Env, start: Coordinator, calls: seq<Call>): Coordinator {
    if calls == [] then start
    else
      var n := |calls| - 1;
      Step(env, After(env, start, calls[..n]), calls[n]).0
  }

  /** What the i-th call of a run returns. */
  function ActionAt(env: Env, start: Coordinator, calls: seq<Call>, i: nat): Action
    requires i < |calls|
  {
    Step(env, After(env, start, calls[..i]), calls[i]).1
  }

  /** The actions of a run that need an LDK call, in order. */
  function Log(env: Env, start: Coordinator, calls: seq<Call>): seq<Action> {
    if calls == [] then []
    else
      var n := |calls| - 1;
      var a := Step(env, After(env, start, calls[..n]), calls[n]).1;
      Log(env, start, calls[..n]) + (if a.NoAction? then [] else [a])
  }

  // ── The three consumers ──────────────────────────────────────────────────

  /** The calls LDK's three consumers have received; the sweeper may be missing. */
  datatype Ldk = Ldk(monitor: seq<Action>, manager: seq<Action>, sweeper: Option<seq<Action>>)

  /** An action applied with the sweeper handed over or not. */
  function Deliver(l: Ldk, a: Action, sweeper: bool): Ldk {
    if a.NoAction? then l
    else Ldk(l.monitor + [a], l.manager + [a], if sweeper then Direct(l, [a]).sweeper else l.sweeper)
  }

  /** Calls made on the sweeper alone. */
  function Direct(l: Ldk, calls: seq<Action>): Ldk {
    l.(sweeper := if l.sweeper.Some? then Some(l.sweeper.value + calls) else None)
  }

  /** What the node does: it routes a call through the coordinator and applies the action, with or
      without the sweeper; raises a sweeper that lags the bridge's height; or feeds it confirmed
      transactions. */
  datatype Event =
    | Route(call: Call, sweeper: bool)
    | Raise(header: Header, height: nat, sweeperAt: nat)
    | Feed(txs: seq<(Header, Txid, nat)>)

  function FeedCalls(txs: seq<(Header, Txid, nat)>): seq<Action> {
    seq(|txs|, i requires 0 <= i < |txs| => Confirmed(txs[i].0, 0, txs[i].1, txs[i].2))
  }

  /** The calls made on the sweeper alone by an event. */
  function Alone(e: Event): seq<Action> {
    match e
    case Route(_, _) => []
    case Raise(header, height, sweeperAt) => if height > sweeperAt then [BestBlock(header, height)] else []
    case Feed(txs) => FeedCalls(txs)
  }

  function Calls(events: seq<Event>): seq<Call> {
    if events == [] then []
    else
      var n := |events| - 1;
      if events[n].Route? then Calls(events[..n]) + [events[n].call] else Calls(events[..n])
  }

  /** What the coordinator answers to the i-th event. */
  function AnswerAt(env: Env, start: Coordinator, events: seq<Event>, i: nat): Action
    requires i < |events|
  {
    if events[i].Route? then Step(env, After(env, start, Calls(events[..i])), events[i].call).1 else NoAction
  }

  function Received(env: Env, start: Coordinator, ldk: Ldk, events: seq<Event>): Ldk {
    if events == [] then ldk
    else
      var n := |events| - 1;
      var before := Received(env, start, ldk, events[..n]);
      if events[n].Route? then Deliver(before, AnswerAt(env, start, events, n), events[n].sweeper)
      else Direct(before, Alone(events[n]))
  }

  lemma CallsPush(env: Env, start: Coordinator, events: seq<Event>)
    requires events != []
    ensures var n := |events| - 1;
            Log(env, start, Calls(events)) == Extend(Log(env, start, Calls(events[..n])), AnswerAt(env, start, events, n))
  {
    var n := |events| - 1;
    if events[n].Route? {
      RunPush(env, start, Calls(events[..n]), events[n].call);
    }
  }

  lemma ReceivedPush(env: Env, start: Coordinator, ldk: Ldk, events: seq<Event>)
    requires events != []
    ensures var n := |events| - 1;
            var d, before, a := Received(env, start, ldk, events), Received(env, start, ldk, events[..n]), AnswerAt(env, start, events, n);
            && d.monitor == Extend(before.monitor, a) && d.manager == Extend(before.manager, a)
            && d.sweeper.Some? == before.sweeper.Some?
            && (d.sweeper.Some? ==>
                  d.sweeper.value == Extend(before.sweeper.value, if Withheld(env, start, events, n) > 0 then NoAction else a) + Alone(events[n]))
  {
  }

  /** Monitor and manager receive the same sequence in every run: the coordinator's actions in order,
      whatever is done to the sweeper. */
  lemma {:induction false} ConsumersAgree(env: Env, start: Coordinator, ldk: Ldk, events: seq<Event>)
    ensures var d := Received(env, start, ldk, events);
            && d.monitor == ldk.monitor + Log(env, start, Calls(events))
            && d.manager == ldk.manager + Log(env, start, Calls(events))
            && d.sweeper.Some? == ldk.sweeper.Some?
    decreases |events|
  {
    if events != [] {
      ConsumersAgree(env, start, ldk, events[..|events| - 1]);
      CallsPush(env, start, events);
      ReceivedPush(env, start, ldk, events);
    }
  }

  predicate Lockstep(l: Ldk) {
    l.sweeper == Some(l.monitor)
  }

  /** How many calls an event makes on monitor and manager but not on the sweeper. */
  function Withheld(env: Env, start: Coordinator, events: seq<Event>, i: nat): nat
    requires i < |events|
  {
    if events[i].Route? && !events[i].sweeper && !AnswerAt(env, start, events, i).NoAction? then 1 else 0
  }

  predicate Apart(env: Env, start: Coordinator, events: seq<Event>, i: nat)
    requires i < |events|
  {
    Withheld(env, start, events, i) > 0 || Alone(events[i]) != []
  }

  lemma EventLockstepIff(env: Env, start: Coordinator, ldk: Ldk, events: seq<Event>)
    requires events != [] && Lockstep(Received(env, start, ldk, events[..|events| - 1]))
    ensures Lockstep(Received(env, start, ldk, events)) <==> !Apart(env, start, events, |events| - 1)
  {
    var n := |events| - 1;
    var before := Received(env, start, ldk, events[..n]);
    ReceivedPush(env, start, ldk, events);
    if Apart(env, start, events, n) {
      var d := Received(env, start, ldk, events);
      assert |d.sweeper.value| != |d.monitor|;
    } else {
      assert Extend(before.monitor, AnswerAt(env, start, events, n)) + [] == Extend(before.monitor, AnswerAt(env, start, events, n));
    }
  }

  lemma PrefixApart(env: Env, start: Coordinator, events: seq<Event>, k: nat, i: nat)
    requires i < k <= |events|
    ensures Apart(env, start, events[..k], i) <==> Apart(env, start, events, i)
  {
    assert events[..k][..i] == events[..i];
  }

  lemma {:induction false} TogetherInStep(env: Env, start: Coordinator, ldk: Ldk, events: seq<Event>, k: nat)
    requires Lockstep(ldk) && k <= |events| && forall i :: 0 <= i < |events| ==> !Apart(env, start, events, i)
    ensures Lockstep(Received(env, start, ldk, events[..k]))
    decreases k
  {
    if k > 0 {
      TogetherInStep(env, start, ldk, events, k - 1);
      assert events[..k][..k - 1] == events[..k - 1];
      PrefixApart(env, start, events, k, k - 1);
      EventLockstepIff(env, start, ldk, events[..k]);
    }
  }

  /** The sweeper is in lockstep with monitor and manager throughout a run exactly when the run
      applies no action without it and makes no call on it alone. */
  lemma LockstepIff(env: Env, start: Coordinator, ldk: Ldk, events: seq<Event>)
    requires Lockstep(ldk)
    ensures (forall k :: 0 <= k <= |events| ==> Lockstep(Received(env, start, ldk, events[..k]))) <==>
            (forall i :: 0 <= i < |events| ==> !Apart(env, start, events, i))
  {
    if forall i :: 0 <= i < |events| ==> !Apart(env, start, events, i) {
      forall k | 0 <= k <= |events| ensures Lockstep(Received(env, start, ldk, events[..k])) {
        TogetherInStep(env, start, ldk, events, k);
      }
    } else {
      var i :| 0 <= i < |events| && Apart(env, start, events, i);
      assert events[..i + 1][..i] == events[..i];
      PrefixApart(env, start, events, i + 1, i);
      if Lockstep(Received(env, start, ldk, events[..i])) {
        EventLockstepIff(env, start, ldk, events[..i + 1]);
        assert !Lockstep(Received(env, start, ldk, events[..i + 1]));
      }
    }
  }

  /** All the calls withheld from the sweeper, and all those made on it alone. */
  function AllWithheld(env: Env, start: Coordinator, events: seq<Event>): nat {
    if events == [] then 0
    else AllWithheld(env, start, events[..|events| - 1]) + Withheld(env, start, events, |events| - 1)
  }

  function AllAlone(events: seq<Event>): nat {
    if events == [] then 0 else AllAlone(events[..|events| - 1]) + |Alone(events[|events| - 1])|
  }

  /** The sweeper's sequence is the monitor's short of what was withheld and longer by what was added. */
  lemma {:induction false} SweeperCount(env: Env, start: Coordinator, ldk: Ldk, events: seq<Event>)
    requires Lockstep(ldk)
    ensures var d := Received(env, start, ldk, events);
            d.sweeper.Some? && |d.sweeper.value| + AllWithheld(env, start, events) == |d.monitor| + AllAlone(events)
    ensures AllWithheld(env, start, events) == 0 && AllAlone(events) == 0 ==> Lockstep(Received(env, start, ldk, events))
    decreases |events|
  {
    if events != [] {
      SweeperCount(env, start, ldk, events[..|events| - 1]);
      ReceivedPush(env, start, ldk, events);
      if AllWithheld(env, start, events) == 0 && AllAlone(events) == 0 {
        EventLockstepIff(env, start, ldk, events);
      }
    }
  }

  /** A run that ends in lockstep added as many calls as it withheld; with only one kind, none. */
  lemma EndsInLockstepIff(env: Env, start: Coordinator, ldk: Ldk, events: seq<Event>)
    requires Lockstep(ldk)
    ensures var end, missed, added := Received(env, start, ldk, events), AllWithheld(env, start, events), AllAlone(events);
            && (Lockstep(end) ==> missed == added)
            && (missed == 0 || added == 0 ==> (Lockstep(end) <==> missed == 0 && added == 0))
  {
    SweeperCount(env, start, ldk, events);
  }

  /** The node's own runs: promoted independent confirmations are applied without the sweeper, every
      other action with it. */
  ghost predicate NodeRun(events: seq<Event>) {
    forall i :: 0 <= i < |events| && events[i].Route? ==> (events[i].sweeper <==> !events[i].call.IndependentConf?)
  }

  /** Told beforehand: a promoted confirmation is already held at its height or does not parse, a
      sweeper does not lag, and nothing is fed to it. */
  predicate Idle(env: Env, c: Coordinator, e: Event) {
    match e
    case Route(call, _) => call.IndependentConf? ==> AlreadyHeld(c, call.conf) || env.decode(call.conf.raw).None?
    case Raise(_, height, sweeperAt) => height <= sweeperAt
    case Feed(txs) => txs == []
  }

  lemma NodeApartIff(env: Env, start: Coordinator, events: seq<Event>, i: nat)
    requires NodeRun(events) && i < |events|
    ensures Apart(env, start, events, i) <==> !Idle(env, After(env, start, Calls(events[..i])), events[i])
  {
    assert events[i].Feed? ==> (events[i].txs == [] <==> |FeedCalls(events[i].txs)| == 0);
  }

  /** In those, the sweeper is in lockstep throughout exactly when every promoted confirmation is
      already held at its height or does not parse, the sweeper never lags, and it is fed nothing. */
  lemma NodeLockstepIff(env: Env, start: Coordinator, ldk: Ldk, events: seq<Event>)
    requires Lockstep(ldk) && NodeRun(events)
    ensures (forall k :: 0 <= k <= |events| ==> Lockstep(Received(env, start, ldk, events[..k]))) <==>
            (forall i :: 0 <= i < |events| ==> Idle(env, After(env, start, Calls(events[..i])), events[i]))
  {
    LockstepIff(env, start, ldk, events);
    forall i | 0 <= i < |events|
      ensures Apart(env, start, events, i) <==> !Idle(env, After(env, start, Calls(events[..i])), events[i])
    {
      NodeApartIff(env, start, events, i);
    }
  }

  /** One promoted confirmation that parses: monitor and manager hear of it, the sweeper does not. */
  lemma PromotedSkipsSweeper(env: Env, conf: Conf)
    requires env.decode(conf.raw).Some?
    ensures var events := [Route(IndependentConf(conf), false)];
            var d := Received(env, New(0, 0), Ldk([], [], Some([])), events);
            && NodeRun(events) && |d.monitor| == 1 && d.monitor == d.manager && d.sweeper == Some([])
  {
    var events := [Route(IndependentConf(conf), false)];
    assert events[..0] == [];
    assert Calls([]) == [];
  }

  // ── The ratchet ──────────────────────────────────────────────────────────

  predicate IsCandidate(call: Call) {
    call.BridgeTip? || call.BridgeHeader?
  }

  ghost predicate Passes(tip0: nat, calls: seq<Call>, h: nat) {
    && h > tip0
    && (forall j :: 0 <= j < |calls| && IsCandidate(calls[j]) ==> calls[j].height < h)
    && (forall j :: 0 <= j < |calls| && calls[j].SeedFloor? ==> calls[j].height <= h)
  }

  /** Above the tip is above the initial tip and every candidate so far. */
  ghost predicate TipAt(c: Coordinator, tip0: nat, calls: seq<Call>, h: nat) {
    h > c.tip <==> h > tip0 && forall j :: 0 <= j < |calls| && IsCandidate(calls[j]) ==> calls[j].height < h
  }

  lemma {:induction false} TipFollows(env: Env, start: Coordinator, calls: seq<Call>, h: nat)
    ensures TipAt(After(env, start, calls), start.tip, calls, h)
    decreases |calls|
  {
    if calls != [] {
      var n := |calls| - 1;
      TipFollows(env, start, calls[..n], h);
      assert forall j :: 0 <= j < n ==> calls[..n][j] == calls[j];
    }
  }

  /** The mint would not drop the height. */
  predicate AtFloor(c: Coordinator, h: nat) {
    c.floor.Some? ==> h >= c.floor.value
  }

  lemma FloorStep(env: Env, c: Coordinator, call: Call, h: nat)
    requires h > Step(env, c, call).0.tip
    ensures h > c.tip
    ensures AtFloor(Step(env, c, call).0, h) <==> AtFloor(c, h) && (call.SeedFloor? ==> call.height <= h)
  {
  }

  lemma {:induction false} FloorFollows(env: Env, start: Coordinator, calls: seq<Call>, h: nat)
    requires start.floor.None? && h > After(env, start, calls).tip
    ensures AtFloor(After(env, start, calls), h) <==> forall j :: 0 <= j < |calls| && calls[j].SeedFloor? ==> calls[j].height <= h
    decreases |calls|
  {
    if calls != [] {
      var n := |calls| - 1;
      FloorStep(env, After(env, start, calls[..n]), calls[n], h);
      FloorFollows(env, start, calls[..n], h);
      SeedsSplit(calls, h);
    }
  }

  lemma SeedsSplit(calls: seq<Call>, h: nat)
    requires calls != []
    ensures var n := |calls| - 1;
            (forall j :: 0 <= j < |calls| && calls[j].SeedFloor? ==> calls[j].height <= h) <==>
            (calls[n].SeedFloor? ==> calls[n].height <= h) &&
            (forall j :: 0 <= j < |calls[..n]| && calls[..n][j].SeedFloor? ==> calls[..n][j].height <= h)
  {
    var n := |calls| - 1;
    assert forall j :: 0 <= j < n ==> calls[..n][j] == calls[j];
  }

  /** A candidate of either lane yields BestBlockUpdated exactly when it is above the initial tip and
      every earlier candidate and at or above every floor seeded before it; nothing else does. */
  lemma RatchetExact(env: Env, start: Coordinator, calls: seq<Call>, i: nat)
    requires start.floor.None? && i < |calls|
    ensures var a := ActionAt(env, start, calls, i);
            && (a.BestBlock? <==> IsCandidate(calls[i]) && Passes(start.tip, calls[..i], calls[i].height))
            && (a.BestBlock? ==> a == BestBlock(calls[i].header, calls[i].height))
  {
    if IsCandidate(calls[i]) {
      TipFollows(env, start, calls[..i], calls[i].height);
      if calls[i].height > After(env, start, calls[..i]).tip {
        FloorFollows(env, start, calls[..i], calls[i].height);
      }
    }
  }

  /** Emitted heights strictly increase across both lanes. */
  lemma EmittedIncrease(env: Env, start: Coordinator, calls: seq<Call>, i: nat, j: nat)
    requires start.floor.None? && i < j < |calls|
    requires ActionAt(env, start, calls, i).BestBlock? && ActionAt(env, start, calls, j).BestBlock?
    ensures ActionAt(env, start, calls, i).height < ActionAt(env, start, calls, j).height
  {
    RatchetExact(env, start, calls, i);
    RatchetExact(env, start, calls, j);
    assert calls[..j][i] == calls[i];
  }

  /** The j-th call is the candidate that last moved the tip: above the initial tip and every candidate
      before it, and at or above every candidate after it. */
  ghost predicate SetsTip(tip0: nat, calls: seq<Call>, j: nat) {
    && j < |calls| && IsCandidate(calls[j]) && calls[j].height > tip0
    && (forall k :: 0 <= k < j && IsCandidate(calls[k]) ==> calls[k].height < calls[j].height)
    && (forall k :: j < k < |calls| && IsCandidate(calls[k]) ==> calls[k].height <= calls[j].height)
  }

  function HashOf(env: Env, call: Call): Hash
    requires IsCandidate(call)
  {
    if call.BridgeTip? then call.hash else env.hashOf(call.header)
  }

  lemma StepTip(env: Env, c: Coordinator, call: Call)
    ensures var d := Step(env, c, call).0;
            if IsCandidate(call) && call.height > c.tip then d.tip == call.height && d.tipHash == HashOf(env, call)
            else d.tip == c.tip && d.tipHash == c.tipHash
  {
  }

  lemma SetsTipKept(tip0: nat, calls: seq<Call>, j: nat)
    requires calls != [] && SetsTip(tip0, calls[..|calls| - 1], j)
    requires IsCandidate(calls[|calls| - 1]) ==> calls[|calls| - 1].height <= calls[j].height
    ensures SetsTip(tip0, calls, j)
  {
    assert forall k :: 0 <= k < |calls| - 1 ==> calls[..|calls| - 1][k] == calls[k];
  }

  /** In every run the tip is the initial one, and no candidate was above it, or it is the height and
      the hash of the first candidate of the greatest height. */
  lemma {:induction false} TipExact(env: Env, start: Coordinator, calls: seq<Call>)
    ensures var c := After(env, start, calls);
            || (c.tip == start.tip && c.tipHash == start.tipHash
                && forall k :: 0 <= k < |calls| && IsCandidate(calls[k]) ==> calls[k].height <= start.tip)
            || exists j :: 0 <= j < |calls| && SetsTip(start.tip, calls, j) && c.tip == calls[j].height && c.tipHash == HashOf(env, calls[j])
    decreases |calls|
  {
    if calls != [] {
      var n := |calls| - 1;
      TipExact(env, start, calls[..n]);
      var b := After(env, start, calls[..n]);
      StepTip(env, b, calls[n]);
      assert forall k :: 0 <= k < n ==> calls[..n][k] == calls[k];
      if IsCandidate(calls[n]) && calls[n].height > b.tip {
        TipFollows(env, start, calls[..n], calls[n].height);
        assert SetsTip(start.tip, calls, n);
      } else if j :| 0 <= j < n && SetsTip(start.tip, calls[..n], j) && b.tip == calls[..n][j].height && b.tipHash == HashOf(env, calls[..n][j]) {
        SetsTipKept(start.tip, calls, j);
      }
    }
  }

  // ── Confirmations ────────────────────────────────────────────────────────

  predicate About(a: Action, txid: Txid) {
    (a.Confirmed? || a.Unconfirmed?) && a.txid == txid
  }

  /** The height LDK was last told a transaction confirmed at; None if never, or if unconfirmed since. */
  function LastReport(log: seq<Action>, txid: Txid): Option<nat> {
    if log == [] then None
    else
      var n := |log| - 1;
      if !About(log[n], txid) then LastReport(log[..n], txid)
      else if log[n].Confirmed? then Some(log[n].height)
      else None
  }

  lemma ReportPush(log: seq<Action>, a: Action, txid: Txid)
    ensures LastReport(log + [a], txid) ==
            if !About(a, txid) then LastReport(log, txid) else if a.Confirmed? then Some(a.height) else None
  {
  }

  /** Each non-hydrated confirmation was last reported confirmed at its recorded height. */
  ghost predicate AgreesOn(c: Coordinator, log: seq<Action>, txid: Txid) {
    txid in c.confirmed && !c.confirmed[txid].source.Hydrated? ==> LastReport(log, txid) == Some(c.confirmed[txid].height)
  }

  ghost predicate Agrees(c: Coordinator, log: seq<Action>) {
    forall txid :: AgreesOn(c, log, txid)
  }

  function Extend(log: seq<Action>, a: Action): seq<Action> {
    if a.NoAction? then log else log + [a]
  }

  /** The confirmation a call stores, if it stores one. */
  function Stored(c: Coordinator, call: Call): Option<Conf> {
    if call.BridgeConf? then Some(call.conf)
    else if call.IndependentConf? && !AlreadyHeld(c, call.conf) then Some(call.conf)
    else None
  }

  /** The raw bytes are the transaction's own; or LDK was already told this height, and whatever the
      bytes do parse to is not held at another. */
  ghost predicate ReportSafe(env: Env, c: Coordinator, log: seq<Action>, conf: Conf) {
    var tx := env.decode(conf.raw);
    || tx == Some(conf.txid)
    || (LastReport(log, conf.txid) == Some(conf.height) &&
        (tx.None? || tx.value !in c.confirmed || c.confirmed[tx.value].source.Hydrated? || c.confirmed[tx.value].height == conf.height))
  }

  /** Hydration keeps every entry it is not given, and marks each it is given as hydrated. */
  lemma {:induction false} HydrateAllOnly(m: map<Txid, Confirmation>, channels: seq<(Txid, nat, nat)>, txid: Txid)
    ensures var r := HydrateAll(m, channels);
            && (txid in m ==> txid in r)
            && (txid in r ==>
                  || (txid in m && r[txid] == m[txid])
                  || exists k :: 0 <= k < |channels| && channels[k].0 == txid
                                 && r[txid] == Confirmation(channels[k].1, 0, channels[k].2, [], Hydrated))
            && (forall k :: 0 <= k < |channels| && channels[k].0 == txid ==> txid in r && r[txid].source.Hydrated?)
    decreases |channels|
  {
    if channels != [] {
      var n := |channels| - 1;
      HydrateAllOnly(m, channels[..n], txid);
      assert forall k :: 0 <= k < n ==> channels[..n][k] == channels[k];
    }
  }

  lemma StoreAgreesIff(env: Env, c: Coordinator, log: seq<Action>, conf: Conf, source: Source)
    requires Agrees(c, log) && !source.Hydrated?
    ensures var r := Store(env, c, conf, source);
            Agrees(r.0, Extend(log, r.1)) <==> ReportSafe(env, c, log, conf)
  {
    var r := Store(env, c, conf, source);
    var log' := Extend(log, r.1);
    if ReportSafe(env, c, log, conf) {
      forall txid ensures AgreesOn(r.0, log', txid) {
        ReportPush(log, r.1, txid);
        assert AgreesOn(c, log, txid);
      }
    } else {
      ReportPush(log, r.1, conf.txid);
      var tx := env.decode(conf.raw);
      if LastReport(log, conf.txid) != Some(conf.height) {
        assert !AgreesOn(r.0, log', conf.txid);
      } else {
        ReportPush(log, r.1, tx.value);
        assert !AgreesOn(r.0, log', tx.value);
      }
    }
  }

  /** A call keeps the agreement exactly when the confirmation it stores, if any, is safe to report. */
  lemma StepAgreesIff(env: Env, c: Coordinator, log: seq<Action>, call: Call)
    requires Agrees(c, log)
    ensures var r := Step(env, c, call);
            Agrees(r.0, Extend(log, r.1)) <==> (Stored(c, call).Some? ==> ReportSafe(env, c, log, Stored(c, call).value))
  {
    var r := Step(env, c, call);
    match call
    case BridgeConf(conf) => StoreAgreesIff(env, c, log, conf, CooperativeBridge);
    case IndependentConf(conf) =>
      if !AlreadyHeld(c, conf) {
        StoreAgreesIff(env, c, log, conf, IndependentEsplora);
      }
    case Hydrate(channels) =>
      forall txid ensures AgreesOn(r.0, log, txid) {
        HydrateAllOnly(c.confirmed, channels, txid);
        assert AgreesOn(c, log, txid);
      }
    case _ =>
      forall txid ensures AgreesOn(r.0, Extend(log, r.1), txid) {
        ReportPush(log, r.1, txid);
        assert AgreesOn(c, log, txid);
      }
  }

  /** Every raw transaction of a run parses to its own transaction. */
  ghost predicate Parses(env: Env, calls: seq<Call>) {
    forall i :: 0 <= i < |calls| && (calls[i].BridgeConf? || calls[i].IndependentConf?) ==>
      env.decode(calls[i].conf.raw) == Some(calls[i].conf.txid)
  }

  /** In every run whose raw transactions parse, each non-hydrated confirmation held was last
      reported to LDK as confirmed at its recorded height. */
  lemma {:induction false} EveryRunAgrees(env: Env, tip: nat, hash: Hash, calls: seq<Call>)
    requires Parses(env, calls)
    ensures Agrees(After(env, New(tip, hash), calls), Log(env, New(tip, hash), calls))
    decreases |calls|
  {
    if calls != [] {
      var n := |calls| - 1;
      assert forall i :: 0 <= i < n ==> calls[..n][i] == calls[i];
      EveryRunAgrees(env, tip, hash, calls[..n]);
      StepAgreesIff(env, After(env, New(tip, hash), calls[..n]), Log(env, New(tip, hash), calls[..n]), calls[n]);
      var r := Step(env, After(env, New(tip, hash), calls[..n]), calls[n]);
      assert Log(env, New(tip, hash), calls) == Extend(Log(env, New(tip, hash), calls[..n]), r.1);
    }
  }

  /** A confirmation leaves only through force_unconfirm of that transaction, and LDK is told. */
  lemma OnlyForceUnconfirmRemoves(env: Env, c: Coordinator, call: Call, txid: Txid)
    requires txid in c.confirmed && txid !in Step(env, c, call).0.confirmed
    ensures call == ForceUnconfirm(txid) && Step(env, c, call).1 == Unconfirmed(txid)
  {
    if call.Hydrate? {
      HydrateAllOnly(c.confirmed, call.channels, txid);
    }
  }

  /** One bridge confirmation whose bytes do not parse: held as confirmed, never reported. */
  lemma UnparsedIsHeldUnreported(env: Env, conf: Conf)
    requires env.decode(conf.raw).None?
    ensures var calls := [BridgeConf(conf)];
            && conf.txid in After(env, New(0, 0), calls).confirmed
            && Log(env, New(0, 0), calls) == []
            && !Agrees(After(env, New(0, 0), calls), Log(env, New(0, 0), calls))
  {
    var calls := [BridgeConf(conf)];
    assert calls[..0] == [];
    assert !AgreesOn(After(env, New(0, 0), calls), [], conf.txid);
  }

  // ── What is reported, and what is held ───────────────────────────────────

  function SourceOf(call: Call): Source {
    if call.BridgeConf? then CooperativeBridge else IndependentEsplora
  }

  function RecordOf(conf: Conf, source: Source): Confirmation {
    Confirmation(conf.height, conf.block, conf.index, conf.raw, source)
  }

  /** The i-th call of a run reports a confirmation exactly when it is a bridge confirmation, or an
      independent one not yet held at its height, and its bytes parse; it then carries that call's
      header, index and height and the parsed transaction. It reports an unconfirmation exactly when it
      is that forced call. */
  lemma ReportExact(env: Env, start: Coordinator, calls: seq<Call>, i: nat)
    requires i < |calls|
    ensures var a, stored := ActionAt(env, start, calls, i), Stored(After(env, start, calls[..i]), calls[i]);
            && (stored.Some? <==> calls[i].BridgeConf?
                                  || (calls[i].IndependentConf? && !AlreadyHeld(After(env, start, calls[..i]), calls[i].conf)))
            && (a.Confirmed? <==> stored.Some? && env.decode(stored.value.raw).Some?)
            && (a.Confirmed? ==>
                  var conf := calls[i].conf;
                  a == Confirmed(conf.header, conf.index, env.decode(conf.raw).value, conf.height))
            && (a.Unconfirmed? <==> calls[i].ForceUnconfirm?)
            && (a.Unconfirmed? ==> a.txid == calls[i].txid)
  {
  }

  /** What the i-th call does to one held record. */
  datatype Effect = Leaves | Holds(record: Confirmation) | Forgets

  function ChannelRecord(channel: (Txid, nat, nat)): Confirmation {
    Confirmation(channel.1, 0, channel.2, [], Hydrated)
  }

  /** The last of the channels with this transaction. */
  function LastChannel(channels: seq<(Txid, nat, nat)>, txid: Txid): Option<(Txid, nat, nat)> {
    if channels == [] then None
    else if channels[|channels| - 1].0 == txid then Some(channels[|channels| - 1])
    else LastChannel(channels[..|channels| - 1], txid)
  }

  function EffectOn(c: Coordinator, call: Call, txid: Txid): Effect {
    var stored := Stored(c, call);
    if stored.Some? && stored.value.txid == txid then Holds(RecordOf(stored.value, SourceOf(call)))
    else if call.Hydrate? && LastChannel(call.channels, txid).Some? then Holds(ChannelRecord(LastChannel(call.channels, txid).value))
    else if call == ForceUnconfirm(txid) then Forgets
    else Leaves
  }

  lemma {:induction false} HydrateKeepsLast(m: map<Txid, Confirmation>, channels: seq<(Txid, nat, nat)>, txid: Txid)
    ensures var r, last := HydrateAll(m, channels), LastChannel(channels, txid);
            if last.Some? then txid in r && r[txid] == ChannelRecord(last.value)
            else (txid in r <==> txid in m) && (txid in m ==> r[txid] == m[txid])
    decreases |channels|
  {
    if channels != [] {
      HydrateKeepsLast(m, channels[..|channels| - 1], txid);
    }
  }

  lemma EffectExact(env: Env, c: Coordinator, call: Call, txid: Txid)
    ensures var d, e := Step(env, c, call).0.confirmed, EffectOn(c, call, txid);
            && (e.Holds? ==> txid in d && d[txid] == e.record)
            && (e.Forgets? ==> txid !in d)
            && (e.Leaves? ==> (txid in d <==> txid in c.confirmed) && (txid in d ==> d[txid] == c.confirmed[txid]))
  {
    if call.Hydrate? {
      HydrateKeepsLast(c.confirmed, call.channels, txid);
    }
  }

  /** The i-th call is the last of the run that did anything to the record of `txid`. */
  ghost predicate LastEffect(env: Env, start: Coordinator, calls: seq<Call>, txid: Txid, i: nat) {
    && i < |calls| && !EffectOn(After(env, start, calls[..i]), calls[i], txid).Leaves?
    && forall k :: i < k < |calls| ==> EffectOn(After(env, start, calls[..k]), calls[k], txid).Leaves?
  }

  lemma {:induction false} Untouched(env: Env, start: Coordinator, calls: seq<Call>, txid: Txid, i: nat, k: nat)
    requires i <= k <= |calls|
    requires forall j :: i <= j < k ==> EffectOn(After(env, start, calls[..j]), calls[j], txid).Leaves?
    ensures var c, d := After(env, start, calls[..i]).confirmed, After(env, start, calls[..k]).confirmed;
            (txid in d <==> txid in c) && (txid in d ==> d[txid] == c[txid])
    decreases k
  {
    if i < k {
      Untouched(env, start, calls, txid, i, k - 1);
      assert calls[..k][..k - 1] == calls[..k - 1];
      EffectExact(env, After(env, start, calls[..k - 1]), calls[k - 1], txid);
    }
  }

  /** In every run, what is held for a transaction is what the last call that touched it stored: the
      block, index, bytes and source of that confirmation, or of the channel hydrated last; nothing,
      if that call forced it unconfirmed. */
  lemma HeldExact(env: Env, start: Coordinator, calls: seq<Call>, txid: Txid, i: nat)
    requires LastEffect(env, start, calls, txid, i)
    ensures var d, e := After(env, start, calls).confirmed, EffectOn(After(env, start, calls[..i]), calls[i], txid);
            && (txid in d <==> e.Holds?)
            && (e.Holds? ==> d[txid] == e.record)
  {
    Untouched(env, start, calls, txid, i + 1, |calls|);
    assert calls[..|calls|] == calls;
    assert calls[..i + 1][..i] == calls[..i];
    EffectExact(env, After(env, start, calls[..i]), calls[i], txid);
  }

  /** And nothing is held that no call touched. */
  lemma NothingHeldUntouched(env: Env, tip: nat, hash: Hash, calls: seq<Call>, txid: Txid)
    requires forall k :: 0 <= k < |calls| ==> EffectOn(After(env, New(tip, hash), calls[..k]), calls[k], txid).Leaves?
    ensures txid !in After(env, New(tip, hash), calls).confirmed
  {
    Untouched(env, New(tip, hash), calls, txid, 0, |calls|);
    assert calls[..|calls|] == calls && calls[..0] == [];
  }

  // ── The observed tip and the floor ───────────────────────────────────────

  predicate Observes(call: Call) {
    call.BridgeTipObserved? || call.SeedFloor?
  }

  lemma StepObserved(env: Env, c: Coordinator, call: Call, h: nat)
    ensures ObservedHeight(Step(env, c, call).0) <= h <==> ObservedHeight(c) <= h && (Observes(call) ==> call.height <= h)
  {
  }

  lemma {:induction false} ObservedRises(env: Env, start: Coordinator, calls: seq<Call>, h: nat)
    ensures ObservedHeight(After(env, start, calls)) <= h <==>
            ObservedHeight(start) <= h && forall k :: 0 <= k < |calls| && Observes(calls[k]) ==> calls[k].height <= h
    decreases |calls|
  {
    if calls != [] {
      var n := |calls| - 1;
      ObservedRises(env, start, calls[..n], h);
      StepObserved(env, After(env, start, calls[..n]), calls[n], h);
      assert forall k :: 0 <= k < n ==> calls[..n][k] == calls[k];
    }
  }

  /** In every run the tip that observations are compared with is the greatest height observed or
      seeded, and its hash is that of a call with that height. */
  lemma {:induction false} ObservedExact(env: Env, start: Coordinator, calls: seq<Call>)
    ensures var o := After(env, start, calls).observed;
            o == start.observed
            || (o.Some? && exists k :: 0 <= k < |calls| && Observes(calls[k]) && o.value == (calls[k].height, calls[k].hash))
    ensures forall k :: 0 <= k < |calls| && Observes(calls[k]) ==> calls[k].height <= ObservedHeight(After(env, start, calls))
    decreases |calls|
  {
    ObservedRises(env, start, calls, ObservedHeight(After(env, start, calls)));
    if calls != [] {
      var n := |calls| - 1;
      ObservedExact(env, start, calls[..n]);
      assert forall k :: 0 <= k < n ==> calls[..n][k] == calls[k];
      var o := After(env, start, calls).observed;
      if o != After(env, start, calls[..n]).observed {
        assert Observes(calls[n]) && o.value == (calls[n].height, calls[n].hash);
      }
    }
  }

  // ── What the sweeper is told alone ───────────────────────────────────────

  /** The height of the last of the fed transactions that is this one. */
  function LastFed(txs: seq<(Header, Txid, nat)>, txid: Txid): Option<nat> {
    if txs == [] then None
    else if txs[|txs| - 1].1 == txid then Some(txs[|txs| - 1].2)
    else LastFed(txs[..|txs| - 1], txid)
  }

  lemma {:induction false} FedReports(log: seq<Action>, txs: seq<(Header, Txid, nat)>, txid: Txid)
    ensures LastReport(log + FeedCalls(txs), txid) == if LastFed(txs, txid).Some? then LastFed(txs, txid) else LastReport(log, txid)
    decreases |txs|
  {
    if txs == [] {
      assert log + FeedCalls(txs) == log;
    } else {
      var n := |txs| - 1;
      FedReports(log, txs[..n], txid);
      var a := Confirmed(txs[n].0, 0, txs[n].1, txs[n].2);
      assert log + FeedCalls(txs) == log + FeedCalls(txs[..n]) + [a];
      ReportPush(log + FeedCalls(txs[..n]), a, txid);
    }
  }

  /** After a feed the sweeper was last told of each fed transaction at the height it was fed with, and of
      the others what it was before; after it is raised past where it stood, its last call is that best
      block; monitor and manager hear nothing of either. */
  lemma SweeperHearsAlone(env: Env, start: Coordinator, ldk: Ldk, events: seq<Event>, txid: Txid)
    requires events != [] && ldk.sweeper.Some? && !events[|events| - 1].Route?
    ensures var n := |events| - 1;
            var e, before, after := events[n], Received(env, start, ldk, events[..n]), Received(env, start, ldk, events);
            && before.sweeper.Some? && after.sweeper.Some? && after.monitor == before.monitor && after.manager == before.manager
            && (e.Feed? ==> LastReport(after.sweeper.value, txid) ==
                            if LastFed(e.txs, txid).Some? then LastFed(e.txs, txid) else LastReport(before.sweeper.value, txid))
            && (e.Raise? ==> after.sweeper.value == before.sweeper.value
                             + (if e.height > e.sweeperAt then [BestBlock(e.header, e.height)] else []))
  {
    var n := |events| - 1;
    ConsumersAgree(env, start, ldk, events[..n]);
    ReceivedPush(env, start, ldk, events);
    if events[n].Feed? {
      FedReports(Received(env, start, ldk, events[..n]).sweeper.value, events[n].txs, txid);
    }
  }

  // ── Verify-only observations ─────────────────────────────────────────────

  predicate VerifyOnly(call: Call) {
    call.IndependentTip? || call.IndependentStatus? || call.BridgeTipObserved?
  }

  /** A run without its verify-only observations. */
  function Acting(calls: seq<Call>): seq<Call> {
    if calls == [] then []
    else
      var n := |calls| - 1;
      Acting(calls[..n]) + (if VerifyOnly(calls[n]) then [] else [calls[n]])
  }

  /** Equal but for the tip that observations are compared with. */
  predicate SameState(c: Coordinator, d: Coordinator) {
    c.(observed := None) == d.(observed := None)
  }

  lemma StepIgnoresObserved(env: Env, c: Coordinator, d: Coordinator, call: Call)
    requires SameState(c, d)
    ensures Step(env, c, call).1 == Step(env, d, call).1 && SameState(Step(env, c, call).0, Step(env, d, call).0)
    ensures VerifyOnly(call) ==> Step(env, c, call).1.NoAction? && SameState(Step(env, c, call).0, d)
  {
  }

  lemma RunPush(env: Env, start: Coordinator, calls: seq<Call>, call: Call)
    ensures After(env, start, calls + [call]) == Step(env, After(env, start, calls), call).0
    ensures Log(env, start, calls + [call]) == Extend(Log(env, start, calls), Step(env, After(env, start, calls), call).1)
  {
  }

  /** Verify-only observations change nothing: without them every run ends with the same tip, floor
      and confirmations and has delivered the same calls. */
  lemma {:induction false} VerifyOnlyIrrelevant(env: Env, start: Coordinator, calls: seq<Call>)
    ensures SameState(After(env, start, calls), After(env, start, Acting(calls)))
    ensures Log(env, start, calls) == Log(env, start, Acting(calls))
    decreases |calls|
  {
    if calls != [] {
      var n := |calls| - 1;
      var rest := Acting(calls[..n]);
      VerifyOnlyIrrelevant(env, start, calls[..n]);
      StepIgnoresObserved(env, After(env, start, calls[..n]), After(env, start, rest), calls[n]);
      assert Acting(calls) == if VerifyOnly(calls[n]) then rest else rest + [calls[n]];
      RunPush(env, start, rest, calls[n]);
    }
  }

  // ── The objects ──────────────────────────────────────────────────────────

  /** One of LDK's Confirm implementations, as the calls it has received. */
  class Consumer {
    var received: seq<Action>

    constructor ()
      ensures received == []
    {
      received := [];
    }
  }

  ghost function Heard(monitor: Consumer, manager: Consumer, sweeper: Consumer?): Ldk
    reads monitor, manager, if sweeper != null then {sweeper} else {}
  {
    Ldk(monitor.received, manager.received, if sweeper != null then Some(sweeper.received) else None)
  }

  /** PendingLdkAction::apply: monitor, then manager, then the sweeper handed over, if one is. The
      node's sweeper is `kept` from an action applied without it. */
  method Apply(a: Action, monitor: Consumer, manager: Consumer, sweeper: Consumer?, ghost kept: Consumer?)
    requires monitor != manager && sweeper != monitor && sweeper != manager
    requires kept != monitor && kept != manager && (sweeper == null || sweeper == kept)
    modifies monitor, manager, if sweeper != null then {sweeper} else {}
    ensures Heard(monitor, manager, kept) == Deliver(old(Heard(monitor, manager, kept)), a, sweeper != null)
  {
    if !a.NoAction? {
      monitor.received := monitor.received + [a];
      manager.received := manager.received + [a];
      if sweeper != null {
        sweeper.received := sweeper.received + [a];
      }
    }
  }

  /** reconcile_sweeper_confirmations: each transaction goes to the sweeper alone, in order. */
  method ReconcileSweeper(txs: seq<(Header, Txid, nat)>, sweeper: Consumer?, monitor: Consumer, manager: Consumer) returns (fed: nat)
    requires sweeper != monitor && sweeper != manager
    modifies if sweeper != null then {sweeper} else {}
    ensures Heard(monitor, manager, sweeper) == Direct(old(Heard(monitor, manager, sweeper)), Alone(Feed(txs)))
    ensures fed == if sweeper != null then |txs| else 0
  {
    if sweeper == null {
      return 0;
    }
    for i := 0 to |txs|
      invariant sweeper.received == old(sweeper.received) + FeedCalls(txs)[..i]
    {
      sweeper.received := sweeper.received + [Confirmed(txs[i].0, 0, txs[i].1, txs[i].2)];
    }
    assert FeedCalls(txs)[..|txs|] == FeedCalls(txs);
    return |txs|;
  }

  class Router {
    const env: Env
    var tip: nat
    var tipHash: Hash
    var confirmed: map<Txid, Confirmation>
    var observed: Option<(nat, Hash)>
    var floor: Option<nat>

    function State(): Coordinator
      reads this
    {
      Coordinator(tip, tipHash, confirmed, observed, floor)
    }

    constructor (env: Env, height: nat, hash: Hash)
      ensures this.env == env && State() == New(height, hash)
    {
      this.env := env;
      tip, tipHash, confirmed, observed, floor := height, hash, map[], None, None;
    }

    method HydrateFromChannels(channels: seq<(Txid, nat, nat)>)
      modifies this`confirmed
      ensures State() == Step(env, old(State()), Hydrate(channels)).0
    {
      for i := 0 to |channels|
        invariant confirmed == HydrateAll(old(confirmed), channels[..i])
      {
        assert channels[..i + 1][..i] == channels[..i];
        confirmed := confirmed[channels[i].0 := Confirmation(channels[i].1, 0, channels[i].2, [], Hydrated)];
      }
      assert channels[..|channels|] == channels;
    }

    method EmitBest(header: Header, height: nat) returns (a: Action)
      modifies this`floor
      ensures (State(), a) == EmitBestBlock(old(State()), header, height)
    {
      var least := if floor.Some? then floor.value else 0;
      if height < least {
        return NoAction;
      }
      floor := Some(height);
      return BestBlock(header, height);
    }

    method IngestBridgeTip(height: nat, hash: Hash, header: Header) returns (a: Action)
      modifies this
      ensures (State(), a) == Step(env, old(State()), BridgeTip(height, hash, header))
    {
      if height <= tip {
        return NoAction;
      }
      tip, tipHash := height, hash;
      a := EmitBest(header, height);
    }

    method IngestBridgeBlockHeader(header: Header, height: nat) returns (a: Action)
      modifies this
      ensures (State(), a) == Step(env, old(State()), BridgeHeader(header, height))
    {
      if height <= tip {
        return NoAction;
      }
      tip, tipHash := height, env.hashOf(header);
      a := EmitBest(header, height);
    }

    method Keep(conf: Conf, source: Source) returns (a: Action)
      modifies this`confirmed
      ensures (State(), a) == Store(env, old(State()), conf, source)
    {
      confirmed := confirmed[conf.txid := Confirmation(conf.height, conf.block, conf.index, conf.raw, source)];
      var tx := env.decode(conf.raw);
      if tx.None? {
        return NoAction;
      }
      return Confirmed(conf.header, conf.index, tx.value, conf.height);
    }

    method IngestBridgeConf(conf: Conf) returns (a: Action)
      modifies this
      ensures (State(), a) == Step(env, old(State()), BridgeConf(conf))
    {
      a := Keep(conf, CooperativeBridge);
    }

    method IngestIndependentConfirmation(conf: Conf) returns (a: Action)
      modifies this
      ensures (State(), a) == Step(env, old(State()), IndependentConf(conf))
    {
      if conf.txid in confirmed && confirmed[conf.txid].height == conf.height {
        return NoAction;
      }
      a := Keep(conf, IndependentEsplora);
    }

    method IngestBridgeTipObserved(height: nat, hash: Hash)
      modifies this`observed
      ensures State() == Step(env, old(State()), BridgeTipObserved(height, hash)).0
    {
      var prior := if observed.Some? then observed.value.0 else 0;
      if height >= prior {
        observed := Some((height, hash));
      }
    }

    method SeedBestFloor(height: nat, hash: Hash)
      modifies this`observed, this`floor
      ensures State() == Step(env, old(State()), SeedFloor(height, hash)).0
    {
      var prior := if observed.Some? then observed.value.0 else 0;
      if height > prior {
        observed := Some((height, hash));
      }
      if floor.None? || height > floor.value {
        floor := Some(height);
      }
    }

    method ForceUnconfirmTx(txid: Txid) returns (a: Action)
      modifies this`confirmed
      ensures (State(), a) == Step(env, old(State()), ForceUnconfirm(txid))
    {
      confirmed := confirmed - {txid};
      return Unconfirmed(txid);
    }
  }
}
