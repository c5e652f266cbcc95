/**
 The watch subscription (lij/lij-core/src/chain_filter.rs, cooperative_chain_handler.rs,
 cooperative_chain_bridge.rs beside it): LDK registers what to watch, the bridge forwards it to the
 provider through the handler's queue, and the link drops what is addressed to an absent peer.
 */
module WatchProtocol {
  import opened Prelude

  type Txid = nat
  type Script = nat
  type Peer = nat

  datatype WatchedTx = WatchedTx(txid: Txid, script: Script)

  datatype WatchedOutput = WatchedOutput(txid: Txid, index: nat, script: Script, block: Option<nat>)

  datatype Message =
    | Subscribe(txids: seq<Txid>, scripts: seq<Script>)
    | RegisterTx(txid: Txid, script: Script)
    | RegisterOutput(txid: Txid, index: nat, script: Script, block: Option<nat>)

  /** The filter's registry: everything watched, and what is new since the last drain. */
  datatype Filter = Filter(txs: seq<WatchedTx>, outs: seq<WatchedOutput>, newTxs: seq<WatchedTx>, newOuts: seq<WatchedOutput>)

  datatype Handler = Handler(outbound: seq<(Peer, Message)>, target: Option<Peer>, wanted: bool, last: Option<Message>)

  /** The peers connected, and what has gone out on each one's current connection. */
  datatype Link = Link(connected: set<Peer>, sent: map<Peer, set<Message>>)

  datatype Wallet = Wallet(filter: Filter, handler: Handler, lsp: Option<Peer>, link: Link)

  // ── The filter ───────────────────────────────────────────────────────────

  function AddTx(f: Filter, w: WatchedTx): Filter {
    if w in f.txs then f else f.(txs := f.txs + [w], newTxs := f.newTxs + [w])
  }

  function AddOutput(f: Filter, o: WatchedOutput): Filter {
    if o in f.outs then f else f.(outs := f.outs + [o], newOuts := f.newOuts + [o])
  }

  function TakeNew(f: Filter): Filter {
    f.(newTxs := [], newOuts := [])
  }

  function MarkAll(f: Filter): Filter {
    f.(newTxs := f.txs, newOuts := f.outs)
  }

  // ── The handler ──────────────────────────────────────────────────────────

  function Enqueue(h: Handler, p: Peer, m: Message): Handler {
    h.(outbound := h.outbound + [(p, m)])
  }

  function SendSubscribe(h: Handler, p: Peer, m: Message): Handler {
    Enqueue(h.(target := Some(p), last := Some(m)), p, m)
  }

  function PeerConnected(h: Handler, p: Peer): Handler {
    if h.target != Some(p) then h
    else (if h.last.Some? then Enqueue(h, p, h.last.value) else h).(wanted := true)
  }

  function PeerDisconnected(h: Handler, p: Peer): Handler {
    if h.target == Some(p) then h.(wanted := true) else h
  }

  // ── The bridge ───────────────────────────────────────────────────────────

  function TxidsOf(s: seq<WatchedTx>): seq<Txid> {
    seq(|s|, i requires 0 <= i < |s| => s[i].txid)
  }

  function TxScripts(s: seq<WatchedTx>): seq<Script> {
    seq(|s|, i requires 0 <= i < |s| => s[i].script)
  }

  function OutScripts(s: seq<WatchedOutput>): seq<Script> {
    seq(|s|, i requires 0 <= i < |s| => s[i].script)
  }

  /** A fresh snapshot of everything watched. */
  function Snapshot(f: Filter): Message {
    Subscribe(TxidsOf(f.txs), TxScripts(f.txs) + OutScripts(f.outs))
  }

  function ForwardTxs(h: Handler, p: Peer, s: seq<WatchedTx>): Handler {
    h.(outbound := h.outbound + seq(|s|, i requires 0 <= i < |s| => (p, RegisterTx(s[i].txid, s[i].script))))
  }

  function ForwardOuts(h: Handler, p: Peer, s: seq<WatchedOutput>): Handler {
    h.(outbound := h.outbound + seq(|s|, i requires 0 <= i < |s| => (p, RegisterOutput(s[i].txid, s[i].index, s[i].script, s[i].block))))
  }

  // ── Steps ────────────────────────────────────────────────────────────────

  datatype Step =
    | WatchTx(tx: WatchedTx)
    | WatchOutput(output: WatchedOutput)
    | MarkAllForResubscribe
    | RegistrationTick
    | SubscribeTick(ask: bool)
    | Flush
    | Connect(peer: Peer)
    | Disconnect(peer: Peer)
    | SwitchProvider(peer: Peer)
    | MarkDisconnected

  predicate Legal(w: Wallet, s: Step) {
    match s
    case Connect(p) => p !in w.link.connected
    case Disconnect(p) => p in w.link.connected
    case _ => true
  }

  function SubscribeTo(w: Wallet, p: Peer): Wallet {
    w.(handler := SendSubscribe(w.handler, p, Snapshot(w.filter)), lsp := Some(p))
  }

  function RegistrationsSent(w: Wallet): Wallet {
    if w.lsp.None? then w
    else
      var f := w.filter;
      w.(filter := TakeNew(f), handler := ForwardOuts(ForwardTxs(w.handler, w.lsp.value, f.newTxs), w.lsp.value, f.newOuts))
  }

  /** Take the flag; on it, or when the tick asks for its own reasons, send a fresh snapshot to the
      provider if it is connected, else put a taken flag back. */
  function SubscribeTicked(w: Wallet, ask: bool): Wallet {
    var taken := w.(handler := w.handler.(wanted := false));
    if !w.handler.wanted && !ask then taken
    else if w.lsp.Some? && w.lsp.value in w.link.connected then SubscribeTo(taken, w.lsp.value)
    else taken.(handler := taken.handler.(wanted := w.handler.wanted))
  }

  /** The link takes the queue in order and drops what is addressed to an absent peer. */
  function Carry(l: Link, out: seq<(Peer, Message)>): Link {
    if out == [] then l
    else
      var n := |out| - 1;
      var before := Carry(l, out[..n]);
      var p := out[n].0;
      if p in before.connected then before.(sent := before.sent[p := SentTo(before, p) + {out[n].1}]) else before
  }

  function SentTo(l: Link, p: Peer): set<Message> {
    if p in l.sent then l.sent[p] else {}
  }

  function Apply(w: Wallet, s: Step): Wallet {
    match s
    case WatchTx(tx) => w.(filter := AddTx(w.filter, tx))
    case WatchOutput(o) => w.(filter := AddOutput(w.filter, o))
    case MarkAllForResubscribe => w.(filter := MarkAll(w.filter))
    case RegistrationTick => RegistrationsSent(w)
    case SubscribeTick(ask) => SubscribeTicked(w, ask)
    case Flush => w.(link := Carry(w.link, w.handler.outbound), handler := w.handler.(outbound := []))
    case Connect(p) =>
      w.(link := Link(w.link.connected + {p}, w.link.sent[p := {}]), handler := PeerConnected(w.handler, p))
    case Disconnect(p) =>
      w.(link := Link(w.link.connected - {p}, w.link.sent - {p}), handler := PeerDisconnected(w.handler, p))
    case SwitchProvider(p) => SubscribeTo(w, p)
    case MarkDisconnected => w.(lsp := None)
  }

  // ── What the provider must hear of ───────────────────────────────────────

  datatype Item = TxItem(txid: Txid) | ScriptItem(script: Script)

  predicate OfTx(w: WatchedTx, x: Item) {
    x == TxItem(w.txid) || x == ScriptItem(w.script)
  }

  predicate OfOut(o: WatchedOutput, x: Item) {
    x == ScriptItem(o.script)
  }

  predicate InTxs(s: seq<WatchedTx>, x: Item) {
    exists i :: 0 <= i < |s| && OfTx(s[i], x)
  }

  predicate InOuts(s: seq<WatchedOutput>, x: Item) {
    exists i :: 0 <= i < |s| && OfOut(s[i], x)
  }

  predicate Watched(f: Filter, x: Item) {
    InTxs(f.txs, x) || InOuts(f.outs, x)
  }

  /** Registered, and still in the filter's pending lists. */
  predicate StillNew(f: Filter, x: Item) {
    InTxs(f.newTxs, x) || InOuts(f.newOuts, x)
  }

  predicate Mentions(m: Message, x: Item) {
    match m
    case Subscribe(txids, scripts) => if x.TxItem? then x.txid in txids else x.script in scripts
    case RegisterTx(txid, script) => x == TxItem(txid) || x == ScriptItem(script)
    case RegisterOutput(_, _, script, _) => x == ScriptItem(script)
  }

  predicate Queued(h: Handler, p: Peer, x: Item) {
    exists i :: 0 <= i < |h.outbound| && h.outbound[i].0 == p && Mentions(h.outbound[i].1, x)
  }

  predicate Sent(l: Link, p: Peer, x: Item) {
    exists m :: m in SentTo(l, p) && Mentions(m, x)
  }

  predicate Reaches(w: Wallet, p: Peer, x: Item) {
    StillNew(w.filter, x) || Queued(w.handler, p, x) || Sent(w.link, p, x)
  }

  ghost predicate Covered(w: Wallet, x: Item) {
    w.lsp.Some? && w.lsp.value in w.link.connected && !w.handler.wanted && Watched(w.filter, x) ==> Reaches(w, w.lsp.value, x)
  }

  /** While the provider is connected, either a resubscribe is wanted or every watched txid and
      script is pending in the filter, queued for the provider or sent on this connection. */
  ghost predicate Sound(w: Wallet) {
    (w.lsp.Some? ==> w.handler.target == w.lsp) && forall x :: Covered(w, x)
  }

  // ── Every step keeps it ──────────────────────────────────────────────────

  lemma SnapshotMentions(f: Filter, x: Item)
    requires Watched(f, x)
    ensures Mentions(Snapshot(f), x)
  {
    if InTxs(f.txs, x) {
      var i :| 0 <= i < |f.txs| && OfTx(f.txs[i], x);
      assert TxidsOf(f.txs)[i] == f.txs[i].txid && TxScripts(f.txs)[i] == f.txs[i].script;
    } else {
      var i :| 0 <= i < |f.outs| && OfOut(f.outs[i], x);
      assert OutScripts(f.outs)[i] == f.outs[i].script;
    }
  }

  lemma QueuePush(h: Handler, p: Peer, m: Message, q: Peer, x: Item)
    ensures Queued(h, q, x) ==> Queued(Enqueue(h, p, m), q, x)
    ensures Mentions(m, x) ==> Queued(Enqueue(h, p, m), p, x)
  {
    var out := h.outbound + [(p, m)];
    assert out[|h.outbound|] == (p, m);
    if Queued(h, q, x) {
      var i :| 0 <= i < |h.outbound| && h.outbound[i].0 == q && Mentions(h.outbound[i].1, x);
      assert out[i] == h.outbound[i];
    }
  }

  lemma SubscribeCovers(w: Wallet, p: Peer, x: Item)
    ensures Covered(SubscribeTo(w, p), x)
  {
    if Watched(w.filter, x) {
      SnapshotMentions(w.filter, x);
      var m := Snapshot(w.filter);
      QueuePush(w.handler.(target := Some(p), last := Some(m)), p, m, p, x);
    }
  }

  lemma ForwardKeeps(h: Handler, p: Peer, txs: seq<WatchedTx>, outs: seq<WatchedOutput>, x: Item)
    ensures var r := ForwardOuts(ForwardTxs(h, p, txs), p, outs);
            Queued(h, p, x) || InTxs(txs, x) || InOuts(outs, x) ==> Queued(r, p, x)
  {
    var r := ForwardOuts(ForwardTxs(h, p, txs), p, outs);
    var n := |h.outbound|;
    if Queued(h, p, x) {
      var i :| 0 <= i < n && h.outbound[i].0 == p && Mentions(h.outbound[i].1, x);
      assert r.outbound[i] == h.outbound[i];
    } else if InTxs(txs, x) {
      var i :| 0 <= i < |txs| && OfTx(txs[i], x);
      assert r.outbound[n + i] == (p, RegisterTx(txs[i].txid, txs[i].script));
    } else if InOuts(outs, x) {
      var i :| 0 <= i < |outs| && OfOut(outs[i], x);
      assert r.outbound[n + |txs| + i] == (p, RegisterOutput(outs[i].txid, outs[i].index, outs[i].script, outs[i].block));
    }
  }

  lemma {:induction false} CarryKeepsPeers(l: Link, out: seq<(Peer, Message)>)
    ensures Carry(l, out).connected == l.connected
    decreases |out|
  {
    if out != [] {
      CarryKeepsPeers(l, out[..|out| - 1]);
    }
  }

  lemma {:induction false} CarrySends(l: Link, out: seq<(Peer, Message)>, p: Peer, x: Item)
    requires p in l.connected
    ensures var r := Carry(l, out);
            && (Sent(l, p, x) ==> Sent(r, p, x))
            && ((exists i :: 0 <= i < |out| && out[i].0 == p && Mentions(out[i].1, x)) ==> Sent(r, p, x))
    decreases |out|
  {
    if out != [] {
      var n := |out| - 1;
      CarrySends(l, out[..n], p, x);
      CarryKeepsPeers(l, out[..n]);
      var before, after := Carry(l, out[..n]), Carry(l, out);
      assert SentTo(before, p) <= SentTo(after, p);
      if Sent(before, p, x) {
        var m :| m in SentTo(before, p) && Mentions(m, x);
        assert m in SentTo(after, p);
      }
      if i :| 0 <= i < |out| && out[i].0 == p && Mentions(out[i].1, x) {
        if i == n {
          assert out[n].1 in SentTo(after, p);
        } else {
          assert out[..n][i] == out[i];
        }
      }
    }
  }

  lemma WatchKeeps(f: Filter, x: Item, tx: WatchedTx, o: WatchedOutput)
    ensures Watched(AddTx(f, tx), x) && !Watched(f, x) ==> StillNew(AddTx(f, tx), x)
    ensures Watched(AddOutput(f, o), x) && !Watched(f, x) ==> StillNew(AddOutput(f, o), x)
    ensures StillNew(f, x) ==> StillNew(AddTx(f, tx), x) && StillNew(AddOutput(f, o), x)
  {
    InPush(f.txs, tx, x);
    InPush(f.newTxs, tx, x);
    InOutPush(f.outs, o, x);
    InOutPush(f.newOuts, o, x);
  }

  lemma InPush(s: seq<WatchedTx>, w: WatchedTx, x: Item)
    ensures InTxs(s + [w], x) <==> InTxs(s, x) || OfTx(w, x)
  {
    assert (s + [w])[|s|] == w;
    assert forall i :: 0 <= i < |s| ==> (s + [w])[i] == s[i];
    if InTxs(s, x) {
      var i :| 0 <= i < |s| && OfTx(s[i], x);
      assert OfTx((s + [w])[i], x);
    }
  }

  lemma InOutPush(s: seq<WatchedOutput>, o: WatchedOutput, x: Item)
    ensures InOuts(s + [o], x) <==> InOuts(s, x) || OfOut(o, x)
  {
    assert (s + [o])[|s|] == o;
    assert forall i :: 0 <= i < |s| ==> (s + [o])[i] == s[i];
    if InOuts(s, x) {
      var i :| 0 <= i < |s| && OfOut(s[i], x);
      assert OfOut((s + [o])[i], x);
    }
  }

  lemma FilterStepCovers(w: Wallet, s: Step, x: Item)
    requires Covered(w, x) && (s.WatchTx? || s.WatchOutput? || s.MarkAllForResubscribe?)
    ensures Covered(Apply(w, s), x)
  {
    match s
    case WatchTx(tx) => WatchKeeps(w.filter, x, tx, WatchedOutput(0, 0, 0, None));
    case WatchOutput(o) => WatchKeeps(w.filter, x, WatchedTx(0, 0), o);
    case MarkAllForResubscribe =>
  }

  lemma StepCovers(w: Wallet, s: Step, x: Item)
    requires Sound(w) && Legal(w, s)
    ensures Covered(Apply(w, s), x)
  {
    assert Covered(w, x);
    match s
    case WatchTx(_) => FilterStepCovers(w, s, x);
    case WatchOutput(_) => FilterStepCovers(w, s, x);
    case MarkAllForResubscribe => FilterStepCovers(w, s, x);
    case RegistrationTick =>
      if w.lsp.Some? {
        ForwardKeeps(w.handler, w.lsp.value, w.filter.newTxs, w.filter.newOuts, x);
      }
    case SubscribeTick(ask) =>
      if w.lsp.Some? {
        SubscribeCovers(w.(handler := w.handler.(wanted := false)), w.lsp.value, x);
      }
    case Flush =>
      CarryKeepsPeers(w.link, w.handler.outbound);
      if w.lsp.Some? && w.lsp.value in w.link.connected {
        CarrySends(w.link, w.handler.outbound, w.lsp.value, x);
      }
    case Connect(p) => ConnectCovers(w, p, x);
    case Disconnect(p) =>
    case SwitchProvider(p) => SubscribeCovers(w, p, x);
    case MarkDisconnected =>
  }

  lemma ConnectCovers(w: Wallet, p: Peer, x: Item)
    requires Sound(w) && Legal(w, Connect(p)) && Covered(w, x)
    ensures Covered(Apply(w, Connect(p)), x)
  {
  }

  lemma StepSound(w: Wallet, s: Step)
    requires Sound(w) && Legal(w, s)
    ensures Sound(Apply(w, s))
  {
    forall x ensures Covered(Apply(w, s), x) {
      StepCovers(w, s, x);
    }
  }

  ghost predicate IsRun(w: Wallet, steps: seq<Step>)
    decreases |steps|
  {
    steps == [] || (Legal(w, steps[0]) && IsRun(Apply(w, steps[0]), steps[1..]))
  }

  function Exec(w: Wallet, steps: seq<Step>): Wallet
    decreases |steps|
  {
    if steps == [] then w else Exec(Apply(w, steps[0]), steps[1..])
  }

  lemma {:induction false} RunSound(w: Wallet, steps: seq<Step>)
    requires Sound(w) && IsRun(w, steps)
    ensures Sound(Exec(w, steps))
    decreases |steps|
  {
    if steps != [] {
      StepSound(w, steps[0]);
      RunSound(Apply(w, steps[0]), steps[1..]);
    }
  }

  const FRESH: Wallet := Wallet(Filter([], [], [], []), Handler([], None, false, None), None, Link({}, map[]))

  /** In every run, whenever the provider is connected every watched txid and script is pending,
      queued for it or sent on this connection, unless a resubscribe is wanted. */
  lemma EveryRunSound(steps: seq<Step>)
    requires IsRun(FRESH, steps)
    ensures Sound(Exec(FRESH, steps))
  {
    RunSound(FRESH, steps);
  }

  /** A provider that connects again hears its last subscription on the first flush, before any tick. */
  lemma ReconnectHearsAtOnce(w: Wallet, p: Peer)
    requires Legal(w, Connect(p)) && w.handler.target == Some(p) && w.handler.last.Some?
    ensures w.handler.last.value in SentTo(Apply(Apply(w, Connect(p)), Flush).link, p)
  {
    var c := Apply(w, Connect(p));
    var n := |c.handler.outbound| - 1;
    assert c.handler.outbound[n] == (p, w.handler.last.value);
    CarryKeepsPeers(c.link, c.handler.outbound[..n]);
  }

  /** So after every run, one registration tick, one subscribe tick and one flush leave nothing
      watched that the connected provider has not been sent. */
  lemma EveryRunCatchesUp(steps: seq<Step>, ask: bool, x: Item)
    requires IsRun(FRESH, steps)
    requires var w := Exec(FRESH, steps); w.lsp.Some? && w.lsp.value in w.link.connected && Watched(w.filter, x)
    ensures var w := Exec(FRESH, steps);
            var r := Apply(Apply(Apply(w, RegistrationTick), SubscribeTick(ask)), Flush);
            r.lsp == w.lsp && !r.handler.wanted && r.handler.outbound == [] && Sent(r.link, w.lsp.value, x)
  {
    RunSound(FRESH, steps);
    var w := Exec(FRESH, steps);
    CatchesUp(w, ask, x);
  }

  /** The two ticks leave nothing pending in the filter and no flag. */
  lemma TicksDrain(w: Wallet, ask: bool)
    requires w.lsp.Some? && w.lsp.value in w.link.connected
    ensures var b := Apply(Apply(w, RegistrationTick), SubscribeTick(ask));
            && b.lsp == w.lsp && b.link == w.link && !b.handler.wanted
            && b.filter == TakeNew(w.filter)
  {
  }

  lemma CatchesUp(w: Wallet, ask: bool, x: Item)
    requires Sound(w) && w.lsp.Some? && w.lsp.value in w.link.connected && Watched(w.filter, x)
    ensures var r := Apply(Apply(Apply(w, RegistrationTick), SubscribeTick(ask)), Flush);
            r.lsp == w.lsp && !r.handler.wanted && r.handler.outbound == [] && Sent(r.link, w.lsp.value, x)
  {
    StepSound(w, RegistrationTick);
    var a := Apply(w, RegistrationTick);
    StepCovers(a, SubscribeTick(ask), x);
    TicksDrain(w, ask);
    var b := Apply(a, SubscribeTick(ask));
    CarrySends(b.link, b.handler.outbound, w.lsp.value, x);
  }

  // ── The flag ─────────────────────────────────────────────────────────────

  predicate ProviderUp(w: Wallet) {
    w.lsp.Some? && w.lsp.value in w.link.connected
  }

  /** The subscribed peer comes or goes. */
  predicate TargetMoves(w: Wallet, s: Step) {
    (s.Connect? || s.Disconnect?) && w.handler.target == Some(s.peer)
  }

  /** The flag is up after a step exactly when the subscribed peer has just come or gone, or it was up
      and this is no subscribe tick that found the provider connected; such a tick, with the flag up or
      asking for its own reasons, queues a fresh snapshot for the provider. */
  lemma FlagIff(w: Wallet, s: Step)
    requires Legal(w, s)
    ensures Apply(w, s).handler.wanted <==> TargetMoves(w, s) || (w.handler.wanted && !(s.SubscribeTick? && ProviderUp(w)))
    ensures s.SubscribeTick? && ProviderUp(w) && (w.handler.wanted || s.ask) ==>
              var h := Apply(w, s).handler;
              && h.outbound == w.handler.outbound + [(w.lsp.value, Snapshot(w.filter))]
              && h.last == Some(Snapshot(w.filter)) && h.target == w.lsp
    ensures s.SubscribeTick? && !ProviderUp(w) ==> Apply(w, s) == w
  {
  }

  /** The world before the k-th step. */
  function At(w: Wallet, steps: seq<Step>, k: nat): Wallet
    requires k <= |steps|
    decreases k
  {
    if k == 0 then w else At(Apply(w, steps[0]), steps[1..], k - 1)
  }

  /** A raised flag goes down only at a subscribe tick that finds the provider connected: until then, and
      so throughout an absence of the provider, it stays up. */
  lemma {:induction false} FlagStaysUp(w: Wallet, steps: seq<Step>)
    requires w.handler.wanted && IsRun(w, steps)
    requires forall k :: 0 <= k < |steps| && steps[k].SubscribeTick? ==> !ProviderUp(At(w, steps, k))
    ensures Exec(w, steps).handler.wanted
    decreases |steps|
  {
    if steps != [] {
      var w1 := Apply(w, steps[0]);
      FlagIff(w, steps[0]);
      assert steps[0].SubscribeTick? ==> !ProviderUp(At(w, steps, 0));
      forall k | 0 <= k < |steps[1..]| && steps[1..][k].SubscribeTick? ensures !ProviderUp(At(w1, steps[1..], k)) {
        assert At(w, steps, k + 1) == At(w1, steps[1..], k) && steps[k + 1] == steps[1..][k];
      }
      FlagStaysUp(w1, steps[1..]);
    }
  }

  // ── Registrations ────────────────────────────────────────────────────────

  ghost predicate NoRepeat<T>(s: seq<T>) {
    forall i, j :: 0 <= i < j < |s| ==> s[i] != s[j]
  }

  /** Each thing watched is listed once, and what is pending is watched and listed once. */
  ghost predicate Registered(f: Filter) {
    && NoRepeat(f.txs) && NoRepeat(f.outs) && NoRepeat(f.newTxs) && NoRepeat(f.newOuts)
    && (forall x :: x in f.newTxs ==> x in f.txs) && (forall x :: x in f.newOuts ==> x in f.outs)
  }

  lemma PushOnce<T>(s: seq<T>, x: T)
    requires NoRepeat(s) && x !in s
    ensures NoRepeat(s + [x]) && forall y :: y in s + [x] <==> y in s || y == x
  {
  }

  lemma StepRegisters(w: Wallet, s: Step)
    requires Registered(w.filter)
    ensures Registered(Apply(w, s).filter)
    ensures forall x :: x in Apply(w, s).filter.txs <==> x in w.filter.txs || s == WatchTx(x)
    ensures forall x :: x in Apply(w, s).filter.outs <==> x in w.filter.outs || s == WatchOutput(x)
    ensures w.filter.txs <= Apply(w, s).filter.txs && w.filter.outs <= Apply(w, s).filter.outs
  {
    if s.WatchTx? && s.tx !in w.filter.txs {
      PushOnce(w.filter.txs, s.tx);
      PushOnce(w.filter.newTxs, s.tx);
    } else if s.WatchOutput? && s.output !in w.filter.outs {
      PushOnce(w.filter.outs, s.output);
      PushOnce(w.filter.newOuts, s.output);
    }
  }

  /** In every run: what is watched is exactly what LDK registered, each once, in the order it first did;
      a repeated registration adds nothing, watched or pending. */
  lemma {:induction false} EveryRunRegistersOnce(w: Wallet, steps: seq<Step>)
    requires Registered(w.filter)
    ensures var f := Exec(w, steps).filter;
            && Registered(f) && w.filter.txs <= f.txs && w.filter.outs <= f.outs
            && (forall x :: x in f.txs <==> x in w.filter.txs || WatchTx(x) in steps)
            && (forall x :: x in f.outs <==> x in w.filter.outs || WatchOutput(x) in steps)
    decreases |steps|
  {
    if steps != [] {
      StepRegisters(w, steps[0]);
      EveryRunRegistersOnce(Apply(w, steps[0]), steps[1..]);
      assert forall s :: s in steps <==> s == steps[0] || s in steps[1..];
    }
  }

  // ── Only what is watched ─────────────────────────────────────────────────

  /** A message that names registrations as they are: a snapshot only what is watched, and a single
      registration one that is, field by field. */
  ghost predicate Honest(f: Filter, m: Message) {
    match m
    case Subscribe(txids, scripts) =>
      && (forall t :: t in txids ==> exists x :: x in f.txs && x.txid == t)
      && (forall c :: c in scripts ==> (exists x :: x in f.txs && x.script == c) || exists x :: x in f.outs && x.script == c)
    case RegisterTx(txid, script) => WatchedTx(txid, script) in f.txs
    case RegisterOutput(txid, index, script, block) => WatchedOutput(txid, index, script, block) in f.outs
  }

  ghost predicate LinkHonest(f: Filter, l: Link) {
    forall p, m {:trigger m in SentTo(l, p)} :: m in SentTo(l, p) ==> Honest(f, m)
  }

  ghost predicate QueueHonest(f: Filter, out: seq<(Peer, Message)>) {
    forall i :: 0 <= i < |out| ==> Honest(f, out[i].1)
  }

  ghost predicate AllHonest(w: Wallet) {
    && LinkHonest(w.filter, w.link) && QueueHonest(w.filter, w.handler.outbound)
    && (w.handler.last.Some? ==> Honest(w.filter, w.handler.last.value))
    && (forall x :: x in w.filter.newTxs ==> x in w.filter.txs) && (forall x :: x in w.filter.newOuts ==> x in w.filter.outs)
  }

  lemma HonestGrows(f: Filter, g: Filter, m: Message)
    requires Honest(f, m) && (forall x :: x in f.txs ==> x in g.txs) && (forall x :: x in f.outs ==> x in g.outs)
    ensures Honest(g, m)
  {
    if m.Subscribe? {
      forall t | t in m.txids ensures exists x :: x in g.txs && x.txid == t {
        var x :| x in f.txs && x.txid == t;
      }
      forall c | c in m.scripts ensures (exists x :: x in g.txs && x.script == c) || exists x :: x in g.outs && x.script == c {
        if x :| x in f.txs && x.script == c {
          assert x in g.txs;
        } else {
          var x :| x in f.outs && x.script == c;
          assert x in g.outs;
        }
      }
    }
  }

  lemma SnapshotHonest(f: Filter)
    ensures Honest(f, Snapshot(f))
  {
    var m := Snapshot(f);
    forall t | t in m.txids ensures exists x :: x in f.txs && x.txid == t {
      var i :| 0 <= i < |TxidsOf(f.txs)| && TxidsOf(f.txs)[i] == t;
      assert f.txs[i] in f.txs;
    }
    forall c | c in m.scripts ensures (exists x :: x in f.txs && x.script == c) || exists x :: x in f.outs && x.script == c {
      if c in TxScripts(f.txs) {
        var i :| 0 <= i < |f.txs| && TxScripts(f.txs)[i] == c;
        assert f.txs[i] in f.txs;
      } else {
        var i :| 0 <= i < |f.outs| && OutScripts(f.outs)[i] == c;
        assert f.outs[i] in f.outs;
      }
    }
  }

  lemma {:induction false} CarryHonest(f: Filter, l: Link, out: seq<(Peer, Message)>)
    requires LinkHonest(f, l) && QueueHonest(f, out)
    ensures LinkHonest(f, Carry(l, out))
    decreases |out|
  {
    if out != [] {
      var n := |out| - 1;
      assert QueueHonest(f, out[..n]);
      CarryHonest(f, l, out[..n]);
      var before, after := Carry(l, out[..n]), Carry(l, out);
      forall p, m | m in SentTo(after, p) ensures Honest(f, m) {
        assert m in SentTo(before, p) || m == out[n].1;
      }
    }
  }

  lemma ForwardHonest(f: Filter, h: Handler, p: Peer, txs: seq<WatchedTx>, outs: seq<WatchedOutput>)
    requires QueueHonest(f, h.outbound) && (forall x :: x in txs ==> x in f.txs) && forall x :: x in outs ==> x in f.outs
    ensures QueueHonest(f, ForwardOuts(ForwardTxs(h, p, txs), p, outs).outbound)
  {
    var r := ForwardOuts(ForwardTxs(h, p, txs), p, outs).outbound;
    var n := |h.outbound|;
    forall i | 0 <= i < |r| ensures Honest(f, r[i].1) {
      if i < n {
        assert r[i] == h.outbound[i];
      } else if i < n + |txs| {
        assert txs[i - n] in txs;
      } else {
        assert outs[i - n - |txs|] in outs;
      }
    }
  }

  lemma GrowHonest(w: Wallet, g: Filter)
    requires AllHonest(w) && (forall x :: x in w.filter.txs ==> x in g.txs) && (forall x :: x in w.filter.outs ==> x in g.outs)
    requires (forall x :: x in g.newTxs ==> x in g.txs) && (forall x :: x in g.newOuts ==> x in g.outs)
    ensures AllHonest(w.(filter := g))
  {
    forall m | Honest(w.filter, m) ensures Honest(g, m) {
      HonestGrows(w.filter, g, m);
    }
  }

  lemma SubscribeHonest(w: Wallet, p: Peer)
    requires AllHonest(w)
    ensures AllHonest(SubscribeTo(w, p))
  {
    SnapshotHonest(w.filter);
  }

  lemma StepHonest(w: Wallet, s: Step)
    requires AllHonest(w) && Legal(w, s)
    ensures AllHonest(Apply(w, s))
  {
    match s
    case WatchTx(_) => GrowHonest(w, Apply(w, s).filter);
    case WatchOutput(_) => GrowHonest(w, Apply(w, s).filter);
    case MarkAllForResubscribe => GrowHonest(w, Apply(w, s).filter);
    case RegistrationTick =>
      if w.lsp.Some? {
        ForwardHonest(w.filter, w.handler, w.lsp.value, w.filter.newTxs, w.filter.newOuts);
      }
    case SubscribeTick(ask) =>
      var taken := w.(handler := w.handler.(wanted := false));
      assert AllHonest(taken);
      if ProviderUp(w) {
        SubscribeHonest(taken, w.lsp.value);
      }
    case Flush => CarryHonest(w.filter, w.link, w.handler.outbound);
    case Connect(p) =>
      forall q, m | m in SentTo(Apply(w, s).link, q) ensures Honest(w.filter, m) {
        assert m in SentTo(w.link, q);
      }
    case Disconnect(p) =>
      forall q, m | m in SentTo(Apply(w, s).link, q) ensures Honest(w.filter, m) {
        assert m in SentTo(w.link, q);
      }
    case SwitchProvider(p) => SubscribeHonest(w, p);
    case MarkDisconnected =>
  }

  lemma {:induction false} RunHonest(w: Wallet, steps: seq<Step>)
    requires AllHonest(w) && IsRun(w, steps)
    ensures AllHonest(Exec(w, steps))
    decreases |steps|
  {
    if steps != [] {
      StepHonest(w, steps[0]);
      RunHonest(Apply(w, steps[0]), steps[1..]);
    }
  }

  /** In every run no peer is ever sent, and none is queued, anything but what LDK registered: a
      registration with its own transaction, index, script and block. */
  lemma EveryRunHonest(steps: seq<Step>, p: Peer, m: Message)
    requires IsRun(FRESH, steps)
    ensures var w := Exec(FRESH, steps);
            m in SentTo(w.link, p) || (p, m) in w.handler.outbound ==>
              && Honest(w.filter, m)
              && (m.RegisterTx? ==> WatchTx(WatchedTx(m.txid, m.script)) in steps)
              && (m.RegisterOutput? ==> WatchOutput(WatchedOutput(m.txid, m.index, m.script, m.block)) in steps)
  {
    RunHonest(FRESH, steps);
    EveryRunRegistersOnce(FRESH, steps);
    var w := Exec(FRESH, steps);
    if (p, m) in w.handler.outbound {
      var i :| 0 <= i < |w.handler.outbound| && w.handler.outbound[i] == (p, m);
      assert Honest(w.filter, w.handler.outbound[i].1);
    }
  }

  /** A registration tick queues for the provider every pending registration, field by field, in order,
      after what was queued, and leaves none pending. */
  lemma TickForwardsAll(w: Wallet)
    requires w.lsp.Some?
    ensures var r, p, f, n := Apply(w, RegistrationTick), w.lsp.value, w.filter, |w.handler.outbound|;
            var out := r.handler.outbound;
            && r.filter == f.(newTxs := [], newOuts := [])
            && |out| == n + |f.newTxs| + |f.newOuts| && w.handler.outbound <= out
            && (forall i :: 0 <= i < |f.newTxs| ==> out[n + i] == (p, RegisterTx(f.newTxs[i].txid, f.newTxs[i].script)))
            && (forall i :: 0 <= i < |f.newOuts| ==>
                  var o := f.newOuts[i];
                  out[n + |f.newTxs| + i] == (p, RegisterOutput(o.txid, o.index, o.script, o.block)))
  {
  }

  /** After everything is marked for resubscribing, a registration tick queues every registration again. */
  lemma MarkedIsForwarded(w: Wallet)
    requires w.lsp.Some?
    ensures var out, p := Apply(Apply(w, MarkAllForResubscribe), RegistrationTick).handler.outbound, w.lsp.value;
            && (forall x :: x in w.filter.txs ==> (p, RegisterTx(x.txid, x.script)) in out)
            && (forall x :: x in w.filter.outs ==> (p, RegisterOutput(x.txid, x.index, x.script, x.block)) in out)
  {
    var marked, p := Apply(w, MarkAllForResubscribe), w.lsp.value;
    TickForwardsAll(marked);
    var out, n := Apply(marked, RegistrationTick).handler.outbound, |w.handler.outbound|;
    forall x | x in w.filter.txs ensures (p, RegisterTx(x.txid, x.script)) in out {
      var i :| 0 <= i < |w.filter.txs| && w.filter.txs[i] == x;
      assert out[n + i] == (p, RegisterTx(x.txid, x.script));
    }
    forall x | x in w.filter.outs ensures (p, RegisterOutput(x.txid, x.index, x.script, x.block)) in out {
      var i :| 0 <= i < |w.filter.outs| && w.filter.outs[i] == x;
      assert out[n + |w.filter.txs| + i] == (p, RegisterOutput(x.txid, x.index, x.script, x.block));
    }
  }

  /** A flush sends each connected peer exactly what was queued for it, besides what it was sent before,
      and an absent one nothing. */
  lemma {:induction false} CarryExact(l: Link, out: seq<(Peer, Message)>, p: Peer, m: Message)
    ensures m in SentTo(Carry(l, out), p) <==> m in SentTo(l, p) || (p in l.connected && (p, m) in out)
    decreases |out|
  {
    if out != [] {
      var n := |out| - 1;
      CarryExact(l, out[..n], p, m);
      CarryKeepsPeers(l, out[..n]);
      assert (p, m) in out <==> (p, m) in out[..n] || out[n] == (p, m);
    }
  }

  // ── The provider ─────────────────────────────────────────────────────────

  ghost predicate SameProvider(steps: seq<Step>) {
    forall j :: 0 <= j < |steps| ==> !steps[j].SwitchProvider? && !steps[j].MarkDisconnected?
  }

  /** The k-th step made `p` the provider, and nothing since has changed it. */
  ghost predicate ProvidedBy(steps: seq<Step>, k: nat, p: Peer) {
    k < |steps| && steps[k] == SwitchProvider(p) && SameProvider(steps[k + 1..])
  }

  lemma StepProvider(w: Wallet, s: Step)
    ensures Apply(w, s).lsp ==
            if s.SwitchProvider? then Some(s.peer) else if s.MarkDisconnected? then None else w.lsp
  {
  }

  lemma ProvidedCons(steps: seq<Step>, p: Peer)
    requires steps != []
    ensures (exists k :: 0 <= k < |steps| && ProvidedBy(steps, k, p)) <==>
            (steps[0] == SwitchProvider(p) && SameProvider(steps[1..])) || exists k :: 0 <= k < |steps[1..]| && ProvidedBy(steps[1..], k, p)
    ensures SameProvider(steps) <==> !steps[0].SwitchProvider? && !steps[0].MarkDisconnected? && SameProvider(steps[1..])
  {
    var rest := steps[1..];
    assert forall j :: 0 <= j < |rest| ==> rest[j] == steps[j + 1];
    forall k | 0 <= k < |rest| ensures ProvidedBy(steps, k + 1, p) <==> ProvidedBy(rest, k, p) {
      assert rest[k + 1..] == steps[k + 2..];
    }
    assert ProvidedBy(steps, 0, p) <==> steps[0] == SwitchProvider(p) && SameProvider(rest);
    if k :| 0 <= k < |rest| && ProvidedBy(rest, k, p) {
      assert ProvidedBy(steps, k + 1, p);
    }
    if k :| 0 <= k < |steps| && ProvidedBy(steps, k, p) {
      assert k > 0 ==> ProvidedBy(rest, k - 1, p);
    }
  }

  lemma {:induction false} RunProvider(w: Wallet, steps: seq<Step>, p: Peer)
    ensures Exec(w, steps).lsp == Some(p) <==>
            (exists k :: 0 <= k < |steps| && ProvidedBy(steps, k, p)) || (w.lsp == Some(p) && SameProvider(steps))
    decreases |steps|
  {
    if steps != [] {
      StepProvider(w, steps[0]);
      ProvidedCons(steps, p);
      RunProvider(Apply(w, steps[0]), steps[1..], p);
    }
  }

  /** In every run the provider is the peer that was last made so, unless it was marked disconnected since. */
  lemma EveryRunProviderIff(steps: seq<Step>, p: Peer)
    ensures Exec(FRESH, steps).lsp == Some(p) <==> exists k :: 0 <= k < |steps| && ProvidedBy(steps, k, p)
  {
    RunProvider(FRESH, steps, p);
  }
}
