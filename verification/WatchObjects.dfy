/**
 The filter, the handler and the bridge as the objects they are
 (lij/lij-core/src/chain_filter.rs, cooperative_chain_handler.rs, cooperative_chain_bridge.rs): each
 method makes exactly the change of the protocol's step.
 */
module WatchObjects {
  import opened Prelude
  import P = WatchProtocol

  class ChainFilter {
    var watchedTxs: seq<P.WatchedTx>
    var watchedOutputs: seq<P.WatchedOutput>
    var pendingNewTxs: seq<P.WatchedTx>
    var pendingNewOutputs: seq<P.WatchedOutput>

    function Registry(): P.Filter
      reads this
    {
      P.Filter(watchedTxs, watchedOutputs, pendingNewTxs, pendingNewOutputs)
    }

    constructor ()
      ensures Registry() == P.Filter([], [], [], [])
    {
      watchedTxs, watchedOutputs, pendingNewTxs, pendingNewOutputs := [], [], [], [];
    }

    method RegisterTx(txid: P.Txid, script: P.Script)
      modifies this
      ensures Registry() == P.AddTx(old(Registry()), P.WatchedTx(txid, script))
    {
      var entry := P.WatchedTx(txid, script);
      for i := 0 to |watchedTxs|
        invariant entry !in watchedTxs[..i]
      {
        if watchedTxs[i] == entry {
          return;
        }
      }
      watchedTxs := watchedTxs + [entry];
      pendingNewTxs := pendingNewTxs + [entry];
    }

    method RegisterOutput(output: P.WatchedOutput)
      modifies this
      ensures Registry() == P.AddOutput(old(Registry()), output)
    {
      for i := 0 to |watchedOutputs|
        invariant output !in watchedOutputs[..i]
      {
        if watchedOutputs[i] == output {
          return;
        }
      }
      watchedOutputs := watchedOutputs + [output];
      pendingNewOutputs := pendingNewOutputs + [output];
    }

    method TakeNewRegistrations() returns (txs: seq<P.WatchedTx>, outputs: seq<P.WatchedOutput>)
      modifies this`pendingNewTxs, this`pendingNewOutputs
      ensures txs == old(pendingNewTxs) && outputs == old(pendingNewOutputs)
      ensures Registry() == P.TakeNew(old(Registry()))
    {
      txs, outputs := pendingNewTxs, pendingNewOutputs;
      pendingNewTxs, pendingNewOutputs := [], [];
    }

    method MarkAllForResubscribe()
      modifies this`pendingNewTxs, this`pendingNewOutputs
      ensures Registry() == P.MarkAll(old(Registry()))
    {
      pendingNewTxs, pendingNewOutputs := watchedTxs, watchedOutputs;
    }
  }

  class ChainHandler {
    var outbound: seq<(P.Peer, P.Message)>
    var subscribeTarget: Option<P.Peer>
    var resubscribeWanted: bool
    var lastSubscribe: Option<P.Message>

    function State(): P.Handler
      reads this
    {
      P.Handler(outbound, subscribeTarget, resubscribeWanted, lastSubscribe)
    }

    constructor ()
      ensures State() == P.Handler([], None, false, None)
    {
      outbound, subscribeTarget, resubscribeWanted, lastSubscribe := [], None, false, None;
    }

    method Enqueue(peer: P.Peer, m: P.Message)
      modifies this`outbound
      ensures State() == P.Enqueue(old(State()), peer, m)
    {
      outbound := outbound + [(peer, m)];
    }

    method SendSubscribe(peer: P.Peer, m: P.Message)
      modifies this
      ensures State() == P.SendSubscribe(old(State()), peer, m)
    {
      subscribeTarget := Some(peer);
      lastSubscribe := Some(m);
      Enqueue(peer, m);
    }

    method TakeResubscribeWanted() returns (wanted: bool)
      modifies this`resubscribeWanted
      ensures wanted == old(resubscribeWanted) && State() == old(State()).(wanted := false)
    {
      wanted := resubscribeWanted;
      resubscribeWanted := false;
    }

    method WantResubscribe()
      modifies this`resubscribeWanted
      ensures State() == old(State()).(wanted := true)
    {
      resubscribeWanted := true;
    }

    method PeerConnected(peer: P.Peer)
      modifies this
      ensures State() == P.PeerConnected(old(State()), peer)
    {
      if subscribeTarget == Some(peer) {
        if lastSubscribe.Some? {
          Enqueue(peer, lastSubscribe.value);
        }
        resubscribeWanted := true;
      }
    }

    method PeerDisconnected(peer: P.Peer)
      modifies this`resubscribeWanted
      ensures State() == P.PeerDisconnected(old(State()), peer)
    {
      if subscribeTarget == Some(peer) {
        resubscribeWanted := true;
      }
    }
  }

  class ChainBridge {
    const filter: ChainFilter
    const handler: ChainHandler
    var lsp: Option<P.Peer>

    /** The wallet's side of the protocol over a given link. */
    function State(link: P.Link): P.Wallet
      reads this, filter, handler
    {
      P.Wallet(filter.Registry(), handler.State(), lsp, link)
    }

    constructor (filter: ChainFilter, handler: ChainHandler)
      ensures this.filter == filter && this.handler == handler && lsp == None
    {
      this.filter, this.handler, lsp := filter, handler, None;
    }

    method SendSubscribe(peer: P.Peer)
      modifies this, handler
      ensures forall link :: State(link) == P.SubscribeTo(old(State(link)), peer)
    {
      var txids: seq<P.Txid>, scripts: seq<P.Script> := [], [];
      for i := 0 to |filter.watchedTxs|
        invariant txids == P.TxidsOf(filter.watchedTxs[..i]) && scripts == P.TxScripts(filter.watchedTxs[..i])
      {
        txids := txids + [filter.watchedTxs[i].txid];
        scripts := scripts + [filter.watchedTxs[i].script];
      }
      assert filter.watchedTxs[..|filter.watchedTxs|] == filter.watchedTxs;
      for i := 0 to |filter.watchedOutputs|
        invariant scripts == P.TxScripts(filter.watchedTxs) + P.OutScripts(filter.watchedOutputs[..i])
      {
        scripts := scripts + [filter.watchedOutputs[i].script];
      }
      assert filter.watchedOutputs[..|filter.watchedOutputs|] == filter.watchedOutputs;
      handler.SendSubscribe(peer, P.Subscribe(txids, scripts));
      lsp := Some(peer);
    }

    method ProcessNewRegistrationsTick()
      modifies filter`pendingNewTxs, filter`pendingNewOutputs, handler`outbound
      ensures forall link :: State(link) == P.RegistrationsSent(old(State(link)))
    {
      if lsp.None? {
        return;
      }
      var txs, outputs := filter.TakeNewRegistrations();
      for i := 0 to |txs|
        invariant filter.Registry() == P.TakeNew(old(filter.Registry()))
        invariant handler.State() == P.ForwardTxs(old(handler.State()), lsp.value, txs[..i])
      {
        handler.Enqueue(lsp.value, P.RegisterTx(txs[i].txid, txs[i].script));
      }
      assert txs[..|txs|] == txs;
      ghost var forwarded := handler.State();
      for i := 0 to |outputs|
        invariant filter.Registry() == P.TakeNew(old(filter.Registry()))
        invariant handler.State() == P.ForwardOuts(forwarded, lsp.value, outputs[..i])
      {
        var o := outputs[i];
        handler.Enqueue(lsp.value, P.RegisterOutput(o.txid, o.index, o.script, o.block));
      }
      assert outputs[..|outputs|] == outputs;
    }

    /** The tick's part: take the flag; send a fresh snapshot if the provider is connected, else put
        a taken flag back. */
    method SubscribeTick(ask: bool, link: P.Link)
      modifies this, handler
      ensures State(link) == P.SubscribeTicked(old(State(link)), ask)
    {
      var flag := handler.TakeResubscribeWanted();
      if flag || ask {
        var sent := false;
        if lsp.Some? && lsp.value in link.connected {
          SendSubscribe(lsp.value);
          sent := true;
        }
        if flag && !sent {
          handler.WantResubscribe();
        }
      }
    }

    method MarkDisconnected()
      modifies this`lsp
      ensures lsp == None
    {
      lsp := None;
    }
  }
}
