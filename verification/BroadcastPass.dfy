/**
 One process_queue call at a time (lij/lij-core/src/broadcaster.rs): it is one pass of the overlapping
 ones, it ends, it keeps the accounts, repeated calls empty the fast queue whatever the paths answer,
 and every parked entry gets a turn within thirty calls.
 */
module BroadcastPass {
  import opened Prelude
  import opened Broadcast

  /** What the two paths answer to the k-th entry that a call asks about. */
  type Ask = nat -> (Answer, Answer)

  /** The slow ring's pass over the drained batch. */
  function SlowPass(b: Books, batch: seq<Tx>, ask: Ask, k: nat): Books
    decreases |batch|
  {
    if batch == [] then b
    else SlowPass(SlowTurn(b, batch[0], ask(k).0, ask(k).1), batch[1..], ask, k + 1)
  }

  /** The drain of the fast queue, up to the first entry put back. */
  function FastPass(b: Books, ask: Ask, k: nat): Books
    decreases |b.queue|
  {
    if b.queue == [] then b
    else
      var r := FastTurn(b.(queue := b.queue[1..]), b.queue[0], ask(k).0, ask(k).1);
      if r.1 then FastPass(r.0, ask, k + 1) else r.0
  }

  predicate RingRound(round: nat) {
    round % PARK_INTERVAL == 0
  }

  function Ring(b: Books, round: nat, ask: Ask): Books {
    if RingRound(round) then SlowPass(b.(parked := []), b.parked, ask, 0) else b
  }

  function Call(b: Books, round: nat, ask: Ask): Books {
    FastPass(Ring(b, round, ask), ask, |b.parked|)
  }

  /** The books after `n` more calls, of which the first is the round-th. */
  function Repeat(call: (Books, nat) -> Books, b: Books, round: nat, n: nat): Books
    decreases n
  {
    if n == 0 then b else Repeat(call, call(b, round), round + 1, n - 1)
  }

  function Calls(b: Books, round: nat, asks: nat -> Ask, n: nat): Books {
    Repeat((c: Books, r: nat) => Call(c, r, asks(r)), b, round, n)
  }

  // ── The accounts ─────────────────────────────────────────────────────────

  lemma {:induction false} SlowPassBalances(b: Books, batch: seq<Tx>, ask: Ask, k: nat, x: Txid)
    requires Balanced(b, x, 0, Count(batch, x))
    ensures Balanced(SlowPass(b, batch, ask, k), x, 0, 0)
    decreases |batch|
  {
    if batch != [] {
      CountPop(batch, x);
      SlowTurnBalances(b, batch[0], ask(k).0, ask(k).1, x, 0, Count(batch[1..], x));
      SlowPassBalances(SlowTurn(b, batch[0], ask(k).0, ask(k).1), batch[1..], ask, k + 1, x);
    }
  }

  lemma {:induction false} FastPassBalances(b: Books, ask: Ask, k: nat, x: Txid)
    requires Balanced(b, x, 0, 0)
    ensures Balanced(FastPass(b, ask, k), x, 0, 0)
    decreases |b.queue|
  {
    if b.queue != [] {
      var rest, t := b.(queue := b.queue[1..]), b.queue[0];
      CountPop(b.queue, x);
      FastTurnBalances(rest, t, ask(k).0, ask(k).1, x, 0, 0);
      var r := FastTurn(rest, t, ask(k).0, ask(k).1);
      if r.1 {
        FastPassBalances(r.0, ask, k + 1, x);
      }
    }
  }

  /** A call keeps each transaction's account. */
  lemma CallBalances(b: Books, round: nat, ask: Ask, x: Txid)
    requires Balanced(b, x, 0, 0)
    ensures Balanced(Call(b, round, ask), x, 0, 0)
  {
    SlowPassBalances(b.(parked := []), b.parked, ask, 0, x);
    FastPassBalances(Ring(b, round, ask), ask, |b.parked|, x);
  }

  // ── Draining ─────────────────────────────────────────────────────────────

  /** The attempts left in the fast queue. */
  function Work(queue: seq<Tx>): nat {
    if queue == [] then 0
    else Work(queue[1..]) + (if queue[0].attempts < MAX_ATTEMPTS then MAX_ATTEMPTS - queue[0].attempts else 0)
  }

  lemma {:induction false} WorkPush(queue: seq<Tx>, t: Tx)
    ensures Work(queue + [t]) == Work(queue) + (if t.attempts < MAX_ATTEMPTS then MAX_ATTEMPTS - t.attempts else 0)
    decreases |queue|
  {
    if queue != [] {
      WorkPush(queue[1..], t);
      assert (queue + [t])[1..] == queue[1..] + [t];
    }
  }

  lemma {:induction false} SlowPassTidy(b: Books, batch: seq<Tx>, ask: Ask, k: nat)
    requires Tidy(b) && forall t :: t in batch ==> SlowOk(t)
    ensures Tidy(SlowPass(b, batch, ask, k)) && SlowPass(b, batch, ask, k).queue == b.queue
    decreases |batch|
  {
    if batch != [] {
      TurnsTidy(b, batch[0], ask(k).0, ask(k).1);
      SlowPassTidy(SlowTurn(b, batch[0], ask(k).0, ask(k).1), batch[1..], ask, k + 1);
    }
  }

  lemma {:induction false} FastPassWorks(b: Books, ask: Ask, k: nat)
    requires Tidy(b)
    ensures Tidy(FastPass(b, ask, k))
    ensures b.queue != [] ==> Work(FastPass(b, ask, k).queue) < Work(b.queue)
    ensures b.queue == [] ==> FastPass(b, ask, k).queue == []
    decreases |b.queue|
  {
    if b.queue != [] {
      var rest, t := b.(queue := b.queue[1..]), b.queue[0];
      var r := FastTurn(rest, t, ask(k).0, ask(k).1);
      TurnsTidy(rest, t, ask(k).0, ask(k).1);
      if r.1 {
        FastPassWorks(r.0, ask, k + 1);
      } else {
        WorkPush(rest.queue, r.0.queue[|r.0.queue| - 1]);
      }
    }
  }

  /** A call with something queued takes at least one attempt off. */
  lemma CallWorks(b: Books, round: nat, ask: Ask)
    requires Tidy(b)
    ensures Tidy(Call(b, round, ask))
    ensures b.queue != [] ==> Work(Call(b, round, ask).queue) < Work(b.queue)
    ensures b.queue == [] ==> Call(b, round, ask).queue == []
  {
    SlowPassTidy(b.(parked := []), b.parked, ask, 0);
    FastPassWorks(Ring(b, round, ask), ask, |b.parked|);
  }

  /** A call that keeps the books tidy and takes an attempt off any queue. */
  ghost predicate Working(call: (Books, nat) -> Books, b: Books, round: nat) {
    Tidy(b) ==>
      && Tidy(call(b, round))
      && (if b.queue == [] then call(b, round).queue == [] else Work(call(b, round).queue) < Work(b.queue))
  }

  lemma {:induction false} RepeatDrains(call: (Books, nat) -> Books, b: Books, round: nat, n: nat)
    requires forall c, r {:trigger Working(call, c, r)} :: Working(call, c, r)
    requires Tidy(b) && n >= Work(b.queue)
    ensures Tidy(Repeat(call, b, round, n)) && Repeat(call, b, round, n).queue == []
    decreases n
  {
    if n > 0 {
      assert Working(call, b, round);
      RepeatDrains(call, call(b, round), round + 1, n - 1);
    } else {
      assert forall t :: t in b.queue ==> t.attempts < MAX_ATTEMPTS;
    }
  }

  /** With nothing new enqueued the fast queue is empty after as many calls as it has attempts left. */
  lemma QueueDrains(b: Books, round: nat, asks: nat -> Ask, n: nat)
    requires Tidy(b) && n >= Work(b.queue)
    ensures Tidy(Calls(b, round, asks, n)) && Calls(b, round, asks, n).queue == []
  {
    var call := (c: Books, r: nat) => Call(c, r, asks(r));
    forall c, r ensures Working(call, c, r) {
      if Tidy(c) {
        CallWorks(c, r, asks(r));
      }
    }
    RepeatDrains(call, b, round, n);
  }

  // ── The ring comes around ────────────────────────────────────────────────

  /** The entries of a batch that are still parked after one turn each. */
  function Survivors(batch: seq<Tx>, ask: Ask, k: nat): seq<Tx>
    decreases |batch|
  {
    if batch == [] then []
    else
      var kept := StillParked(batch[0], ask(k));
      (if kept.Some? then [kept.value] else []) + Survivors(batch[1..], ask, k + 1)
  }

  lemma TurnParks(b: Books, t: Tx, coop: Answer, indep: Answer)
    ensures var kept := StillParked(t, (coop, indep));
            SlowTurn(b, t, coop, indep).parked == b.parked + (if kept.Some? then [kept.value] else [])
  {
  }

  lemma Regroup(a: seq<Tx>, b: seq<Tx>, c: seq<Tx>)
    ensures a + b + c == a + (b + c)
  {
  }

  lemma {:induction false} SlowPassParks(b: Books, batch: seq<Tx>, ask: Ask, k: nat)
    ensures SlowPass(b, batch, ask, k).parked == b.parked + Survivors(batch, ask, k)
    decreases |batch|
  {
    if batch != [] {
      TurnParks(b, batch[0], ask(k).0, ask(k).1);
      SlowPassParks(SlowTurn(b, batch[0], ask(k).0, ask(k).1), batch[1..], ask, k + 1);
      var kept := StillParked(batch[0], ask(k));
      Regroup(b.parked, if kept.Some? then [kept.value] else [], Survivors(batch[1..], ask, k + 1));
    }
  }

  lemma {:induction false} FastPassParks(b: Books, ask: Ask, k: nat)
    ensures b.parked <= FastPass(b, ask, k).parked
    decreases |b.queue|
  {
    if b.queue != [] {
      var r := FastTurn(b.(queue := b.queue[1..]), b.queue[0], ask(k).0, ask(k).1);
      if r.1 {
        FastPassParks(r.0, ask, k + 1);
      }
    }
  }

  /** In a round of the ring every parked entry gets its turn; in the others none is touched. */
  lemma CallParks(b: Books, round: nat, ask: Ask)
    ensures var p := Call(b, round, ask).parked;
            if RingRound(round) then Survivors(b.parked, ask, 0) <= p else b.parked <= p
  {
    SlowPassParks(b.(parked := []), b.parked, ask, 0);
    FastPassParks(Ring(b, round, ask), ask, |b.parked|);
  }

  lemma {:induction false} SurvivorsOfPrefix(a: seq<Tx>, b: seq<Tx>, ask: Ask, k: nat)
    requires a <= b
    ensures Survivors(a, ask, k) <= Survivors(b, ask, k)
    decreases |a|
  {
    if a != [] {
      SurvivorsOfPrefix(a[1..], b[1..], ask, k + 1);
    }
  }

  /** How many calls until the ring's next round. */
  function RingIn(round: nat): (j: nat)
    ensures j < PARK_INTERVAL && RingRound(round + j)
  {
    if RingRound(round) then 0 else PARK_INTERVAL - round % PARK_INTERVAL
  }

  lemma RingInNext(round: nat)
    ensures if RingRound(round) then RingIn(round) == 0 else RingIn(round) == RingIn(round + 1) + 1
  {
  }

  /** What a round makes of the ring, told by `turns`, and what it leaves alone. */
  ghost predicate ParksLaw(call: (Books, nat) -> Books, turns: (seq<Tx>, nat) -> seq<Tx>, b: Books, r: nat) {
    if RingRound(r) then turns(b.parked, r) <= call(b, r).parked else b.parked <= call(b, r).parked
  }

  ghost predicate PrefixLaw(turns: (seq<Tx>, nat) -> seq<Tx>, a: seq<Tx>, b: seq<Tx>, r: nat) {
    a <= b ==> turns(a, r) <= turns(b, r)
  }

  lemma {:induction false} RepeatParks(call: (Books, nat) -> Books, turns: (seq<Tx>, nat) -> seq<Tx>, b: Books, round: nat, j: nat)
    requires forall c, r {:trigger ParksLaw(call, turns, c, r)} :: ParksLaw(call, turns, c, r)
    requires forall x, y, r {:trigger PrefixLaw(turns, x, y, r)} :: PrefixLaw(turns, x, y, r)
    requires j == RingIn(round)
    ensures turns(b.parked, round + j) <= Repeat(call, b, round, j + 1).parked
    decreases j
  {
    assert ParksLaw(call, turns, b, round);
    RingInNext(round);
    if j == 0 {
      assert Repeat(call, call(b, round), round + 1, 0) == call(b, round);
    } else {
      RepeatParks(call, turns, call(b, round), round + 1, j - 1);
      assert PrefixLaw(turns, b.parked, call(b, round).parked, round + j);
    }
  }

  lemma CallParksLaw(call: (Books, nat) -> Books, turns: (seq<Tx>, nat) -> seq<Tx>, ask: Ask, b: Books, r: nat)
    requires call(b, r) == Call(b, r, ask) && turns(b.parked, r) == Survivors(b.parked, ask, 0)
    ensures ParksLaw(call, turns, b, r)
  {
    CallParks(b, r, ask);
  }

  lemma SurvivorsPrefixLaw(turns: (seq<Tx>, nat) -> seq<Tx>, ask: Ask, a: seq<Tx>, b: seq<Tx>, r: nat)
    requires turns(a, r) == Survivors(a, ask, 0) && turns(b, r) == Survivors(b, ask, 0)
    ensures PrefixLaw(turns, a, b, r)
  {
    if a <= b {
      SurvivorsOfPrefix(a, b, ask, 0);
    }
  }

  /** Within thirty calls every parked entry gets a turn, whatever else is queued meanwhile: after the
      ring's next round those that the answers to their own turn leave parked are in the ring, in
      order, ahead of any parked since. */
  lemma EveryParkedTried(b: Books, round: nat, asks: nat -> Ask)
    ensures RingIn(round) < PARK_INTERVAL
    ensures Survivors(b.parked, asks(round + RingIn(round)), 0) <= Calls(b, round, asks, RingIn(round) + 1).parked
  {
    var call := (c: Books, r: nat) => Call(c, r, asks(r));
    var turns := (batch: seq<Tx>, r: nat) => Survivors(batch, asks(r), 0);
    forall c, r ensures ParksLaw(call, turns, c, r) {
      CallParksLaw(call, turns, asks(r), c, r);
    }
    forall x, y, r ensures PrefixLaw(turns, x, y, r) {
      SurvivorsPrefixLaw(turns, asks(r), x, y, r);
    }
    RepeatParks(call, turns, b, round, RingIn(round));
  }

  // ── Paths that accept ────────────────────────────────────────────────────

  function Ids(s: seq<Tx>): multiset<Txid> {
    if s == [] then multiset{} else multiset{s[0].id} + Ids(s[1..])
  }

  ghost predicate Accepting(ask: Ask) {
    forall k :: Retires(ask(k).0, ask(k).1)
  }

  lemma {:induction false} SlowPassAccepted(b: Books, batch: seq<Tx>, ask: Ask, k: nat)
    requires Accepting(ask)
    ensures SlowPass(b, batch, ask, k) == b.(retired := b.retired + Ids(batch))
    decreases |batch|
  {
    if batch != [] {
      var message := SlowTurnExact(b, batch[0], ask(k).0, ask(k).1);
      SlowPassAccepted(SlowTurn(b, batch[0], ask(k).0, ask(k).1), batch[1..], ask, k + 1);
    }
  }

  lemma {:induction false} FastPassAccepted(b: Books, ask: Ask, k: nat)
    requires Accepting(ask) && Tidy(b)
    ensures FastPass(b, ask, k) == b.(queue := [], sent := b.sent + Ids(b.queue))
    decreases |b.queue|
  {
    if b.queue != [] {
      var rest := b.(queue := b.queue[1..]);
      assert FastOk(b.queue[0]) && Retires(ask(k).0, ask(k).1);
      var heard := FastTurnExact(rest, b.queue[0], ask(k).0, ask(k).1);
      FastPassAccepted(FastTurn(rest, b.queue[0], ask(k).0, ask(k).1).0, ask, k + 1);
    }
  }

  /** The books with the queue sent, and the ring retired if `ring`. */
  function Cleared(b: Books, ring: bool): Books {
    var c := b.(queue := [], sent := b.sent + Ids(b.queue));
    if ring then c.(parked := [], retired := c.retired + Ids(b.parked)) else c
  }

  lemma CallAccepted(b: Books, round: nat, ask: Ask)
    requires Accepting(ask) && Tidy(b)
    ensures Call(b, round, ask) == Cleared(b, RingRound(round))
  {
    SlowPassAccepted(b.(parked := []), b.parked, ask, 0);
    SlowPassTidy(b.(parked := []), b.parked, ask, 0);
    FastPassAccepted(Ring(b, round, ask), ask, |b.parked|);
  }

  ghost predicate ClearsLaw(call: (Books, nat) -> Books, b: Books, r: nat) {
    Tidy(b) ==> call(b, r) == Cleared(b, RingRound(r))
  }

  lemma ClearedTwice(b: Books, first: bool, second: bool)
    ensures Cleared(Cleared(b, first), second) == Cleared(b, first || second)
  {
    assert Ids([]) == multiset{};
  }

  lemma ClearedTidy(b: Books, ring: bool)
    requires Tidy(b)
    ensures Tidy(Cleared(b, ring))
  {
  }

  lemma {:induction false} RepeatClears(call: (Books, nat) -> Books, b: Books, round: nat, n: nat)
    requires forall c, r {:trigger ClearsLaw(call, c, r)} :: ClearsLaw(call, c, r)
    requires Tidy(b) && n >= 1
    ensures Repeat(call, b, round, n) == Cleared(b, n > RingIn(round))
    decreases n
  {
    assert ClearsLaw(call, b, round);
    var c := Cleared(b, RingRound(round));
    if n == 1 {
      RingInNext(round);
      assert Repeat(call, c, round + 1, 0) == c;
    } else {
      ClearedTidy(b, RingRound(round));
      RepeatClears(call, c, round + 1, n - 1);
      RingInNext(round);
      ClearedTwice(b, RingRound(round), n - 1 > RingIn(round + 1));
    }
  }

  /** While the paths accept, the queue is sent with the first call, and the ring is emptied, each entry
      retired once and nothing reported, exactly once the ring has come around, so within thirty. */
  lemma AcceptingPathsEmptyTheRing(b: Books, round: nat, asks: nat -> Ask, n: nat)
    requires Tidy(b) && n >= 1 && forall r :: Accepting(asks(r))
    ensures Calls(b, round, asks, n) == Cleared(b, n > RingIn(round))
    ensures n >= PARK_INTERVAL ==> Calls(b, round, asks, n).parked == [] && Calls(b, round, asks, n).queue == []
  {
    var call := (c: Books, r: nat) => Call(c, r, asks(r));
    forall c, r ensures ClearsLaw(call, c, r) {
      if Tidy(c) {
        CallAccepted(c, r, asks(r));
      }
    }
    RepeatClears(call, b, round, n);
  }

  // ── A call is one pass ───────────────────────────────────────────────────

  lemma OneStep(m: Machine, s: Step) returns (steps: seq<Step>)
    requires Legal(m, s)
    ensures IsRun(m, steps) && Exec(m, steps) == Apply(m, s)
  {
    steps := [s];
    assert steps[1..] == [];
    assert IsRun(Apply(m, s), []);
  }

  lemma {:induction false} SlowIsRun(m: Machine, p: nat, batch: seq<Tx>, ask: Ask, k: nat) returns (steps: seq<Step>)
    requires p < |m.hands| && m.hands[p] == Slow(batch)
    ensures IsRun(m, steps) && Exec(m, steps) == m.(books := SlowPass(m.books, batch, ask, k), hands := m.hands[p := Fast(None)])
    decreases |batch|
  {
    if batch == [] {
      steps := OneStep(m, SlowEnd(p));
    } else {
      var s := SlowStep(p, ask(k).0, ask(k).1);
      var first := OneStep(m, s);
      var rest := SlowIsRun(Apply(m, s), p, batch[1..], ask, k + 1);
      RunsCompose(m, first, rest);
      steps := first + rest;
      assert m.hands[p := Slow(batch[1..])][p := Fast(None)] == m.hands[p := Fast(None)];
    }
  }

  lemma {:induction false} FastIsRun(m: Machine, p: nat, ask: Ask, k: nat) returns (steps: seq<Step>)
    requires p < |m.hands| && m.hands[p] == Fast(None)
    ensures IsRun(m, steps) && Exec(m, steps) == m.(books := FastPass(m.books, ask, k), hands := m.hands[p := Idle])
    decreases |m.books.queue|
  {
    steps := OneStep(m, Pop(p));
    if m.books.queue != [] {
      var popped, s := Apply(m, Pop(p)), FastStep(p, ask(k).0, ask(k).1);
      var turn := OneStep(popped, s);
      RunsCompose(m, steps, turn);
      steps := steps + turn;
      var n := Apply(popped, s);
      var r := FastTurn(popped.books, m.books.queue[0], ask(k).0, ask(k).1);
      assert n == m.(books := r.0, hands := m.hands[p := if r.1 then Fast(None) else Idle]);
      if r.1 {
        var rest := FastIsRun(n, p, ask, k + 1);
        RunsCompose(m, steps, rest);
        steps := steps + rest;
        assert n.hands[p := Idle] == m.hands[p := Idle];
      }
    }
  }

  /** A call is a run of one pass, from idle to idle: so what holds of overlapping passes holds of it. */
  lemma CallIsRun(m: Machine, p: nat, ask: Ask) returns (steps: seq<Step>)
    requires p < |m.hands| && m.hands[p].Idle?
    ensures IsRun(m, steps) && Exec(m, steps) == Machine(Call(m.books, m.rounds, ask), m.rounds + 1, m.hands)
  {
    steps := OneStep(m, Start(p));
    var n := Apply(m, Start(p));
    if m.rounds % PARK_INTERVAL == 0 {
      var slow := SlowIsRun(n, p, m.books.parked, ask, 0);
      RunsCompose(m, steps, slow);
      steps := steps + slow;
      n := Exec(m, steps);
    }
    var fast := FastIsRun(n, p, ask, |m.books.parked|);
    RunsCompose(m, steps, fast);
    steps := steps + fast;
    assert m.hands[p := Idle] == m.hands;
  }

  // ── The broadcaster object ───────────────────────────────────────────────

  class Broadcaster {
    var queue: seq<Tx>
    var parked: seq<Tx>
    var drainRounds: nat
    var failures: seq<Failure>
    ghost var taken: seq<Failure>
    ghost var enqueued: multiset<Txid>
    ghost var sent: multiset<Txid>
    ghost var retired: multiset<Txid>
    ghost var conflicted: multiset<Txid>

    ghost function Contents(): Books
      reads this
    {
      Books(queue, parked, taken + failures, |taken|, enqueued, sent, retired, conflicted)
    }

    constructor ()
      ensures Contents() == EMPTY && drainRounds == 0
    {
      queue, parked, drainRounds, failures := [], [], 0, [];
      taken, enqueued, sent, retired, conflicted := [], multiset{}, multiset{}, multiset{}, multiset{};
    }

    method BroadcastTransactions(ids: seq<Txid>)
      modifies this
      ensures Contents() == PushAll(old(Contents()), ids) && drainRounds == old(drainRounds)
    {
      assert ids[0..] == ids;
      for i := 0 to |ids|
        invariant PushAll(Contents(), ids[i..]) == PushAll(old(Contents()), ids) && drainRounds == old(drainRounds)
      {
        assert ids[i..][1..] == ids[i + 1..];
        queue := queue + [Fresh(ids[i])];
        enqueued := enqueued + multiset{ids[i]};
      }
    }

    /** Nothing happens if an entry of the transaction is queued. */
    method EnqueueRaw(id: Txid)
      modifies this
      ensures Contents() == (if old(Queued(Contents(), id)) then old(Contents()) else Push(old(Contents()), id))
    {
      for i := 0 to |queue|
        invariant forall k :: 0 <= k < i ==> queue[k].id != id
      {
        if queue[i].id == id {
          return;
        }
      }
      queue := queue + [Fresh(id)];
      enqueued := enqueued + multiset{id};
    }

    method TakeFailures() returns (r: seq<Failure>)
      modifies this
      ensures r == old(failures) && failures == [] && Contents() == old(Contents()).(shown := |old(Contents()).log|)
    {
      r := failures;
      taken := taken + failures;
      failures := [];
    }

    method Report(f: Failure)
      modifies this`failures
      ensures failures == old(failures) + [f]
      ensures Contents() == old(Contents()).(log := old(Contents()).log + [f])
    {
      failures := failures + [f];
      assert taken + (old(failures) + [f]) == (taken + old(failures)) + [f];
    }

    method TrySlow(t: Tx, coop: Answer, indep: Answer)
      modifies this
      ensures Contents() == SlowTurn(old(Contents()), t, coop, indep) && drainRounds == old(drainRounds)
    {
      var r := TryPaths(coop, indep);
      if r.Ok? {
        retired := retired + multiset{t.id};
        return;
      }
      var pending := t.(lastError := Some(r.message));
      if Classify(r.message) == Conflict {
        pending := pending.(strikes := pending.strikes + 1);
        if pending.strikes >= MAX_STRIKES {
          Report(Failure(pending.id, pending.attempts, "CONFLICT (permanent): " + r.message));
          conflicted := conflicted + multiset{t.id};
          return;
        }
      }
      parked := parked + [pending];
    }

    method ProcessParked(ask: Ask)
      modifies this
      ensures Contents() == SlowPass(old(Contents()).(parked := []), old(parked), ask, 0) && drainRounds == old(drainRounds)
    {
      var batch := parked;
      parked := [];
      assert batch[0..] == batch;
      for k := 0 to |batch|
        invariant SlowPass(Contents(), batch[k..], ask, k) == SlowPass(old(Contents()).(parked := []), batch, ask, 0)
        invariant drainRounds == old(drainRounds)
      {
        assert batch[k..][1..] == batch[k + 1..];
        TrySlow(batch[k], ask(k).0, ask(k).1);
      }
    }

    method TryFast(t: Tx, coop: Answer, indep: Answer) returns (more: bool)
      modifies this
      ensures (Contents(), more) == FastTurn(old(Contents()), t, coop, indep) && drainRounds == old(drainRounds)
    {
      if FastDone(t, coop, indep) {
        sent := sent + multiset{t.id};
        return true;
      }
      var pending := t.(attempts := t.attempts + 1, lastError := Heard(t.lastError, coop, indep));
      if pending.attempts >= MAX_ATTEMPTS {
        Report(Failure(pending.id, pending.attempts, OrElse(pending.lastError, "no path available")));
        parked := parked + [pending];
        return true;
      }
      queue := queue + [pending];
      return false;
    }

    /** Pop and try until the queue is empty or an entry is put back. */
    method DrainQueue(ask: Ask, from: nat)
      modifies this
      ensures Contents() == FastPass(old(Contents()), ask, from) && drainRounds == old(drainRounds)
    {
      var k: nat := from;
      while queue != []
        invariant FastPass(Contents(), ask, k) == FastPass(old(Contents()), ask, from)
        invariant drainRounds == old(drainRounds)
        decreases |queue|
      {
        ghost var b := Contents();
        var pending := queue[0];
        queue := queue[1..];
        assert Contents() == b.(queue := b.queue[1..]);
        var more := TryFast(pending, ask(k).0, ask(k).1);
        if !more {
          return;
        }
        k := k + 1;
      }
    }

    method ProcessQueue(ask: Ask)
      requires Tidy(Contents())
      modifies this
      ensures Contents() == Call(old(Contents()), old(drainRounds), ask) && drainRounds == old(drainRounds) + 1
      ensures Tidy(Contents()) && (old(queue) != [] ==> Work(queue) < Work(old(queue)))
    {
      CallWorks(Contents(), drainRounds, ask);
      var round, asked := drainRounds, |parked|;
      drainRounds := drainRounds + 1;
      if round % PARK_INTERVAL == 0 {
        ProcessParked(ask);
      }
      DrainQueue(ask, asked);
    }
  }
}
