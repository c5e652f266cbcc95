/**
 The cold-start state machine (lij/lij-core/src/cold_start.rs, lij/lij-core/src/sync_state.rs): a pure
 decision, iterated to a fixpoint inside each tick, over what the two chain-data paths report.
 */
module ColdStart {
  import opened Prelude

  datatype SyncState = Initializing | Syncing | Ready | ReadOnly | Frozen

  datatype Quorum = Healthy | SlightDisagreement | SingleSource | NoQuorum | TotalDisagreement | InsufficientEndpoints

  const INITIALIZING_GRACE: nat := 1
  const INDEPENDENT_TARGET: nat := 30
  const BOTH_BROKEN_TIMEOUT: nat := 60
  const HEIGHT_TOLERANCE: nat := 2

  /** What a tick is given. */
  datatype Inputs = Inputs(tick: nat, subscribed: bool, height: Option<nat>, healthy: nat, quorum: Quorum)

  /** What the decision sees: fixed for the whole tick. */
  datatype Facts = Facts(elapsed: nat, subscribed: bool, height: Option<nat>, independent: Option<nat>,
                         healthy: nat, quorum: Quorum, queried: bool) {
    predicate Cooperative() {
      subscribed && height.Some?
    }

    predicate Independent() {
      healthy >= 1 && (quorum.Healthy? || quorum.SlightDisagreement? || quorum.SingleSource?)
    }

    predicate Agree() {
      height.Some? && independent.Some? && Apart(height.value, independent.value) <= HEIGHT_TOLERANCE
    }
  }

  function Apart(a: nat, b: nat): nat {
    if a < b then b - a else a - b
  }

  function Decide(s: SyncState, f: Facts): SyncState {
    var coop, indep := f.Cooperative(), f.Independent();
    if s.Initializing? then (if f.elapsed >= INITIALIZING_GRACE then Syncing else Initializing)
    else if !coop && !indep && f.elapsed >= BOTH_BROKEN_TIMEOUT then Frozen
    else if coop && indep && f.queried && f.Agree() then Ready
    else if coop && !indep && f.elapsed >= INDEPENDENT_TARGET then ReadOnly
    else if !coop && indep then ReadOnly
    else if s.Syncing? || s.Ready? || s.ReadOnly? then
      if s.Ready? && !coop then ReadOnly
      else if s.Ready? && !indep then ReadOnly
      else if s.ReadOnly? && coop && indep && f.Agree() then Ready
      else s
    else if s.Frozen? && (coop || indep) then Syncing
    else s
  }

  // ── One tick ─────────────────────────────────────────────────────────────

  function Round(s: SyncState, f: Facts, n: nat): SyncState {
    if n == 0 then s else Decide(Round(s, f, n - 1), f)
  }

  /** Two rounds reach a state that the decision maps to itself, from every state on every input. */
  lemma SettlesByTwo(s: SyncState, f: Facts)
    ensures var r := Round(s, f, 2); Decide(r, f) == r
  {
  }

  function End(s: SyncState, f: Facts): SyncState {
    Decide(Decide(s, f), f)
  }

  lemma {:induction false} RoundsSettle(s: SyncState, f: Facts, n: nat)
    requires n >= 2
    ensures Round(s, f, n) == End(s, f)
  {
    SettlesByTwo(s, f);
    assert Round(s, f, 2) == End(s, f) by {
      assert Round(s, f, 1) == Decide(Round(s, f, 0), f);
    }
    if n > 2 {
      RoundsSettle(s, f, n - 1);
    }
  }

  /** What a begun tick ends in ReadOnly on: the independent path alone; the cooperative one alone, past
      its target or after better; both, not agreeing, from ReadOnly; neither, for a while after better. */
  predicate HalfUp(s: SyncState, f: Facts) {
    var coop, indep, better := f.Cooperative(), f.Independent(), s.Ready? || s.ReadOnly?;
    || (!coop && indep)
    || (coop && !indep && (better || f.elapsed >= INDEPENDENT_TARGET))
    || (coop && indep && s.ReadOnly? && !f.Agree())
    || (!coop && !indep && better && f.elapsed < BOTH_BROKEN_TIMEOUT)
  }

  /** Where a tick ends, for every start and every input: Ready, ReadOnly, Frozen and Initializing exactly
      so, and Syncing otherwise. From Ready a lost path always leads to ReadOnly, or to Frozen once
      neither has been there for long; Frozen is left as soon as a path is back, for Ready when both
      agree, for ReadOnly with the independent path alone or the other alone past its target, else for
      Syncing. */
  lemma TickEnds(s: SyncState, f: Facts)
    ensures var r, coop, indep, begun := End(s, f), f.Cooperative(), f.Independent(), !s.Initializing? || f.elapsed >= INITIALIZING_GRACE;
            && (r.Initializing? <==> !begun)
            && (r.Ready? <==> begun && coop && indep && (s.Ready? || (f.Agree() && (f.queried || s.ReadOnly?))))
            && (r.Frozen? <==> begun && !coop && !indep && (s.Frozen? || f.elapsed >= BOTH_BROKEN_TIMEOUT))
            && (r.ReadOnly? <==> begun && HalfUp(s, f))
  {
  }

  /** The same in the inputs' own terms, for a tick after the first: Ready needs a subscribed provider with
      a height and a healthy source of a usable quorum, and, unless it was Ready, heights within two
      blocks; Frozen needs neither path, for sixty ticks unless it was Frozen. */
  lemma EndByInputs(s: SyncState, f: Facts)
    requires f.elapsed >= 1
    ensures var coop := f.subscribed && f.height.Some?;
            var indep := f.healthy >= 1 && !f.quorum.NoQuorum? && !f.quorum.TotalDisagreement? && !f.quorum.InsufficientEndpoints?;
            var near := f.height.Some? && f.independent.Some? && -2 <= f.height.value - f.independent.value <= 2;
            && (End(s, f).Ready? <==> coop && indep && (s.Ready? || (near && (f.queried || s.ReadOnly?))))
            && (End(s, f).Frozen? <==> !coop && !indep && (s.Frozen? || f.elapsed >= 60))
            && (coop && !indep && (s.Syncing? || s.Initializing?) ==> End(s, f) == if f.elapsed >= 30 then ReadOnly else Syncing)
  {
    TickEnds(s, f);
  }

  /** On inputs alone a tick, however many rounds it takes, can end in Ready without the independent
      path having been queried: exactly from ReadOnly with both paths up and heights agreeing. */
  lemma ReadyUnqueriedIff(s: SyncState, f: Facts)
    ensures !s.Ready? && End(s, f).Ready? && !f.queried <==>
            s.ReadOnly? && !f.queried && f.Cooperative() && f.Independent() && f.Agree()
  {
  }

  // ── Runs ─────────────────────────────────────────────────────────────────

  datatype Event =
    | Tick(inputs: Inputs)
    | Mark(returned: Option<nat>)
    | Reset(tick: nat)
    | SetState(state: SyncState)

  datatype Machine = Machine(started: Option<nat>, coopHeight: Option<nat>, indepHeight: Option<nat>, queried: bool, state: SyncState)

  const NEW: Machine := Machine(None, None, None, false, Initializing)

  function StartedAt(m: Machine, i: Inputs): nat {
    if m.started.Some? then m.started.value else i.tick
  }

  function FactsOf(m: Machine, i: Inputs): Facts {
    var since := StartedAt(m, i);
    Facts(if i.tick < since then 0 else i.tick - since, i.subscribed, i.height, m.indepHeight, i.healthy, i.quorum, m.queried)
  }

  function Apply(m: Machine, e: Event): Machine {
    match e
    case Tick(i) =>
      m.(started := Some(StartedAt(m, i)), coopHeight := if i.height.Some? then i.height else m.coopHeight,
         state := End(m.state, FactsOf(m, i)))
    case Mark(h) => m.(queried := true, indepHeight := if h.Some? then h else m.indepHeight)
    case Reset(t) => m.(started := Some(t), coopHeight := None, indepHeight := None, queried := false)
    case SetState(s) => m.(state := s)
  }

  function After(events: seq<Event>): Machine {
    if events == [] then NEW else Apply(After(events[..|events| - 1]), events[|events| - 1])
  }

  /** The j-th event answered height `h`, and nothing since has reset the machine or answered anew. */
  ghost predicate LastAnswer(events: seq<Event>, j: nat, h: nat) {
    && j < |events| && events[j] == Mark(Some(h))
    && forall k :: j < k < |events| ==> !events[k].Reset? && !(events[k].Mark? && events[k].returned.Some?)
  }

  /** A height is remembered only from an answer since the last reset, which also marked the query. */
  lemma {:induction false} HeightIsAnswered(events: seq<Event>)
    ensures var m := After(events);
            m.indepHeight.Some? ==> m.queried && exists j :: LastAnswer(events, j, m.indepHeight.value)
    decreases |events|
  {
    if events != [] {
      var n := |events| - 1;
      HeightIsAnswered(events[..n]);
      var m := After(events);
      if m.indepHeight.Some? {
        if events[n].Mark? && events[n].returned.Some? {
          assert LastAnswer(events, n, m.indepHeight.value);
        } else {
          var j :| LastAnswer(events[..n], j, m.indepHeight.value);
          assert forall k :: 0 <= k < n ==> events[..n][k] == events[k];
          assert LastAnswer(events, j, m.indepHeight.value);
        }
      }
    }
  }

  /** And such an answer is remembered. */
  lemma {:induction false} AnswerIsRemembered(events: seq<Event>, j: nat, h: nat)
    requires LastAnswer(events, j, h)
    ensures After(events).indepHeight == Some(h) && After(events).queried
    decreases |events|
  {
    var n := |events| - 1;
    if j < n {
      assert forall k :: 0 <= k < n ==> events[..n][k] == events[k];
      AnswerIsRemembered(events[..n], j, h);
    }
  }

  lemma Prefix(events: seq<Event>, n: nat)
    requires n + 1 == |events|
    ensures After(events) == Apply(After(events[..n]), events[n])
    ensures forall k :: 0 <= k < n ==> events[..n][k] == events[k]
  {
  }

  /** The j-th event is followed by no reset. */
  ghost predicate SinceReset(events: seq<Event>, j: nat) {
    j < |events| && forall k :: j < k < |events| ==> !events[k].Reset?
  }

  lemma SinceResetPush(events: seq<Event>, n: nat, j: nat)
    requires n + 1 == |events| && j < n
    ensures SinceReset(events, j) <==> SinceReset(events[..n], j) && !events[n].Reset?
  {
  }

  ghost predicate MarkedSince(events: seq<Event>, j: nat) {
    SinceReset(events, j) && events[j].Mark?
  }

  /** The path counts as queried exactly when it was since the last reset. */
  lemma {:induction false} QueriedIff(events: seq<Event>)
    ensures After(events).queried <==> exists j :: 0 <= j < |events| && MarkedSince(events, j)
    decreases |events|
  {
    if events != [] {
      var n := |events| - 1;
      Prefix(events, n);
      QueriedIff(events[..n]);
      assert events[n].Mark? ==> MarkedSince(events, n);
      forall j | 0 <= j < n ensures MarkedSince(events, j) <==> MarkedSince(events[..n], j) && !events[n].Reset? {
        SinceResetPush(events, n, j);
      }
    }
  }

  /** The j-th event is the last reset, at tick `t`. */
  ghost predicate LastReset(events: seq<Event>, j: nat, t: nat) {
    SinceReset(events, j) && events[j] == Reset(t)
  }

  /** With no reset, the j-th event is the first tick, tick `t`. */
  ghost predicate FirstTick(events: seq<Event>, j: nat, t: nat) {
    && j < |events| && events[j].Tick? && events[j].inputs.tick == t
    && (forall k :: 0 <= k < j ==> !events[k].Tick?) && (forall k :: 0 <= k < |events| ==> !events[k].Reset?)
  }

  /** Budgets run from the last reset or, without one, from the first tick. */
  lemma {:induction false} StartedIff(events: seq<Event>, t: nat)
    ensures After(events).started == Some(t) <==>
            exists j :: 0 <= j < |events| && (LastReset(events, j, t) || FirstTick(events, j, t))
    ensures After(events).started.None? <==> forall k :: 0 <= k < |events| ==> !events[k].Tick? && !events[k].Reset?
    decreases |events|
  {
    if events != [] {
      var n := |events| - 1;
      Prefix(events, n);
      StartedIff(events[..n], t);
      forall j | 0 <= j < n
        ensures LastReset(events, j, t) || FirstTick(events, j, t) <==>
                !events[n].Reset? && (LastReset(events[..n], j, t) || FirstTick(events[..n], j, t))
      {
        SinceResetPush(events, n, j);
      }
      var m := After(events[..n]);
      if events[n].Reset? {
        assert LastReset(events, n, events[n].tick);
      } else if events[n].Tick? && m.started.None? {
        assert FirstTick(events, n, events[n].inputs.tick);
      } else if events[n].Tick? && m.started.Some? {
        StartedEarlier(events, n, t);
      }
    }
  }

  lemma StartedEarlier(events: seq<Event>, n: nat, t: nat)
    requires n + 1 == |events| && events[n].Tick?
    requires !(forall k :: 0 <= k < n ==> !events[..n][k].Tick? && !events[..n][k].Reset?)
    ensures !LastReset(events, n, t) && !FirstTick(events, n, t)
  {
    var k :| 0 <= k < n && (events[..n][k].Tick? || events[..n][k].Reset?);
    assert events[k] == events[..n][k];
  }

  /** The j-th event is the last tick since the last reset that had a cooperative height, `h`. */
  ghost predicate LastHeight(events: seq<Event>, j: nat, h: nat) {
    && SinceReset(events, j) && events[j].Tick? && events[j].inputs.height == Some(h)
    && forall k :: j < k < |events| ==> !(events[k].Tick? && events[k].inputs.height.Some?)
  }

  lemma LastHeightPush(events: seq<Event>, n: nat, j: nat, h: nat)
    requires n + 1 == |events| && j < n
    ensures LastHeight(events, j, h) <==>
            LastHeight(events[..n], j, h) && !events[n].Reset? && !(events[n].Tick? && events[n].inputs.height.Some?)
  {
    SinceResetPush(events, n, j);
  }

  /** The cooperative height remembered is the last one seen since the last reset. */
  lemma {:induction false} CooperativeHeightIff(events: seq<Event>, h: nat)
    ensures After(events).coopHeight == Some(h) <==> exists j :: 0 <= j < |events| && LastHeight(events, j, h)
    decreases |events|
  {
    if events != [] {
      var n := |events| - 1;
      Prefix(events, n);
      CooperativeHeightIff(events[..n], h);
      forall j | 0 <= j < n
        ensures LastHeight(events, j, h) <==>
                LastHeight(events[..n], j, h) && !events[n].Reset? && !(events[n].Tick? && events[n].inputs.height.Some?)
      {
        LastHeightPush(events, n, j, h);
      }
      if events[n].Tick? && events[n].inputs.height.Some? {
        assert LastHeight(events, n, events[n].inputs.height.value);
      }
    }
  }

  /** In every run, each round that moves a tick into Ready has both paths available, and the
      independent path was queried since the last reset and its last answer is within two blocks of
      the cooperative height. */
  lemma EveryMoveIntoReady(events: seq<Event>, i: Inputs, k: nat)
    requires var m := After(events);
             !Round(m.state, FactsOf(m, i), k).Ready? && Round(m.state, FactsOf(m, i), k + 1).Ready?
    ensures var m := After(events);
            && m.queried && FactsOf(m, i).Cooperative() && FactsOf(m, i).Independent()
            && i.height.Some?
            && exists j, h :: LastAnswer(events, j, h) && Apart(i.height.value, h) <= HEIGHT_TOLERANCE
  {
    var m := After(events);
    HeightIsAnswered(events);
    var f := FactsOf(m, i);
    assert f.Agree();
    var j :| LastAnswer(events, j, m.indepHeight.value);
  }

  /** After every tick of every run: Ready means both paths are available and Frozen means neither,
      and the decision has nothing left to move. */
  lemma EveryTickSettles(events: seq<Event>, i: Inputs)
    ensures var m := After(events);
            var r, f := After(events + [Tick(i)]).state, FactsOf(m, i);
            && (r.Ready? ==> f.Cooperative() && f.Independent())
            && (r.Frozen? ==> !f.Cooperative() && !f.Independent())
            && Decide(r, f) == r
  {
  }

  // ── The orchestrator object ──────────────────────────────────────────────

  class Tracker {
    var state: SyncState

    constructor ()
      ensures state == Initializing
    {
      state := Initializing;
    }

    method Set(s: SyncState)
      modifies this
      ensures state == s
    {
      state := s;
    }

    /** The loop of four rounds, which stops at the first round without a move: it makes at most two
        moves and ends where the decision has nothing left to move. */
    method Settle(f: Facts) returns (moves: nat)
      modifies this
      ensures moves <= 2 && state == Round(old(state), f, moves) == End(old(state), f)
      ensures Decide(state, f) == state
      ensures forall k :: 0 <= k < moves ==> Round(old(state), f, k + 1) != Round(old(state), f, k)
    {
      ghost var start := state;
      SettlesByTwo(start, f);
      moves := 0;
      var i := 0;
      while i < 4
        invariant i == moves <= 2 && state == Round(start, f, moves)
        invariant forall k :: 0 <= k < moves ==> Round(start, f, k + 1) != Round(start, f, k)
        decreases 4 - i
      {
        var next := Decide(state, f);
        if next == state {
          break;
        }
        assert moves != 2;
        Set(next);
        moves := moves + 1;
        i := i + 1;
      }
      SettledIsEnd(start, f, moves);
    }
  }

  class Orchestrator {
    var startedAtTick: Option<nat>
    var lastSeenCooperativeHeight: Option<nat>
    var lastSeenIndependentHeight: Option<nat>
    var independentQueriedOnce: bool

    function State(tracker: Tracker): Machine
      reads this, tracker
    {
      Machine(startedAtTick, lastSeenCooperativeHeight, lastSeenIndependentHeight, independentQueriedOnce, tracker.state)
    }

    constructor ()
      ensures startedAtTick == None && lastSeenCooperativeHeight == None
      ensures lastSeenIndependentHeight == None && !independentQueriedOnce
    {
      startedAtTick, lastSeenCooperativeHeight, lastSeenIndependentHeight, independentQueriedOnce := None, None, None, false;
    }

    method ResetAt(tick: nat, tracker: Tracker)
      modifies this
      ensures State(tracker) == Apply(old(State(tracker)), Reset(tick))
    {
      startedAtTick := Some(tick);
      lastSeenCooperativeHeight := None;
      lastSeenIndependentHeight := None;
      independentQueriedOnce := false;
    }

    method MarkIndependentQueried(returned: Option<nat>, tracker: Tracker)
      modifies this
      ensures State(tracker) == Apply(old(State(tracker)), Mark(returned))
    {
      independentQueriedOnce := true;
      if returned.Some? {
        lastSeenIndependentHeight := returned;
      }
    }

    method OnTick(i: Inputs, tracker: Tracker)
      modifies this, tracker
      ensures State(tracker) == Apply(old(State(tracker)), Tick(i))
    {
      ghost var m := State(tracker);
      if startedAtTick.None? {
        startedAtTick := Some(i.tick);
      }
      var elapsed := if i.tick < startedAtTick.value then 0 else i.tick - startedAtTick.value;
      if i.height.Some? {
        lastSeenCooperativeHeight := i.height;
      }
      var f := Facts(elapsed, i.subscribed, i.height, lastSeenIndependentHeight, i.healthy, i.quorum, independentQueriedOnce);
      assert f == FactsOf(m, i);
      var moves := tracker.Settle(f);
    }
  }

  lemma SettledIsEnd(s: SyncState, f: Facts, moves: nat)
    requires moves <= 2 && Decide(Round(s, f, moves), f) == Round(s, f, moves)
    ensures Round(s, f, moves) == End(s, f)
  {
  }
}
