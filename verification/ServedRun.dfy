/**
 The block range the filter server advertises (ops/lij-tier2-filters.py, _sp_served_run and sp_info),
 its 30-second cache, and both beside the running indexer. The server reads committed databases only;
 one answer takes three reads (the start, the highest row, the start of the run), requests overlap,
 and the indexer may commit between any two of them.
 */
module ServedRun {
  import opened Prelude
  import opened TweakIndex

  /** The answer (start, indexed_to). */
  datatype Run = Run(start: nat, top: nat)

  predicate Covers(r: Run, h: nat) {
    r.start <= h <= r.top
  }

  predicate StartsRun(keys: set<nat>, metaStart: nat, b: nat) {
    b > metaStart && b - 1 !in keys
  }

  function RunStarts(keys: set<nat>, metaStart: nat): set<nat> {
    set b | b in keys && StartsRun(keys, metaStart, b)
  }

  /** The query: the greatest height above the start whose predecessor is missing, or the start. */
  function RunStart(keys: set<nat>, metaStart: nat): nat {
    var runStarts := RunStarts(keys, metaStart);
    if runStarts == {} then metaStart else Top(runStarts)
  }

  /** The answer of a read that sees one database throughout. */
  function ServedNow(keys: set<nat>, metaStart: nat): Run
    requires keys != {}
  {
    Run(RunStart(keys, metaStart), Top(keys))
  }

  /** No height in [h, top] is missing. */
  ghost predicate GapFree(keys: set<nat>, h: nat, top: nat) {
    forall k :: h <= k <= top ==> k in keys
  }

  lemma {:induction false} ServedDown(keys: set<nat>, metaStart: nat, h: nat, k: nat)
    requires h in keys && RunStart(keys, metaStart) <= k <= h
    ensures k in keys
    decreases h
  {
    if k < h {
      var runStarts := RunStarts(keys, metaStart);
      assert h !in runStarts && !StartsRun(keys, metaStart, h);
      ServedDown(keys, metaStart, h - 1, k);
    }
  }

  /** The advertised range is the longest gap-free run that ends at the highest row and does not
      pass below the start: a height is in it if and only if no height up to the top is missing. */
  lemma ServedIsLongestRun(keys: set<nat>, metaStart: nat, h: nat)
    requires keys != {}
    ensures var r := ServedNow(keys, metaStart);
            && r.top == Top(keys)
            && (Covers(r, h) <==> metaStart <= h <= r.top && GapFree(keys, h, r.top))
  {
    var r := ServedNow(keys, metaStart);
    var runStarts := RunStarts(keys, metaStart);
    if Covers(r, h) {
      forall k | h <= k <= r.top ensures k in keys {
        ServedDown(keys, metaStart, r.top, k);
      }
    } else {
      assert metaStart < r.start ==> r.start in runStarts && StartsRun(keys, metaStart, r.start);
      assert metaStart <= h <= r.top && GapFree(keys, h, r.top) ==> r.start - 1 in keys;
    }
  }

  // ── The cache ────────────────────────────────────────────────────────────

  /** What a cached run still guarantees: no row of its range stands above a missing height of it. */
  ghost predicate StillGood(r: Run, db: Db) {
    && db.start <= r.start
    && forall h: nat, k: nat :: Covers(r, h) && h !in db.blocks && k in db.blocks && h < k ==> r.top < k
  }

  lemma StillGoodIsGapFree(r: Run, db: Db)
    requires StillGood(r, db) && db.blocks.Keys != {} && Top(db.blocks.Keys) == r.top
    ensures GapFree(db.blocks.Keys, r.start, r.top)
  {
    assert r.top in db.blocks;
  }

  /** The query's run is good up to any top, even one that is no longer there. */
  lemma QueryIsStillGood(db: Db, metaStart: nat, top: nat)
    requires db.start <= metaStart
    ensures StillGood(Run(RunStart(db.blocks.Keys, metaStart), top), db)
  {
    var keys := db.blocks.Keys;
    assert RunStart(keys, metaStart) >= metaStart by {
      var runStarts := RunStarts(keys, metaStart);
      assert runStarts != {} ==> StartsRun(keys, metaStart, Top(runStarts));
    }
    forall h: nat, k: nat | RunStart(keys, metaStart) <= h < k && k in db.blocks ensures h in db.blocks {
      ServedDown(keys, metaStart, k, h);
    }
  }

  /** A re-index write at `c` inside a run finds a row at every height of the run below it. */
  ghost predicate Fits(r: Run, db: Db, c: nat) {
    c <= r.top ==> forall h: nat :: Covers(r, h) && h < c ==> h in db.blocks
  }

  ghost predicate StepFits(m: Machine, s: Step, r: Run)
    requires Legal(m, s)
  {
    s.Redo? ==> Fits(r, m.work, m.slice.value)
  }

  /** A write leaves a cached run good exactly when it fits; only a re-index write can fail to. A
      reorg's delete and refill never spoil one. */
  lemma StepKeepsRunIff(hs: Hashing, m: Machine, s: Step, r: Run)
    requires Legal(m, s) && StillGood(r, m.work) && StillGood(r, m.disk)
    ensures StillGood(r, Apply(hs, m, s).work) && StillGood(r, Apply(hs, m, s).disk) <==> StepFits(m, s, r)
  {
    var db, db' := m.work, Apply(hs, m, s).work;
    if s.RelinkHeads? {
      RelinkShape(hs, db);
      assert forall k :: k in db'.blocks <==> k in db.blocks.Keys;
    } else if s.Index? {
      forall h: nat, k: nat | Covers(r, h) && h !in db'.blocks && k in db'.blocks && h < k ensures r.top < k {
        assert h !in db.blocks;
        if k == s.h {
          assert HasPrev(db.blocks, k) && k - 1 in db.blocks;
        }
      }
    } else if s.Redo? && !StepFits(m, s, r) {
      var h: nat :| Covers(r, h) && h < m.slice.value && h !in db.blocks;
      assert h !in db'.blocks && m.slice.value in db'.blocks;
    }
  }

  /** None on an empty index, the cached run when it is for the same top and recent enough, else the
      query up to the top read before. */
  function Reply(metaStart: nat, atTop: set<nat>, atRun: set<nat>, cache: Option<Run>, recent: bool): Option<Run> {
    if atTop == {} then None
    else if cache.Some? && cache.value.top == Top(atTop) && recent then cache
    else Some(Run(RunStart(atRun, metaStart), Top(atTop)))
  }

  /** The longest run down to the start: every height from which no row is missing up to any row above
      it, and up to the top read before. */
  ghost predicate IsLongest(r: Run, metaStart: nat, top: nat, keys: set<nat>) {
    && r.top == top
    && forall h: nat :: Covers(r, h) <==> metaStart <= h <= top && forall k: nat :: k in keys && h < k ==> GapFree(keys, h, k)
  }

  lemma RunStartIff(keys: set<nat>, metaStart: nat, h: nat)
    ensures RunStart(keys, metaStart) <= h <==> metaStart <= h && forall k: nat :: k in keys && h < k ==> GapFree(keys, h, k)
  {
    var runStarts := RunStarts(keys, metaStart);
    if runStarts != {} {
      var b := Top(runStarts);
      assert StartsRun(keys, metaStart, b);
      assert h < b ==> h <= b - 1 <= b && b - 1 !in keys;
    }
    if RunStart(keys, metaStart) <= h {
      forall k, j | k in keys && h < k && h <= j <= k ensures j in keys {
        ServedDown(keys, metaStart, k, j);
      }
    }
  }

  lemma QueryIsLongest(keys: set<nat>, metaStart: nat, top: nat)
    ensures IsLongest(Run(RunStart(keys, metaStart), top), metaStart, top, keys)
  {
    var r := Run(RunStart(keys, metaStart), top);
    forall h: nat
      ensures Covers(r, h) <==> metaStart <= h <= top && forall k: nat :: k in keys && h < k ==> GapFree(keys, h, k)
    {
      RunStartIff(keys, metaStart, h);
    }
  }

  predicate FromCache(atTop: set<nat>, cache: Option<Run>, recent: bool)
    requires atTop != {}
  {
    recent && cache.Some? && cache.value.top == Top(atTop)
  }

  /** The reply is none exactly on an empty index; else the cached run when it is recent and ends at the
      top that was read; else the longest run. */
  lemma ReplyExact(metaStart: nat, atTop: set<nat>, atRun: set<nat>, cache: Option<Run>, recent: bool)
    ensures var r := Reply(metaStart, atTop, atRun, cache, recent);
            && (r.None? <==> atTop == {})
            && (r.Some? && FromCache(atTop, cache, recent) ==> r == cache)
            && (r.Some? && !FromCache(atTop, cache, recent) ==> IsLongest(r.value, metaStart, Top(atTop), atRun))
  {
    if atTop != {} {
      QueryIsLongest(atRun, metaStart, Top(atTop));
    }
  }

  /** A request that nothing interrupts and that the cache does not answer is told the longest gap-free
      run; an answer that is not recent never depends on the cache. */
  lemma AnswerIsLongestRun(db: Db, cache: Option<Run>, other: Option<Run>, recent: bool, h: nat)
    requires db.blocks.Keys != {}
    ensures var keys, r := db.blocks.Keys, Answer(db, cache, recent);
            && r.Some? && r.value.top == Top(keys)
            && (!FromCache(keys, cache, recent) ==>
                  (Covers(r.value, h) <==> db.start <= h <= Top(keys) && GapFree(keys, h, Top(keys))))
    ensures Answer(db, cache, false) == Answer(db, other, false)
  {
    ReplyExact(db.start, db.blocks.Keys, db.blocks.Keys, cache, recent);
    if !FromCache(db.blocks.Keys, cache, recent) {
      RunStartIff(db.blocks.Keys, db.start, h);
      assert Top(db.blocks.Keys) in db.blocks.Keys;
    }
  }

  // ── Indexer and server together ──────────────────────────────────────────

  /** A request that has read the start and the highest row. */
  datatype Reading = Reading(metaStart: nat, top: nat)

  /** The indexer, the shared cache, and the requests under way: those that have read the start, and
      those that have also read the highest row. */
  datatype World = World(m: Machine, cache: Option<Run>, begun: multiset<nat>, topped: multiset<Reading>)

  datatype Event =
    | Write(step: Step)
    | Begin                 // a request reads the start
    | ReadTop(start: nat)   // and then the highest row; on an empty index it is answered
    | Hit(q: Reading)       // it is answered from the cache
    | Query(q: Reading)     // or by the query, which fills the cache

  predicate Allowed(w: World, e: Event) {
    match e
    case Write(s) => Legal(w.m, s)
    case Begin => true
    case ReadTop(start) => start in w.begun
    case Hit(q) => q in w.topped && w.cache.Some? && w.cache.value.top == q.top
    case Query(q) => q in w.topped
  }

  /** What a request is answered, if the event answers one. */
  function Answered(w: World, e: Event): Option<Run>
    requires Allowed(w, e)
  {
    match e
    case Hit(q) => w.cache
    case Query(q) => Some(Run(RunStart(w.m.disk.blocks.Keys, q.metaStart), q.top))
    case _ => None
  }

  function Next(hs: Hashing, w: World, e: Event): World
    requires Allowed(w, e)
  {
    match e
    case Write(s) => w.(m := Apply(hs, w.m, s))
    case Begin => w.(begun := w.begun + multiset{w.m.disk.start})
    case ReadTop(start) =>
      var keys := w.m.disk.blocks.Keys;
      w.(begun := w.begun - multiset{start},
         topped := if keys == {} then w.topped else w.topped + multiset{Reading(start, Top(keys))})
    case Hit(q) => w.(topped := w.topped - multiset{q})
    case Query(q) => w.(topped := w.topped - multiset{q}, cache := Answered(w, e))
  }

  /** A request has read, or could have read by now, this start and this highest row. */
  ghost predicate MayRead(w: World, metaStart: nat, top: nat) {
    || Reading(metaStart, top) in w.topped
    || (w.m.disk.blocks.Keys != {} && top == Top(w.m.disk.blocks.Keys) && (metaStart in w.begun || metaStart == w.m.disk.start))
  }

  /** The runs that an answer may still name: the cached one, and what a request would be answered now. */
  ghost predicate MayServe(w: World, r: Run) {
    || w.cache == Some(r)
    || exists metaStart {:trigger MayRead(w, metaStart, r.top)} ::
         MayRead(w, metaStart, r.top) && r.start == RunStart(w.m.disk.blocks.Keys, metaStart)
  }

  /** Starts are only ever lowered, so a start once read is not below the start on disk. */
  ghost predicate Timely(w: World) {
    w.m.work.start <= w.m.disk.start
    && (forall start :: start in w.begun ==> w.m.disk.start <= start)
    && (forall q :: q in w.topped ==> w.m.disk.start <= q.metaStart)
  }

  ghost predicate CacheSound(w: World) {
    forall r {:trigger MayServe(w, r)} :: MayServe(w, r) ==> StillGood(r, w.m.work) && StillGood(r, w.m.disk)
  }

  /** A re-index write fits every run that may still be named. */
  ghost predicate EventFits(w: World, e: Event)
    requires Allowed(w, e)
  {
    e.Write? ==> forall r {:trigger MayServe(w, r)} :: MayServe(w, r) ==> StepFits(w.m, e.step, r)
  }

  lemma StartsFall(hs: Hashing, m: Machine, s: Step)
    requires Legal(m, s) && m.work.start <= m.disk.start
    ensures Apply(hs, m, s).work.start <= Apply(hs, m, s).disk.start <= m.disk.start
  {
  }

  lemma NextTimely(hs: Hashing, w: World, e: Event)
    requires Allowed(w, e) && Timely(w)
    ensures Timely(Next(hs, w, e))
  {
    if e.Write? {
      StartsFall(hs, w.m, e.step);
    }
  }

  /** What may be named after a write was already so, unless the write is a commit. */
  lemma WriteMayServe(hs: Hashing, w: World, s: Step, r: Run)
    requires Legal(w.m, s) && !s.Commit?
    ensures MayServe(Next(hs, w, Write(s)), r) <==> MayServe(w, r)
  {
    var w' := Next(hs, w, Write(s));
    assert w'.m.disk == w.m.disk;
    assert forall metaStart :: MayRead(w', metaStart, r.top) <==> MayRead(w, metaStart, r.top);
  }

  /** After a commit, either it is the cached run or the new rows make it good. */
  lemma CommitServes(hs: Hashing, w: World, r: Run)
    requires Timely(w) && MayServe(Next(hs, w, Write(Commit)), r) && w.cache != Some(r)
    ensures StillGood(r, w.m.work)
  {
    var w' := Next(hs, w, Write(Commit));
    var metaStart :| MayRead(w', metaStart, r.top) && r.start == RunStart(w'.m.disk.blocks.Keys, metaStart);
    QueryIsStillGood(w.m.work, metaStart, r.top);
  }

  lemma ReadMayServe(hs: Hashing, w: World, e: Event, r: Run)
    requires Allowed(w, e) && !e.Write? && MayServe(Next(hs, w, e), r)
    ensures MayServe(w, r)
  {
    var w' := Next(hs, w, e);
    if w.cache != Some(r) {
      if e.Query? && w'.cache == Some(r) {
        assert MayRead(w, e.q.metaStart, r.top);
      } else {
        var metaStart :| MayRead(w', metaStart, r.top) && r.start == RunStart(w'.m.disk.blocks.Keys, metaStart);
        assert MayRead(w, metaStart, r.top);
      }
    }
  }

  lemma WriteKeepsCacheSoundIff(hs: Hashing, w: World, s: Step)
    requires Legal(w.m, s) && Timely(w) && CacheSound(w)
    ensures CacheSound(Next(hs, w, Write(s))) <==> EventFits(w, Write(s))
  {
    var w' := Next(hs, w, Write(s));
    if s.Commit? {
      forall r | MayServe(w', r) ensures StillGood(r, w'.m.work) && StillGood(r, w'.m.disk) {
        if w.cache == Some(r) {
          assert MayServe(w, r);
        } else {
          CommitServes(hs, w, r);
        }
      }
    } else {
      forall r | MayServe(w, r)
        ensures MayServe(w', r) && (StillGood(r, w'.m.work) && StillGood(r, w'.m.disk) <==> StepFits(w.m, s, r))
      {
        WriteMayServe(hs, w, s, r);
        StepKeepsRunIff(hs, w.m, s, r);
      }
      forall r | MayServe(w', r) ensures MayServe(w, r) {
        WriteMayServe(hs, w, s, r);
      }
    }
  }

  /** Each event keeps every run that may be named good exactly when it fits. */
  lemma NextKeepsCacheSoundIff(hs: Hashing, w: World, e: Event)
    requires Allowed(w, e) && Timely(w) && CacheSound(w)
    ensures CacheSound(Next(hs, w, e)) <==> EventFits(w, e)
  {
    if e.Write? {
      WriteKeepsCacheSoundIff(hs, w, e.step);
    } else {
      var w' := Next(hs, w, e);
      forall r | MayServe(w', r) ensures StillGood(r, w'.m.work) && StillGood(r, w'.m.disk) {
        ReadMayServe(hs, w, e, r);
      }
    }
  }

  predicate IsHistory(hs: Hashing, w: World, events: seq<Event>)
    decreases |events|
  {
    events == [] || (Allowed(w, events[0]) && IsHistory(hs, Next(hs, w, events[0]), events[1..]))
  }

  function Replay(hs: Hashing, w: World, events: seq<Event>): World
    requires IsHistory(hs, w, events)
    decreases |events|
  {
    if events == [] then w else Replay(hs, Next(hs, w, events[0]), events[1..])
  }

  ghost predicate FittingHistory(hs: Hashing, w: World, events: seq<Event>)
    requires IsHistory(hs, w, events)
    decreases |events|
  {
    events == [] || (EventFits(w, events[0]) && FittingHistory(hs, Next(hs, w, events[0]), events[1..]))
  }

  lemma {:induction false} HistoryKeepsCacheSound(hs: Hashing, w: World, events: seq<Event>)
    requires Timely(w) && CacheSound(w) && IsHistory(hs, w, events) && FittingHistory(hs, w, events)
    ensures Timely(Replay(hs, w, events)) && CacheSound(Replay(hs, w, events))
    decreases |events|
  {
    if events != [] {
      NextTimely(hs, w, events[0]);
      NextKeepsCacheSoundIff(hs, w, events[0]);
      HistoryKeepsCacheSound(hs, Next(hs, w, events[0]), events[1..]);
    }
  }

  /** The world before the k-th event. */
  function Before(hs: Hashing, w: World, events: seq<Event>, k: nat): World
    requires IsHistory(hs, w, events) && k <= |events|
    decreases k
  {
    if k == 0 then w else Before(hs, Next(hs, w, events[0]), events[1..], k - 1)
  }

  lemma {:induction false} BeforeAllowed(hs: Hashing, w: World, events: seq<Event>, k: nat)
    requires IsHistory(hs, w, events) && k < |events|
    ensures Allowed(Before(hs, w, events, k), events[k])
    decreases k
  {
    if k > 0 {
      BeforeAllowed(hs, Next(hs, w, events[0]), events[1..], k - 1);
    }
  }

  predicate NoQuery(events: seq<Event>) {
    forall k :: 0 <= k < |events| ==> !events[k].Query?
  }

  lemma {:induction false} NoQueryKeepsCache(hs: Hashing, w: World, events: seq<Event>)
    requires IsHistory(hs, w, events) && NoQuery(events)
    ensures Replay(hs, w, events).cache == w.cache
    decreases |events|
  {
    if events != [] {
      NoQueryKeepsCache(hs, Next(hs, w, events[0]), events[1..]);
    }
  }

  /** The j-th event is the last query. */
  predicate LastQuery(events: seq<Event>, j: nat) {
    j < |events| && events[j].Query? && NoQuery(events[j + 1..])
  }

  lemma {:induction false} LastQueryExists(events: seq<Event>) returns (j: nat)
    requires !NoQuery(events)
    ensures LastQuery(events, j)
    decreases |events|
  {
    if NoQuery(events[1..]) {
      j := 0;
    } else {
      j := LastQueryExists(events[1..]);
      j := j + 1;
      assert events[j + 1..] == events[1..][j..];
    }
  }

  /** The cache holds what the last query answered. */
  lemma {:induction false} CacheIsLastQuery(hs: Hashing, w: World, events: seq<Event>, j: nat)
    requires IsHistory(hs, w, events) && LastQuery(events, j)
    ensures var b := Before(hs, w, events, j);
            Allowed(b, events[j]) && Replay(hs, w, events).cache == Answered(b, events[j])
    decreases |events|
  {
    var w1, rest := Next(hs, w, events[0]), events[1..];
    if j == 0 {
      NoQueryKeepsCache(hs, w1, rest);
    } else {
      assert events[j + 1..] == rest[j..];
      CacheIsLastQuery(hs, w1, rest, j - 1);
    }
  }

  /** So every answer from the cache was the longest run when it was last queried: of the rows then on
      disk, down to the start and up to the top that request had read. */
  lemma HitIsAnEarlierLongest(hs: Hashing, start: nat, version: nat, events: seq<Event>, q: Reading) returns (j: nat)
    requires IsHistory(hs, FreshWorld(start, version), events) && Allowed(Replay(hs, FreshWorld(start, version), events), Hit(q))
    ensures LastQuery(events, j)
    ensures var w := FreshWorld(start, version);
            IsLongest(Answered(Replay(hs, w, events), Hit(q)).value, events[j].q.metaStart, q.top, Before(hs, w, events, j).m.disk.blocks.Keys)
  {
    var w := FreshWorld(start, version);
    if NoQuery(events) {
      NoQueryKeepsCache(hs, w, events);
    }
    j := LastQueryExists(events);
    CacheIsLastQuery(hs, w, events, j);
    QueryIsLongest(Before(hs, w, events, j).m.disk.blocks.Keys, events[j].q.metaStart, q.top);
  }

  /** A new index, an empty cache and no request. */
  function FreshWorld(start: nat, version: nat): World {
    World(Fresh(start, version), None, multiset{}, multiset{})
  }

  lemma AnsweredIff(w: World, e: Event)
    requires CacheSound(w) && Allowed(w, e) && (e.Hit? || e.Query?)
    ensures var keys, r := w.m.disk.blocks.Keys, Answered(w, e).value;
            r.top == e.q.top && (GapFree(keys, r.start, r.top) <==> r.top in keys || r.start > r.top)
  {
    var r := Answered(w, e).value;
    if e.Query? {
      assert MayRead(w, e.q.metaStart, r.top);
    }
    assert MayServe(w, r);
    assert r.start <= r.top && GapFree(w.m.disk.blocks.Keys, r.start, r.top) ==> r.top in w.m.disk.blocks.Keys;
  }

  /** In every history of overlapping requests and indexer writes (reorgs, crashes, lowered starts,
      unsafe boots and passes included) whose re-index writes fit: an answer, cached or not, names no
      height that is missing when it is given exactly when the highest row it read is still there, or
      it names no height at all. */
  lemma EveryAnswerGapFreeIff(hs: Hashing, start: nat, version: nat, events: seq<Event>, e: Event)
    requires IsHistory(hs, FreshWorld(start, version), events) && FittingHistory(hs, FreshWorld(start, version), events)
    requires Allowed(Replay(hs, FreshWorld(start, version), events), e) && (e.Hit? || e.Query?)
    ensures var w := Replay(hs, FreshWorld(start, version), events);
            var keys, r := w.m.disk.blocks.Keys, Answered(w, e).value;
            r.top == e.q.top && (GapFree(keys, r.start, r.top) <==> r.top in keys || r.start > r.top)
  {
    HistoryKeepsCacheSound(hs, FreshWorld(start, version), events);
    AnsweredIff(Replay(hs, FreshWorld(start, version), events), e);
  }

  /** The answer of a request that nothing interrupts. */
  function Answer(db: Db, cache: Option<Run>, recent: bool): Option<Run> {
    Reply(db.start, db.blocks.Keys, db.blocks.Keys, cache, recent)
  }

  /** An answer names only heights that have rows, and ends at the highest. */
  ghost predicate GoodAnswer(w: World, recent: bool) {
    var keys, a := w.m.disk.blocks.Keys, Answer(w.m.disk, w.cache, recent);
    && (a.None? <==> keys == {})
    && (a.Some? ==> a.value.top == Top(keys) && GapFree(keys, a.value.start, a.value.top))
  }

  /** So every answer to a request with no commit during it ends at the highest row and names no
      missing height. */
  lemma EveryAnswerGapFree(hs: Hashing, start: nat, version: nat, events: seq<Event>, recent: bool)
    requires IsHistory(hs, FreshWorld(start, version), events) && FittingHistory(hs, FreshWorld(start, version), events)
    ensures GoodAnswer(Replay(hs, FreshWorld(start, version), events), recent)
  {
    HistoryKeepsCacheSound(hs, FreshWorld(start, version), events);
    var w := Replay(hs, FreshWorld(start, version), events);
    var a := Answer(w.m.disk, w.cache, recent);
    if a.Some? {
      assert MayRead(w, w.m.disk.start, a.value.top);
      assert MayServe(w, a.value);
      StillGoodIsGapFree(a.value, w.m.disk);
    }
  }

  // ── A reorg during a request ─────────────────────────────────────────────

  lemma HistoryThen(hs: Hashing, w: World, e: Event, rest: seq<Event>)
    requires Allowed(w, e) && IsHistory(hs, Next(hs, w, e), rest)
    ensures IsHistory(hs, w, [e] + rest) && Replay(hs, w, [e] + rest) == Replay(hs, Next(hs, w, e), rest)
  {
    assert ([e] + rest)[1..] == rest;
  }

  /** From every world with rows: a reorg committed between a request's two reads of the rows leaves it
      with an answer that ends at a deleted row. */
  lemma ReorgDuringRequestMisleads(hs: Hashing, w: World) returns (events: seq<Event>, q: Reading)
    requires w.m.slice.None? && w.m.disk.blocks.Keys != {} && w.m.work.start <= Top(w.m.disk.blocks.Keys)
    ensures IsHistory(hs, w, events)
    ensures var w' := Replay(hs, w, events);
            q in w'.topped && Answered(w', Query(q)).value.top !in w'.m.disk.blocks.Keys
  {
    var s, top := w.m.disk.start, Top(w.m.disk.blocks.Keys);
    q := Reading(s, top);
    var w1 := Next(hs, w, Begin);
    var w2 := Next(hs, w1, ReadTop(s));
    var w3 := Next(hs, w2, Write(Delete(top)));
    var w4 := Next(hs, w3, Write(Commit));
    assert top !in w4.m.disk.blocks;
    HistoryThen(hs, w3, Write(Commit), []);
    HistoryThen(hs, w2, Write(Delete(top)), [Write(Commit)]);
    HistoryThen(hs, w1, ReadTop(s), [Write(Delete(top))] + [Write(Commit)]);
    HistoryThen(hs, w, Begin, [ReadTop(s)] + ([Write(Delete(top))] + [Write(Commit)]));
    events := [Begin] + ([ReadTop(s)] + ([Write(Delete(top))] + [Write(Commit)]));
  }

  // ── A write that does not fit ────────────────────────────────────────────

  function Writes(steps: seq<Step>): seq<Event> {
    seq(|steps|, i requires 0 <= i < |steps| => Write(steps[i]))
  }

  lemma {:induction false} RunIsHistory(hs: Hashing, w: World, steps: seq<Step>)
    requires IsRun(hs, w.m, steps)
    ensures IsHistory(hs, w, Writes(steps)) && Replay(hs, w, Writes(steps)) == w.(m := Exec(hs, w.m, steps))
    decreases |steps|
  {
    if steps != [] {
      assert Writes(steps)[1..] == Writes(steps[1..]);
      RunIsHistory(hs, Next(hs, w, Write(steps[0])), steps[1..]);
    }
  }

  /** The walk climbs from the row at `c` to `k`; what is below stays. */
  lemma ClimbTo(hs: Hashing, m: Machine, c: nat, k: nat) returns (n: Machine)
    requires m.slice.None? && c in m.work.blocks && m.work.start <= c <= k
    ensures Leads(hs, m, n, false) && n == m.(work := m.work.(blocks := n.work.blocks))
    ensures k in n.work.blocks
    ensures forall h :: h < c || h > k ==> (h in n.work.blocks <==> h in m.work.blocks)
    decreases k
  {
    if k == c {
      n := m;
      LeadsNowhere(hs, m, false);
    } else {
      var f := ClimbTo(hs, m, c, k - 1);
      if k in f.work.blocks {
        n := f;
      } else {
        assert HasPrev(f.work.blocks, k);
        LeadsByStep(hs, f, Index(k, "0"));
        n := Apply(hs, f, Index(k, "0"));
        LeadsOn(hs, m, f, n, false, false);
      }
    }
  }

  /** From a row of the run above a missing height, the indexer can commit a database whose highest
      row is the run's top and which still misses that height. */
  lemma SameTopAgain(hs: Hashing, m: Machine, r: Run, h: nat, c: nat) returns (steps: seq<Step>)
    requires m.work.start <= r.start && Covers(r, h) && h !in m.work.blocks && h < c <= r.top && c in m.work.blocks
    ensures IsRun(hs, m, steps)
    ensures var db := Exec(hs, m, steps).disk;
            h !in db.blocks && db.blocks.Keys != {} && Top(db.blocks.Keys) == r.top
  {
    var a := Apply(hs, m, Abort);
    LeadsByStep(hs, m, Abort);
    var b := Apply(hs, a, Delete(r.top + 1));
    LeadsByStep(hs, a, Delete(r.top + 1));
    LeadsOn(hs, m, a, b, false, false);
    var d := ClimbTo(hs, b, c, r.top);
    LeadsOn(hs, m, b, d, false, false);
    var e := Apply(hs, d, Commit);
    LeadsByStep(hs, d, Commit);
    LeadsOn(hs, m, d, e, false, false);
    steps :| IsRun(hs, m, steps) && Exec(hs, m, steps) == e;
    assert r.top in e.disk.blocks.Keys && forall k :: k in e.disk.blocks.Keys ==> k <= r.top;
  }

  /** With that run in the cache, a fresh enough cached answer then names the missing height. */
  lemma CachedMisleads(hs: Hashing, w: World, r: Run, h: nat, c: nat) returns (events: seq<Event>)
    requires w.cache == Some(r) && w.m.work.start <= r.start
    requires Covers(r, h) && h !in w.m.work.blocks && h < c <= r.top && c in w.m.work.blocks
    ensures IsHistory(hs, w, events) && !GoodAnswer(Replay(hs, w, events), true)
  {
    var steps := SameTopAgain(hs, w.m, r, h, c);
    RunIsHistory(hs, w, steps);
    events := Writes(steps);
    var w' := Replay(hs, w, events);
    assert h !in w'.m.disk.blocks.Keys && Answer(w'.m.disk, w'.cache, true) == Some(r);
  }

  ghost predicate Serves(hs: Hashing, w: World, events: seq<Event>, r: Run) {
    IsHistory(hs, w, events) && Replay(hs, w, events).m == w.m && Replay(hs, w, events).cache == Some(r)
  }

  lemma ServeTopped(hs: Hashing, w: World, q: Reading) returns (events: seq<Event>)
    requires q in w.topped
    ensures Serves(hs, w, events, Run(RunStart(w.m.disk.blocks.Keys, q.metaStart), q.top))
  {
    HistoryThen(hs, w, Query(q), []);
    events := [Query(q)] + [];
  }

  lemma ServeBegun(hs: Hashing, w: World, start: nat) returns (events: seq<Event>)
    requires start in w.begun && w.m.disk.blocks.Keys != {}
    ensures Serves(hs, w, events, ServedNow(w.m.disk.blocks.Keys, start))
  {
    var w1 := Next(hs, w, ReadTop(start));
    var rest := ServeTopped(hs, w1, Reading(start, Top(w.m.disk.blocks.Keys)));
    HistoryThen(hs, w, ReadTop(start), rest);
    events := [ReadTop(start)] + rest;
  }

  /** What a request would be answered now can be brought into the cache. */
  lemma ServeNow(hs: Hashing, w: World, metaStart: nat, top: nat) returns (events: seq<Event>)
    requires MayRead(w, metaStart, top)
    ensures Serves(hs, w, events, Run(RunStart(w.m.disk.blocks.Keys, metaStart), top))
  {
    if Reading(metaStart, top) in w.topped {
      events := ServeTopped(hs, w, Reading(metaStart, top));
    } else if metaStart in w.begun {
      events := ServeBegun(hs, w, metaStart);
    } else {
      var rest := ServeBegun(hs, Next(hs, w, Begin), metaStart);
      HistoryThen(hs, w, Begin, rest);
      events := [Begin] + rest;
    }
  }

  lemma {:induction false} HistoriesCompose(hs: Hashing, w: World, a: seq<Event>, b: seq<Event>)
    requires IsHistory(hs, w, a) && IsHistory(hs, Replay(hs, w, a), b)
    ensures IsHistory(hs, w, a + b) && Replay(hs, w, a + b) == Replay(hs, Replay(hs, w, a), b)
    decreases |a|
  {
    if a == [] {
      assert a + b == b;
    } else {
      HistoriesCompose(hs, Next(hs, w, a[0]), a[1..], b);
      assert (a + b)[1..] == a[1..] + b;
    }
  }

  /** Nothing weaker would do: after a re-index write that does not fit, some continuation ends with a
      cached answer, given with no commit during the request, that names a missing height. */
  lemma MisfitMisleads(hs: Hashing, w: World, hash: string) returns (events: seq<Event>)
    requires CacheSound(w) && Allowed(w, Write(Redo(hash))) && !EventFits(w, Write(Redo(hash)))
    ensures IsHistory(hs, Next(hs, w, Write(Redo(hash))), events)
    ensures !GoodAnswer(Replay(hs, Next(hs, w, Write(Redo(hash))), events), true)
  {
    var w1 := Next(hs, w, Write(Redo(hash)));
    var c := w.m.slice.value;
    var r :| MayServe(w, r) && !StepFits(w.m, Redo(hash), r);
    assert !Fits(r, w.m.work, c);
    var h: nat :| Covers(r, h) && h < c && h !in w.m.work.blocks;
    if w.cache == Some(r) {
      events := CachedMisleads(hs, w1, r, h, c);
    } else {
      WriteMayServe(hs, w, Redo(hash), r);
      var metaStart :| MayRead(w1, metaStart, r.top) && r.start == RunStart(w1.m.disk.blocks.Keys, metaStart);
      var first := ServeNow(hs, w1, metaStart, r.top);
      var rest := CachedMisleads(hs, Replay(hs, w1, first), r, h, c);
      HistoriesCompose(hs, w1, first, rest);
      events := first + rest;
    }
  }

  // ── What shrinks the range ───────────────────────────────────────────────

  ghost predicate Advertised(db: Db, h: nat) {
    db.blocks.Keys != {} && Covers(ServedNow(db.blocks.Keys, db.start), h)
  }

  lemma AdvertisedIff(db: Db, h: nat)
    ensures Advertised(db, h) <==>
            db.blocks.Keys != {} && db.start <= h <= Top(db.blocks.Keys) && GapFree(db.blocks.Keys, h, Top(db.blocks.Keys))
  {
    if db.blocks.Keys != {} {
      ServedIsLongestRun(db.blocks.Keys, db.start, h);
    }
  }

  /** A re-index write more than one above the highest row. */
  predicate Jumps(m: Machine, s: Step)
    requires Legal(m, s)
  {
    s.Redo? && m.work.blocks.Keys != {} && m.slice.value > Top(m.work.blocks.Keys) + 1
  }

  lemma AddRowKeepsRange(db: Db, db': Db, c: nat, h: nat)
    requires db'.blocks.Keys == db.blocks.Keys + {c} && db'.start == db.start && Advertised(db, h)
    requires c <= Top(db.blocks.Keys) + 1
    ensures Advertised(db', h)
  {
    AdvertisedIff(db, h);
    AdvertisedIff(db', h);
    var top, top' := Top(db.blocks.Keys), Top(db'.blocks.Keys);
    assert top in db'.blocks.Keys && top' in db'.blocks.Keys;
    forall k | h <= k <= top' ensures k in db'.blocks.Keys {
      assert k <= top ==> k in db.blocks.Keys;
    }
  }

  /** A write that is no reorg's delete and no jump keeps every advertised height. */
  lemma StepKeepsRange(hs: Hashing, m: Machine, s: Step, h: nat)
    requires Legal(m, s) && !s.Delete? && !s.Crash? && !Jumps(m, s)
    requires (forall k :: k in m.work.blocks ==> m.work.start <= k) && Advertised(m.work, h)
    ensures Advertised(Apply(hs, m, s).work, h)
  {
    var db, db' := m.work, Apply(hs, m, s).work;
    AdvertisedIff(db, h);
    match s
    case Index(c, _) =>
      assert c <= Top(db.blocks.Keys) + 1 by {
        assert Top(db.blocks.Keys) in db.blocks;
        assert c == db.start || c - 1 in db.blocks.Keys;
      }
      AddRowKeepsRange(db, db', c, h);
    case Redo(_) => AddRowKeepsRange(db, db', m.slice.value, h);
    case RelinkHeads(_) => RelinkShape(hs, db);
    case _ => AdvertisedIff(db', h);
  }

  /** A jump does shrink it: the highest height before is no longer advertised. */
  lemma JumpShrinks(hs: Hashing, m: Machine, s: Step)
    requires Legal(m, s) && Jumps(m, s) && m.work.start <= Top(m.work.blocks.Keys)
    ensures var h := Top(m.work.blocks.Keys);
            Advertised(m.work, h) && !Advertised(Apply(hs, m, s).work, h)
  {
    var h := Top(m.work.blocks.Keys);
    var db' := Apply(hs, m, s).work;
    AdvertisedIff(m.work, h);
    AdvertisedIff(db', h);
    assert m.slice.value in db'.blocks.Keys && h + 1 !in db'.blocks.Keys;
  }

  /** The bounds every run keeps, safe or not. */
  predicate Framed(m: Machine) {
    && Ordered(m.work) && Ordered(m.disk)
    && (m.slice.Some? ==> m.work.reindex.Some? && m.work.reindex.value.cursor <= m.slice.value)
  }

  lemma StepKeepsFramed(hs: Hashing, m: Machine, s: Step)
    requires Framed(m) && Legal(m, s)
    ensures Framed(Apply(hs, m, s))
  {
    if s.RelinkHeads? {
      RelinkShape(hs, m.work);
    } else if s.ArmReindex? {
      assert Top(m.work.blocks.Keys) in m.work.blocks;
    }
  }

  predicate NoReorg(hs: Hashing, m: Machine, steps: seq<Step>)
    requires IsRun(hs, m, steps)
    decreases |steps|
  {
    steps == [] || (!steps[0].Delete? && !Jumps(m, steps[0]) && NoReorg(hs, Apply(hs, m, steps[0]), steps[1..]))
  }

  lemma {:induction false} CommitsKeepRange(hs: Hashing, m: Machine, steps: seq<Step>, h: nat)
    requires Framed(m) && IsRun(hs, m, steps) && NoReorg(hs, m, steps) && Advertised(m.work, h) && Advertised(m.disk, h)
    ensures Advertised(Exec(hs, m, steps).disk, h)
    decreases |steps|
  {
    if steps != [] {
      var s := steps[0];
      StepKeepsFramed(hs, m, s);
      if !s.Crash? {
        StepKeepsRange(hs, m, s, h);
      }
      CommitsKeepRange(hs, Apply(hs, m, s), steps[1..], h);
    }
  }

  /** Between two committed databases with no reorg's delete and no jump between them, whatever else
      happens, crashes and new boots included, what the server advertised it still advertises. */
  lemma OnlyReorgShrinks(hs: Hashing, m: Machine, steps: seq<Step>, h: nat)
    requires Framed(m) && m.disk == m.work && IsRun(hs, m, steps) && NoReorg(hs, m, steps)
    requires Advertised(m.disk, h)
    ensures Advertised(Exec(hs, m, steps).disk, h)
  {
    CommitsKeepRange(hs, m, steps, h);
  }

  // ── The server ───────────────────────────────────────────────────────────

  class Server {
    var cache: Option<Run>

    constructor ()
      ensures cache.None?
    {
      cache := None;
    }

    /** _sp_served_run: the highest row and the start of the run are read by two statements, each on
        what is committed by then; `recent` is whether the cached answer is younger than 30 seconds. */
    method Served(metaStart: nat, atTop: set<nat>, atRun: set<nat>, recent: bool) returns (answer: Option<Run>)
      modifies this
      ensures answer == Reply(metaStart, atTop, atRun, old(cache), recent)
      ensures answer.None? <==> atTop == {}
      ensures answer.Some? && !FromCache(atTop, old(cache), recent) ==> IsLongest(answer.value, metaStart, Top(atTop), atRun)
      ensures cache == if answer.None? then old(cache) else answer
    {
      ReplyExact(metaStart, atTop, atRun, cache, recent);
      if atTop == {} {
        return None;
      }
      var top := Top(atTop);
      if cache.Some? && cache.value.top == top && recent {
        return cache;
      }
      var runStarts := RunStarts(atRun, metaStart);
      var start := if runStarts == {} then metaStart else Top(runStarts);
      cache := Some(Run(start, top));
      return cache;
    }
  }
}
