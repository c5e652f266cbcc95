/**
 What a finished pass of the indexer has done (ops/lij-sp-index.py, run): which rows the reorg check
 takes away, which heights are left missing, how far the re-index has moved; and what a whole re-index
 leaves, which depends on the node's chain and the running parser alone.
 */
module TweakFills {
  import opened Prelude
  import opened TweakIndex
  import opened TweakPass

  // ── The reorg check ──────────────────────────────────────────────────────

  /** The row at `k`, if there is one, has the hash that the node names. */
  predicate Matches(db: Db, node: Node, k: nat) {
    k in db.blocks ==> node.check(k) == Some(db.blocks[k].hash)
  }

  lemma {:induction false} CheckFromExact(db: Db, node: Node, h: nat, top: nat) returns (x: nat)
    requires h <= top + 1
    ensures h <= x <= top + 1 && forall k :: h <= k < x ==> Matches(db, node, k)
    ensures x <= top ==> x in db.blocks && !Matches(db, node, x)
    ensures CheckFrom(db, node, h, top) ==
            if x > top then Outcome(db, true) else if node.check(x).None? then Outcome(db, false) else Outcome(DeleteFrom(db, x), true)
    decreases top + 1 - h
  {
    if h > top || !Matches(db, node, h) {
      x := h;
    } else {
      x := CheckFromExact(db, node, h + 1, top);
    }
  }

  /** The check looks at the six highest heights, lowest first, not below the start. At the first row
      that does not match it deletes from there up, or stops if the node did not answer; with none it
      changes nothing. */
  lemma ReorgCheckExact(db: Db, node: Node) returns (x: nat)
    requires db.blocks != map[] && forall h :: h in db.blocks ==> db.start <= h
    ensures var top := Top(db.blocks.Keys);
            && x <= top + 1 && (x <= top ==> x in db.blocks && x + 5 >= top && !Matches(db, node, x))
            && (forall k :: k < x && db.start <= k && k + 5 >= top ==> Matches(db, node, k))
            && ReorgCheck(db, node) ==
               if x > top then Outcome(db, true) else if node.check(x).None? then Outcome(db, false) else Outcome(DeleteFrom(db, x), true)
  {
    var top := Top(db.blocks.Keys);
    assert top in db.blocks;
    x := CheckFromExact(db, node, CheckStart(db.start, top), top);
  }

  // ── The walk ─────────────────────────────────────────────────────────────

  lemma {:induction false} SameAscending(a: seq<nat>, b: seq<nat>)
    requires Ascending(a) && Ascending(b) && forall x :: x in a <==> x in b
    ensures a == b
    decreases |a|
  {
    if a == [] {
      if b != [] {
        HasMember(b);
      }
    } else {
      assert a[0] in b && b != [] && b[0] in a;
      var i :| 0 <= i < |b| && b[i] == a[0];
      var j :| 0 <= j < |a| && a[j] == b[0];
      assert a[0] == b[0];
      forall x ensures x in a[1..] <==> x in b[1..] {
        TailMembers(a, x);
        TailMembers(b, x);
      }
      SameAscending(a[1..], b[1..]);
      assert a == [a[0]] + a[1..] && b == [b[0]] + b[1..];
    }
  }

  lemma HasMember(s: seq<nat>)
    requires s != []
    ensures exists x :: x in s
  {
    assert s[0] in s;
  }

  lemma TailMembers(s: seq<nat>, x: nat)
    requires s != [] && Ascending(s)
    ensures x in s[1..] <==> x in s && x != s[0]
  {
    if x in s[1..] {
      var i :| 0 <= i < |s[1..]| && s[1..][i] == x;
      assert s[i + 1] == x;
    }
  }

  /** How many heights of the gap one pass fills. */
  function GapSlice(db: Db, tip: nat, batch: nat): nat {
    if |Below(db, tip)| <= 4 * batch then |Below(db, tip)| else 4 * batch
  }

  lemma SplitMembers(s: seq<nat>, k: nat, x: nat)
    requires Ascending(s) && k <= |s|
    ensures x in s[k..] <==> x in s && x !in s[..k]
  {
    assert s == s[..k] + s[k..];
    if x in s[k..] {
      var i :| 0 <= i < |s[k..]| && s[k..][i] == x;
      assert s[k + i] == x;
      assert forall j :: 0 <= j < k ==> s[..k][j] == s[j] < s[k + i];
    }
  }

  lemma TodoMembers(db: Db, tip: nat, batch: nat, h: nat)
    ensures var below, k := Below(db, tip), GapSlice(db, tip, batch);
            h in Todo(db, tip, batch) <==> h in Ahead(db, tip) || h in below[..k]
  {
    var below, k := Below(db, tip), GapSlice(db, tip, batch);
    assert Todo(db, tip, batch) == Ahead(db, tip) + below[..k];
  }

  lemma MissingSplits(db: Db, tip: nat, h: nat)
    ensures db.start <= h <= tip && h !in db.blocks <==> h in Ahead(db, tip) || h in Below(db, tip)
  {
    var n := NextHeight(db, tip);
    MissingExact(db.blocks, n, tip + 1);
    MissingExact(db.blocks, db.start, n);
    assert db.start <= n && (n == db.start || n <= tip + 1);
  }

  lemma LeftIff(hs: Hashing, db: Db, node: Node, batch: nat, version: nat, h: nat)
    requires Walk(hs, db, Todo(db, node.tip, batch), node, version).ok
    ensures var w := Walk(hs, db, Todo(db, node.tip, batch), node, version).db;
            db.start <= h <= node.tip && h !in w.blocks <==> h in Below(db, node.tip)[GapSlice(db, node.tip, batch)..]
  {
    var tip := node.tip;
    WalkAdds(hs, db, Todo(db, tip, batch), node, version);
    MissingAscends(db.blocks, db.start, NextHeight(db, tip));
    AheadNotBelow(db, tip);
    TodoMembers(db, tip, batch, h);
    MissingSplits(db, tip, h);
    SplitMembers(Below(db, tip), GapSlice(db, tip, batch), h);
  }

  /** A finished walk has filled every height above the highest row and the lowest of the gap below it,
      four batches at most: exactly the rest of the gap is still missing. */
  lemma WalkFills(hs: Hashing, db: Db, node: Node, batch: nat, version: nat)
    requires Walk(hs, db, Todo(db, node.tip, batch), node, version).ok
    ensures var w := Walk(hs, db, Todo(db, node.tip, batch), node, version).db;
            Missing(w.blocks, db.start, node.tip + 1) == Below(db, node.tip)[GapSlice(db, node.tip, batch)..]
  {
    var w := Walk(hs, db, Todo(db, node.tip, batch), node, version).db;
    var left, rest := Missing(w.blocks, db.start, node.tip + 1), Below(db, node.tip)[GapSlice(db, node.tip, batch)..];
    MissingExact(w.blocks, db.start, node.tip + 1);
    MissingAscends(w.blocks, db.start, node.tip + 1);
    MissingAscends(db.blocks, db.start, NextHeight(db, node.tip));
    forall h: nat ensures h in left <==> h in rest {
      LeftIff(hs, db, node, batch, version, h);
    }
    SameAscending(left, rest);
  }

  // ── After the walk ───────────────────────────────────────────────────────

  /** Where the re-index stands after a pass that had found `ahead` and finished: untouched while there
      were new blocks, else four batches further, or done and stamped. */
  ghost predicate ReindexMoved(before: Db, after: Db, ahead: bool, batch: nat, version: nat) {
    if before.reindex.None? || ahead then after.reindex == before.reindex && after.stamp == before.stamp
    else
      var w := before.reindex.value;
      if w.cursor + 4 * batch <= w.to then after.reindex == Some(Window(w.cursor + 4 * batch, w.to)) && after.stamp == before.stamp
      else after.reindex.None? && after.stamp == Some(version)
  }

  lemma SliceMoves(hs: Hashing, db: Db, node: Node, batch: nat, version: nat)
    requires batch >= 1 && db.reindex.Some? && ReindexSlice(hs, db, node, batch, version).ok
    ensures var r := ReindexSlice(hs, db, node, batch, version).db;
            ReindexMoved(db, r, false, batch, version) && r.start == db.start && forall h :: h in db.blocks ==> h in r.blocks
  {
    var w := db.reindex.value;
    RedoAdds(hs, db, w.cursor, SliceEnd(w, batch), node, version);
  }

  lemma AfterWalkMoves(hs: Hashing, db: Db, ahead: bool, gapLeft: bool, node: Node, batch: nat, version: nat)
    requires batch >= 1 && AfterWalk(hs, db, ahead, gapLeft, node, batch, version).ok
    ensures var r := AfterWalk(hs, db, ahead, gapLeft, node, batch, version).db;
            && ReindexMoved(db, r, ahead, batch, version) && r.start == db.start
            && (forall h :: h in db.blocks ==> h in r.blocks)
            && (db.reindex.None? || ahead ==> r.blocks.Keys == db.blocks.Keys)
            && (!gapLeft ==> r.rechainFrom.None?)
            && (gapLeft && (db.reindex.None? || ahead) ==> r == db)
  {
    var r := if db.reindex.Some? && !ahead then ReindexSlice(hs, db, node, batch, version) else Outcome(db, true);
    if db.reindex.Some? && !ahead {
      SliceMoves(hs, db, node, batch, version);
    }
    if r.db.rechainFrom.Some? && !gapLeft {
      RelinkShape(hs, r.db);
    }
  }

  /** What is left of the gap below the highest row after one pass. */
  function GapLeft(db: Db, tip: nat, batch: nat): seq<nat> {
    Below(db, tip)[GapSlice(db, tip, batch)..]
  }

  lemma AfterWalkLeaves(hs: Hashing, c: Db, node: Node, batch: nat, version: nat, h: nat)
    requires batch >= 1 && Walk(hs, c, Todo(c, node.tip, batch), node, version).ok
    requires var w := Walk(hs, c, Todo(c, node.tip, batch), node, version).db;
             AfterWalk(hs, w, Ahead(c, node.tip) != [], |Below(c, node.tip)| > 4 * batch, node, batch, version).ok
    ensures var w, ahead := Walk(hs, c, Todo(c, node.tip, batch), node, version).db, Ahead(c, node.tip) != [];
            var r := AfterWalk(hs, w, ahead, |Below(c, node.tip)| > 4 * batch, node, batch, version).db;
            && (c.start <= h <= node.tip && h !in r.blocks ==> h in GapLeft(c, node.tip, batch))
            && (c.reindex.None? || ahead ==> (h in GapLeft(c, node.tip, batch) ==> c.start <= h <= node.tip && h !in r.blocks))
  {
    var w, ahead := Walk(hs, c, Todo(c, node.tip, batch), node, version).db, Ahead(c, node.tip) != [];
    LeftIff(hs, c, node, batch, version, h);
    WalkAdds(hs, c, Todo(c, node.tip, batch), node, version);
    AfterWalkMoves(hs, w, ahead, |Below(c, node.tip)| > 4 * batch, node, batch, version);
    assert h in w.blocks <==> h in w.blocks.Keys;
  }

  /** A pass that finishes, whatever the node answered: of the heights up to the tip it leaves missing
      at most the gap that was below the highest row, less its lowest four batches, and exactly that
      when no slice was re-indexed. */
  lemma PassFills(hs: Hashing, db: Db, node: Node, batch: nat, version: nat, h: nat)
    requires batch >= 1 && Pass(hs, db, node, batch, version).ok
    ensures var c, r := ReorgCheck(db, node).db, Pass(hs, db, node, batch, version).db;
            && (db.start <= h <= node.tip && h !in r.blocks ==> h in GapLeft(c, node.tip, batch))
            && (db.reindex.None? || Ahead(c, node.tip) != [] ==>
                  (h in GapLeft(c, node.tip, batch) ==> db.start <= h <= node.tip && h !in r.blocks))
  {
    CheckKeepsMeta(db, node);
    AfterWalkLeaves(hs, ReorgCheck(db, node).db, node, batch, version, h);
  }

  /** It moves the re-index by four batches, or waits while there are new blocks; and the marker is gone
      exactly then when no gap is left, unless there was none. */
  lemma PassMoves(hs: Hashing, db: Db, node: Node, batch: nat, version: nat)
    requires batch >= 1 && Pass(hs, db, node, batch, version).ok
    ensures var c, r := ReorgCheck(db, node).db, Pass(hs, db, node, batch, version).db;
            var ahead := Ahead(c, node.tip) != [];
            && r.start == db.start && ReindexMoved(db, r, ahead, batch, version)
            && (GapLeft(c, node.tip, batch) == [] ==> r.rechainFrom.None?)
            && (GapLeft(c, node.tip, batch) != [] && (db.reindex.None? || ahead) ==> r.rechainFrom == db.rechainFrom)
  {
    var c := ReorgCheck(db, node).db;
    var w := Walk(hs, c, Todo(c, node.tip, batch), node, version).db;
    CheckKeepsMeta(db, node);
    WalkAdds(hs, c, Todo(c, node.tip, batch), node, version);
    AfterWalkMoves(hs, w, Ahead(c, node.tip) != [], |Below(c, node.tip)| > 4 * batch, node, batch, version);
  }

  lemma CheckKeepsMeta(db: Db, node: Node)
    ensures var c := ReorgCheck(db, node).db;
            c == db.(blocks := c.blocks)
  {
    if db.blocks != map[] {
      var top := Top(db.blocks.Keys);
      CheckFromShape(db, node, CheckStart(db.start, top), top);
    }
  }

  // ── A whole re-index ─────────────────────────────────────────────────────

  /** Every row that the re-index is not still to rewrite carries the chain's hash. */
  predicate Renewed(db: Db, chain: nat -> string) {
    forall h :: h in db.blocks && !(db.reindex.Some? && db.reindex.value.cursor <= h <= db.reindex.value.to) ==>
      db.blocks[h].hash == chain(h)
  }

  lemma ExtendsRenewed(from: Db, to: Db, chain: nat -> string)
    requires Renewed(from, chain) && Extends(from, to, chain) && to.reindex == from.reindex
    ensures Renewed(to, chain)
  {
  }

  lemma {:induction false} RedoHashes(hs: Hashing, db: Db, h: nat, last: nat, chain: nat -> string, tip: nat, version: nat)
    requires last <= tip
    ensures var r := RedoRows(hs, db, h, last, Steady(chain, tip), version).db;
            && (forall k :: h <= k <= last ==> k in r.blocks && r.blocks[k].hash == chain(k))
            && (forall k :: k in db.blocks && k < h ==> k in r.blocks && r.blocks[k] == db.blocks[k])
    decreases last + 1 - h
  {
    if h <= last {
      RedoHashes(hs, IndexBlock(hs, db, h, chain(h), version), h + 1, last, chain, tip, version);
    }
  }

  lemma SliceRenews(hs: Hashing, db: Db, chain: nat -> string, tip: nat, batch: nat, version: nat)
    requires batch >= 1 && db.reindex.Some? && db.reindex.value.cursor <= db.reindex.value.to <= tip && Renewed(db, chain)
    ensures Renewed(ReindexSlice(hs, db, Steady(chain, tip), batch, version).db, chain)
  {
    var w := db.reindex.value;
    RedoHashes(hs, db, w.cursor, SliceEnd(w, batch), chain, tip, version);
    RedoSteady(hs, db, w.cursor, SliceEnd(w, batch), chain, tip, version);
    RedoKeepsMeta(hs, db, w.cursor, SliceEnd(w, batch), Steady(chain, tip), version);
  }

  lemma RelinkRenewed(hs: Hashing, db: Db, chain: nat -> string)
    requires db.rechainFrom.Some? && Renewed(db, chain)
    ensures Renewed(Relink(hs, db), chain)
  {
    RelinkShape(hs, db);
    var r := Relink(hs, db);
    assert forall h :: h in r.blocks ==> h in db.blocks.Keys;
  }

  lemma AfterWalkRenews(hs: Hashing, db: Db, ahead: bool, gapLeft: bool, chain: nat -> string, tip: nat, batch: nat, version: nat)
    requires batch >= 1 && Ordered(db) && TipHolds(db, tip) && Renewed(db, chain)
    ensures Renewed(AfterWalk(hs, db, ahead, gapLeft, Steady(chain, tip), batch, version).db, chain)
  {
    var node := Steady(chain, tip);
    var r := if db.reindex.Some? && !ahead then ReindexSlice(hs, db, node, batch, version) else Outcome(db, true);
    if db.reindex.Some? && !ahead {
      SliceRenews(hs, db, chain, tip, batch, version);
    }
    if r.ok && r.db.rechainFrom.Some? && !gapLeft {
      RelinkRenewed(hs, r.db, chain);
    }
  }

  /** Once done, a re-index is stamped; and what is not under way stays so. */
  ghost predicate WillBeStamped(db: Db, version: nat) {
    db.reindex.Some? || db.stamp == Some(version)
  }

  lemma CheckRenewed(db: Db, node: Node, chain: nat -> string)
    requires Renewed(db, chain)
    ensures Renewed(ReorgCheck(db, node).db, chain)
  {
    CheckKeepsMeta(db, node);
    CheckOnlyDeletes(db, node);
  }

  lemma WalkRenews(hs: Hashing, c: Db, chain: nat -> string, tip: nat, batch: nat, version: nat)
    requires Ordered(c) && TipHolds(c, tip) && Renewed(c, chain)
    ensures var w := Walk(hs, c, Todo(c, tip, batch), Steady(chain, tip), version).db;
            Ordered(w) && TipHolds(w, tip) && Renewed(w, chain)
  {
    var node, todo := Steady(chain, tip), Todo(c, tip, batch);
    TodoWithin(c, tip, batch);
    WalkSteady(hs, c, todo, chain, tip, version);
    WalkAdds(hs, c, todo, node, version);
    ExtendsRenewed(c, Walk(hs, c, todo, node, version).db, chain);
  }

  /** A pass on an answering node keeps both. */
  lemma PassRenews(hs: Hashing, db: Db, chain: nat -> string, tip: nat, batch: nat, version: nat)
    requires batch >= 1 && Ordered(db) && TipHolds(db, tip) && CursorStands(db) && Renewed(db, chain) && WillBeStamped(db, version)
    ensures var r := Pass(hs, db, Steady(chain, tip), batch, version).db;
            Renewed(r, chain) && WillBeStamped(r, version)
  {
    var node := Steady(chain, tip);
    var c := ReorgCheck(db, node).db;
    FirstPass(hs, db, chain, tip, batch, version);
    PassMoves(hs, db, node, batch, version);
    CheckRenewed(db, node, chain);
    CheckKeepsMeta(db, node);
    CheckOnlyDeletes(db, node);
    WalkRenews(hs, c, chain, tip, batch, version);
    var w := Walk(hs, c, Todo(c, tip, batch), node, version).db;
    AfterWalkRenews(hs, w, Ahead(c, tip) != [], |Below(c, tip)| > 4 * batch, chain, tip, batch, version);
  }

  lemma CheckOnlyDeletes(db: Db, node: Node)
    ensures var c := ReorgCheck(db, node).db;
            forall h :: h in c.blocks ==> h in db.blocks && c.blocks[h] == db.blocks[h]
  {
    if db.blocks != map[] {
      var top := Top(db.blocks.Keys);
      CheckFromShape(db, node, CheckStart(db.start, top), top);
    }
  }

  lemma {:induction false} PassesRenew(hs: Hashing, db: Db, chain: nat -> string, tip: nat, batch: nat, version: nat, n: nat)
    requires batch >= 1 && Sound(hs, db, version) && TipHolds(db, tip) && CursorStands(db)
    requires Renewed(db, chain) && WillBeStamped(db, version)
    ensures var r := Passes(hs, db, chain, tip, batch, version, n);
            Sound(hs, r, version) && Renewed(r, chain) && WillBeStamped(r, version)
    decreases n
  {
    if n > 0 {
      var node := Steady(chain, tip);
      PassRenews(hs, db, chain, tip, batch, version);
      FirstPass(hs, db, chain, tip, batch, version);
      PassSafeWhen(hs, db, node, batch, version);
      PassSoundIff(hs, db, node, batch, version);
      PassesRenew(hs, Pass(hs, db, node, batch, version).db, chain, tip, batch, version, n - 1);
    }
  }

  /** What the parser computes of the chain from the start up to `h`. */
  function ChainCommits(hs: Hashing, chain: nat -> string, start: nat, h: nat, version: nat): seq<Digest>
    requires start <= h
  {
    seq(h + 1 - start, i requires 0 <= i < h + 1 - start => hs.commit(start + i, chain(start + i), version))
  }

  function ChainRow(hs: Hashing, chain: nat -> string, start: nat, h: nat, version: nat): Row
    requires start <= h
  {
    Row(chain(h), version, hs.commit(h, chain(h), version), Fold(hs, ChainCommits(hs, chain, start, h, version)))
  }

  /** A settled database whose rows are all the chain's and the running parser's. */
  lemma SettledIsChain(hs: Hashing, r: Db, chain: nat -> string, version: nat, h: nat)
    requires Sound(hs, r, version) && Renewed(r, chain) && r.stamp == Some(version) && Quiet(r) && h in r.blocks
    ensures r.blocks[h] == ChainRow(hs, chain, r.start, h, version)
  {
    QuietHeadIsFold(hs, r, h);
    forall i | 0 <= i < h + 1 - r.start ensures Commits(r, h)[i] == ChainCommits(hs, chain, r.start, h, version)[i] {
      NoHoleDown(r, h, r.start + i);
    }
    assert Commits(r, h) == ChainCommits(hs, chain, r.start, h, version);
  }

  /** A re-index armed over every row ends, within Distance + 1 passes on an answering node, with a
      database that depends on the chain, the start and the running parser alone: every row from the
      start to the tip is the one that parser computes of that chain, and the stamp names it. */
  lemma ReindexRenewsAll(hs: Hashing, db: Db, chain: nat -> string, tip: nat, batch: nat, version: nat, h: nat)
    requires batch >= 1 && Sound(hs, db, version) && TipHolds(db, tip) && CursorStands(db)
    requires Renewed(db, chain) && WillBeStamped(db, version)
    ensures var r := Passes(hs, db, chain, tip, batch, version, Distance(db, tip) + 1);
            && r.stamp == Some(version) && r.reindex.None? && r.start == db.start
            && (h in r.blocks <==> db.start <= h <= tip)
            && (h in r.blocks ==> r.blocks[h] == ChainRow(hs, chain, db.start, h, version))
  {
    var n := Distance(db, tip) + 1;
    SettlesToFold(hs, db, chain, tip, batch, version);
    SettledMeta(hs, db, chain, tip, batch, version);
    PassesRenew(hs, db, chain, tip, batch, version, n);
    var r := Passes(hs, db, chain, tip, batch, version, n);
    if h in r.blocks {
      SettledIsChain(hs, r, chain, version, h);
    }
  }

  lemma SettledMeta(hs: Hashing, db: Db, chain: nat -> string, tip: nat, batch: nat, version: nat)
    requires batch >= 1 && Sound(hs, db, version) && TipHolds(db, tip) && CursorStands(db)
    ensures var r := Passes(hs, db, chain, tip, batch, version, Distance(db, tip) + 1);
            Settled(r, tip) && r.start == db.start
  {
    var node := Steady(chain, tip);
    FirstPass(hs, db, chain, tip, batch, version);
    PassSafeWhen(hs, db, node, batch, version);
    PassSoundIff(hs, db, node, batch, version);
    PassesSettle(hs, Pass(hs, db, node, batch, version).db, chain, tip, batch, version, Distance(db, tip));
  }

  /** Arming covers every row, so nothing is left that must already carry the chain's hash. */
  lemma ArmedIsRenewed(db: Db, chain: nat -> string)
    requires Ordered(db) && db.blocks != map[]
    ensures Renewed(Arm(db), chain) && CursorStands(Arm(db))
  {
    assert forall h :: h in db.blocks ==> h in db.blocks.Keys && h <= Top(db.blocks.Keys);
  }

  // ── What is committed ────────────────────────────────────────────────────

  /** What is committed by a walk that has done `done` blocks: it commits when a batch is full. */
  function WalkDisk(hs: Hashing, db: Db, disk: Db, todo: seq<nat>, node: Node, batch: nat, version: nat, done: nat): Db
    requires batch >= 1
    decreases |todo|
  {
    if todo == [] || node.walk(todo[0]).None? then disk
    else
      var next := IndexBlock(hs, db, todo[0], node.walk(todo[0]).value, version);
      WalkDisk(hs, next, if (done + 1) % batch == 0 then next else disk, todo[1..], node, batch, version, done + 1)
  }

  function RedoDisk(hs: Hashing, db: Db, disk: Db, h: nat, last: nat, node: Node, batch: nat, version: nat, done: nat): Db
    requires batch >= 1
    decreases last + 1 - h
  {
    if h > last || node.redo(h).None? then disk
    else
      var next := IndexBlock(hs, db, h, node.redo(h).value, version);
      RedoDisk(hs, next, if (done + 1) % batch == 0 then next else disk, h + 1, last, node, batch, version, done + 1)
  }

  /** What a pass leaves committed. It commits a deleted suffix, each full batch, the finished walk, and
      the ends of the slice and of the re-link. */
  function PassDisk(hs: Hashing, db: Db, disk: Db, node: Node, batch: nat, version: nat): Db
    requires batch >= 1
  {
    var c := ReorgCheck(db, node);
    var kept := if c.db != db then c.db else disk;
    if !c.ok then kept
    else
      var todo := Todo(c.db, node.tip, batch);
      var w := Walk(hs, c.db, todo, node, version);
      if !w.ok then WalkDisk(hs, c.db, kept, todo, node, batch, version, 0)
      else if w.db.reindex.Some? && Ahead(c.db, node.tip) == [] && !ReindexSlice(hs, w.db, node, batch, version).ok then
        RedoDisk(hs, w.db, w.db, w.db.reindex.value.cursor, SliceEnd(w.db.reindex.value, batch), node, batch, version, 0)
      else Pass(hs, db, node, batch, version).db
  }

  /** The heights whose rows in memory are not the committed ones. */
  function Unsaved(db: Db, disk: Db): set<nat> {
    set h | h in db.blocks.Keys + disk.blocks.Keys && (h in db.blocks && h in disk.blocks ==> db.blocks[h] != disk.blocks[h])
  }

  lemma WriteUnsaved(hs: Hashing, db: Db, disk: Db, h: nat, hash: string, version: nat)
    ensures var next := IndexBlock(hs, db, h, hash, version);
            |Unsaved(next, disk)| <= |Unsaved(db, disk)| + 1
  {
    var next := IndexBlock(hs, db, h, hash, version);
    assert Unsaved(next, disk) <= Unsaved(db, disk) + {h};
    CardinalityUpTo(Unsaved(next, disk), Unsaved(db, disk) + {h});
  }

  lemma {:induction false} CardinalityUpTo(a: set<nat>, b: set<nat>)
    requires a <= b
    ensures |a| <= |b|
    decreases |a|
  {
    if a != {} {
      var x :| x in a;
      CardinalityUpTo(a - {x}, b - {x});
    }
  }

  lemma NothingUnsaved(db: Db)
    ensures Unsaved(db, db) == {}
  {
  }

  /** What a stopped loop leaves uncommitted: fewer rows than a batch, or else nothing was committed,
      and they are fewer than a batch more than before. */
  ghost predicate BatchUnsaved(db: Db, disk: Db, before: nat, was: Db, batch: nat) {
    || |Unsaved(db, disk)| < batch
    || (disk == was && |Unsaved(db, disk)| < before + batch)
  }

  /** Where a loop stands: the rows since the last commit, or since it began. */
  ghost predicate LoopUnsaved(db: Db, disk: Db, done: nat, before: nat, was: Db, batch: nat)
    requires batch >= 1
  {
    if done < batch then disk == was && |Unsaved(db, disk)| <= before + done
    else |Unsaved(db, disk)| <= done % batch
  }

  lemma LoopWrites(hs: Hashing, db: Db, disk: Db, h: nat, hash: string, version: nat, done: nat, before: nat, was: Db, batch: nat)
    requires batch >= 1 && LoopUnsaved(db, disk, done, before, was, batch)
    ensures var next := IndexBlock(hs, db, h, hash, version);
            LoopUnsaved(next, if (done + 1) % batch == 0 then next else disk, done + 1, before, was, batch)
  {
    var next := IndexBlock(hs, db, h, hash, version);
    WriteUnsaved(hs, db, disk, h, hash, version);
    NothingUnsaved(next);
    NextRemainder(done, batch);
  }

  lemma NextRemainder(done: nat, batch: nat)
    requires batch >= 1
    ensures (done + 1) % batch == 0 || (done + 1) % batch == done % batch + 1
    ensures done < batch ==> done % batch == done
    ensures done + 1 == batch ==> (done + 1) % batch == 0
  {
    var q, r := done / batch, done % batch;
    assert done + 1 == batch * q + (r + 1);
    if r + 1 == batch {
      assert done + 1 == batch * (q + 1);
      RemainderOf(q + 1, 0, batch);
    } else {
      RemainderOf(q, r + 1, batch);
    }
    if done < batch {
      RemainderOf(0, done, batch);
    }
  }

  lemma RemainderOf(q: nat, r: nat, batch: nat)
    requires r < batch
    ensures (batch * q + r) % batch == r
  {
    var n := batch * q + r;
    QuotientIs(n, q, r, n / batch, n % batch, batch);
  }

  lemma QuotientIs(n: nat, q: nat, r: nat, q': nat, r': nat, batch: nat)
    requires n == batch * q + r == batch * q' + r' && r < batch && r' < batch
    ensures r == r'
  {
    assert batch * (q - q') == r' - r;
    if q > q' {
      AtLeastOnce(batch, q - q');
    } else if q' > q {
      assert batch * (q' - q) == r - r';
      AtLeastOnce(batch, q' - q);
    }
  }

  lemma AtLeastOnce(batch: nat, k: nat)
    requires k >= 1
    ensures batch * k >= batch
  {
  }

  lemma LoopStops(db: Db, disk: Db, done: nat, before: nat, was: Db, batch: nat)
    requires batch >= 1 && LoopUnsaved(db, disk, done, before, was, batch)
    ensures BatchUnsaved(db, disk, before, was, batch)
  {
  }

  lemma {:induction false} WalkUnsaved(hs: Hashing, db: Db, disk: Db, todo: seq<nat>, node: Node, batch: nat, version: nat, done: nat,
                                       before: nat, was: Db)
    requires batch >= 1 && LoopUnsaved(db, disk, done, before, was, batch)
    ensures BatchUnsaved(Walk(hs, db, todo, node, version).db, WalkDisk(hs, db, disk, todo, node, batch, version, done), before, was, batch)
    decreases |todo|
  {
    if todo == [] || node.walk(todo[0]).None? {
      LoopStops(db, disk, done, before, was, batch);
    } else {
      var hash := node.walk(todo[0]).value;
      var next := IndexBlock(hs, db, todo[0], hash, version);
      LoopWrites(hs, db, disk, todo[0], hash, version, done, before, was, batch);
      WalkUnsaved(hs, next, if (done + 1) % batch == 0 then next else disk, todo[1..], node, batch, version, done + 1, before, was);
    }
  }

  lemma {:induction false} RedoUnsaved(hs: Hashing, db: Db, disk: Db, h: nat, last: nat, node: Node, batch: nat, version: nat, done: nat,
                                       before: nat, was: Db)
    requires batch >= 1 && LoopUnsaved(db, disk, done, before, was, batch)
    ensures BatchUnsaved(RedoRows(hs, db, h, last, node, version).db, RedoDisk(hs, db, disk, h, last, node, batch, version, done), before, was, batch)
    decreases last + 1 - h
  {
    if h > last || node.redo(h).None? {
      LoopStops(db, disk, done, before, was, batch);
    } else {
      var hash := node.redo(h).value;
      var next := IndexBlock(hs, db, h, hash, version);
      LoopWrites(hs, db, disk, h, hash, version, done, before, was, batch);
      RedoUnsaved(hs, next, if (done + 1) % batch == 0 then next else disk, h + 1, last, node, batch, version, done + 1, before, was);
    }
  }

  /** A pass that finishes has committed everything. One that stops leaves fewer rows than a batch
      uncommitted, unless it never reached a commit: then fewer than a batch more than it found. */
  lemma PassCommits(hs: Hashing, db: Db, disk: Db, node: Node, batch: nat, version: nat)
    requires batch >= 1
    ensures var r, d := Pass(hs, db, node, batch, version), PassDisk(hs, db, disk, node, batch, version);
            && (r.ok ==> d == r.db)
            && BatchUnsaved(r.db, d, |Unsaved(db, disk)|, disk, batch)
  {
    var c := ReorgCheck(db, node);
    var kept := if c.db != db then c.db else disk;
    var r, d := Pass(hs, db, node, batch, version), PassDisk(hs, db, disk, node, batch, version);
    NothingUnsaved(r.db);
    NothingUnsaved(c.db);
    var todo := Todo(c.db, node.tip, batch);
    var w := Walk(hs, c.db, todo, node, version);
    if c.ok && !w.ok {
      assert LoopUnsaved(c.db, kept, 0, |Unsaved(c.db, kept)|, kept, batch);
      WalkUnsaved(hs, c.db, kept, todo, node, batch, version, 0, |Unsaved(c.db, kept)|, kept);
    } else if c.ok && d != r.db {
      NothingUnsaved(w.db);
      var x := w.db.reindex.value;
      RedoUnsaved(hs, w.db, w.db, x.cursor, SliceEnd(x, batch), node, batch, version, 0, 0, w.db);
    }
  }

  // ── Passes that stop early add up ────────────────────────────────────────

  /** Memory and disk after a pass for each node. */
  function AfterPasses(hs: Hashing, db: Db, disk: Db, nodes: seq<Node>, batch: nat, version: nat): (Db, Db)
    requires batch >= 1
  {
    if nodes == [] then (db, disk)
    else
      var n := |nodes| - 1;
      var s := AfterPasses(hs, db, disk, nodes[..n], batch, version);
      (Pass(hs, s.0, nodes[n], batch, version).db, PassDisk(hs, s.0, s.1, nodes[n], batch, version))
  }

  function NewDb(start: nat): Db {
    Db(map[], start, None, None, None)
  }

  /** A node that answers for one new block, the k-th, and then fails. */
  function Failing(start: nat, k: nat, n: nat): Node {
    Node(start + n, (h: nat) => Some("x"), (h: nat) => if h <= start + k then Some("x") else None, (h: nat) => None)
  }

  function FirstRows(hs: Hashing, start: nat, k: nat, version: nat): Db {
    if k == 0 then NewDb(start) else IndexBlock(hs, FirstRows(hs, start, k - 1, version), start + k - 1, "x", version)
  }

  lemma {:induction false} FirstRowsShape(hs: Hashing, start: nat, k: nat, version: nat)
    ensures var db := FirstRows(hs, start, k, version);
            && db == NewDb(start).(blocks := db.blocks)
            && (forall h :: h in db.blocks <==> start <= h < start + k)
            && (forall h :: h in db.blocks ==> db.blocks[h].hash == "x")
  {
    if k > 0 {
      FirstRowsShape(hs, start, k - 1, version);
    }
  }

  lemma FailingTodo(hs: Hashing, start: nat, k: nat, n: nat, batch: nat, version: nat)
    requires k < n && batch >= 1
    ensures var todo := Todo(FirstRows(hs, start, k, version), start + n, batch);
            |todo| >= 2 && todo[0] == start + k && todo[1] == start + k + 1
  {
    var db := FirstRows(hs, start, k, version);
    FirstRowsShape(hs, start, k, version);
    var have := set h | h in db.blocks && db.start <= h <= start + n;
    assert k > 0 ==> start + k - 1 in have;
    assert NextHeight(db, start + n) == start + k;
    MissingExact(db.blocks, start, start + k);
    if Below(db, start + n) != [] {
      HasMember(Below(db, start + n));
    }
    assert Missing(db.blocks, start + k, start + n + 1) == [start + k] + Missing(db.blocks, start + k + 1, start + n + 1);
    assert Missing(db.blocks, start + k + 1, start + n + 1) == [start + k + 1] + Missing(db.blocks, start + k + 2, start + n + 1);
  }

  lemma FailingCheck(hs: Hashing, start: nat, k: nat, n: nat, version: nat)
    ensures var db := FirstRows(hs, start, k, version);
            ReorgCheck(db, Failing(start, k, n)) == Outcome(db, true)
  {
    var db := FirstRows(hs, start, k, version);
    FirstRowsShape(hs, start, k, version);
    if db.blocks != map[] {
      var x := ReorgCheckExact(db, Failing(start, k, n));
    }
  }

  lemma FailingPass(hs: Hashing, start: nat, k: nat, n: nat, batch: nat, version: nat, disk: Db)
    requires k < n && batch >= 2
    ensures var db, node := FirstRows(hs, start, k, version), Failing(start, k, n);
            && Pass(hs, db, node, batch, version) == Outcome(FirstRows(hs, start, k + 1, version), false)
            && PassDisk(hs, db, disk, node, batch, version) == disk
  {
    var db, node := FirstRows(hs, start, k, version), Failing(start, k, n);
    FailingCheck(hs, start, k, n, version);
    FailingTodo(hs, start, k, n, batch, version);
    var todo, next := Todo(db, start + n, batch), FirstRows(hs, start, k + 1, version);
    assert todo[1..][0] == start + k + 1;
    assert Walk(hs, next, todo[1..], node, version) == Outcome(next, false);
    assert Walk(hs, db, todo, node, version) == Outcome(next, false);
    NextRemainder(0, batch);
    assert WalkDisk(hs, next, disk, todo[1..], node, batch, version, 1) == disk;
  }

  lemma OnePassMore(hs: Hashing, db: Db, disk: Db, nodes: seq<Node>, node: Node, batch: nat, version: nat)
    requires batch >= 1
    ensures var s := AfterPasses(hs, db, disk, nodes, batch, version);
            AfterPasses(hs, db, disk, nodes + [node], batch, version) ==
            (Pass(hs, s.0, node, batch, version).db, PassDisk(hs, s.0, s.1, node, batch, version))
  {
    assert (nodes + [node])[..|nodes|] == nodes;
  }

  lemma {:induction false} FailingPasses(hs: Hashing, start: nat, batch: nat, version: nat, n: nat, k: nat) returns (nodes: seq<Node>)
    requires k <= n && batch >= 2
    ensures |nodes| == k && AfterPasses(hs, NewDb(start), NewDb(start), nodes, batch, version) == (FirstRows(hs, start, k, version), NewDb(start))
    decreases k
  {
    if k == 0 {
      nodes := [];
    } else {
      var before := FailingPasses(hs, start, batch, version, n, k - 1);
      var node := Failing(start, k - 1, n);
      nodes := before + [node];
      OnePassMore(hs, NewDb(start), NewDb(start), before, node, batch, version);
      FailingPass(hs, start, k - 1, n, batch, version, NewDb(start));
    }
  }

  /** Across passes there is no bound: with a batch of at least two, for every `n` there are `n` passes
      that each stop after one block, and leave all `n` rows uncommitted. */
  lemma StoppedPassesAddUp(hs: Hashing, start: nat, batch: nat, version: nat, n: nat) returns (nodes: seq<Node>)
    requires batch >= 2
    ensures |nodes| == n
    ensures var s := AfterPasses(hs, NewDb(start), NewDb(start), nodes, batch, version);
            s.1 == NewDb(start) && forall h: nat :: h in Unsaved(s.0, s.1) <==> start <= h < start + n
  {
    nodes := FailingPasses(hs, start, batch, version, n, n);
    FirstRowsShape(hs, start, n, version);
  }
}
