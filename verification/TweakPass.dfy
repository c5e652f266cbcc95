/**
 One pass of the indexer's loop (ops/lij-sp-index.py, run): the reorg check, the forward and gap
 walk, a slice of the re-index and the re-link, as functions of the database and the node's
 answers. Every pass is a run of the transition system of TweakIndex; it keeps the invariant exactly
 when its slice and its re-link are safe; and on a node that answers the passes settle.
 */
module TweakPass {
  import opened Prelude
  import opened TweakIndex

  /** What the node answers during one pass, anything at all. Each phase asks for a height at most
      once, so a tip and three functions cover every sequence of answers; None is an RPC error. */
  datatype Node = Node(
    tip: nat,
    check: nat -> Option<string>,
    walk: nat -> Option<string>,
    redo: nat -> Option<string>)

  /** A phase either finishes or stops at an RPC error; what it wrote stays either way. */
  datatype Outcome = Outcome(db: Db, ok: bool)

  // ── 1. The reorg check ───────────────────────────────────────────────────

  function CheckFrom(db: Db, node: Node, h: nat, top: nat): Outcome
    decreases top + 1 - h
  {
    if h > top then Outcome(db, true)
    else if h !in db.blocks then CheckFrom(db, node, h + 1, top)
    else
      match node.check(h)
      case None => Outcome(db, false)
      case Some(hash) =>
        if db.blocks[h].hash != hash then Outcome(DeleteFrom(db, h), true)
        else CheckFrom(db, node, h + 1, top)
  }

  function CheckStart(start: nat, top: nat): nat {
    if start + 5 >= top then start else top - 5
  }

  function ReorgCheck(db: Db, node: Node): Outcome {
    if db.blocks == map[] then Outcome(db, true)
    else
      var top := Top(db.blocks.Keys);
      CheckFrom(db, node, CheckStart(db.start, top), top)
  }

  // ── 2. The walk ──────────────────────────────────────────────────────────

  /** The heights in [lo, hi) that have no row, lowest first. */
  function Missing(blocks: map<nat, Row>, lo: nat, hi: nat): seq<nat>
    decreases hi - lo
  {
    if lo >= hi then []
    else (if lo in blocks then [] else [lo]) + Missing(blocks, lo + 1, hi)
  }

  /** One above the highest row in [start, tip], or the start. */
  function NextHeight(db: Db, tip: nat): (n: nat) {
    var have := set h | h in db.blocks && db.start <= h <= tip;
    if have == {} then db.start else Top(have) + 1
  }

  function Ahead(db: Db, tip: nat): seq<nat> {
    Missing(db.blocks, NextHeight(db, tip), tip + 1)
  }

  function Below(db: Db, tip: nat): seq<nat> {
    Missing(db.blocks, db.start, NextHeight(db, tip))
  }

  /** The live head first, then a slice of the gap below it. */
  function Todo(db: Db, tip: nat, batch: nat): seq<nat> {
    var below := Below(db, tip);
    Ahead(db, tip) + (if |below| <= 4 * batch then below else below[..4 * batch])
  }

  function Walk(hs: Hashing, db: Db, todo: seq<nat>, node: Node, version: nat): Outcome
    decreases |todo|
  {
    if todo == [] then Outcome(db, true)
    else
      match node.walk(todo[0])
      case None => Outcome(db, false)
      case Some(hash) => Walk(hs, IndexBlock(hs, db, todo[0], hash, version), todo[1..], node, version)
  }

  // ── 2a. The re-index slice ───────────────────────────────────────────────

  function RedoRows(hs: Hashing, db: Db, h: nat, last: nat, node: Node, version: nat): Outcome
    decreases last + 1 - h
  {
    if h > last then Outcome(db, true)
    else
      match node.redo(h)
      case None => Outcome(db, false)
      case Some(hash) => RedoRows(hs, IndexBlock(hs, db, h, hash, version), h + 1, last, node, version)
  }

  function SliceEnd(w: Window, batch: nat): nat
    requires batch >= 1
  {
    if w.to <= w.cursor + 4 * batch - 1 then w.to else w.cursor + 4 * batch - 1
  }

  lemma {:induction false} RedoKeepsMeta(hs: Hashing, db: Db, h: nat, last: nat, node: Node, version: nat)
    ensures var r := RedoRows(hs, db, h, last, node, version).db;
            r == db.(blocks := r.blocks)
    decreases last + 1 - h
  {
    if h <= last && node.redo(h).Some? {
      var hash := node.redo(h).value;
      RedoKeepsMeta(hs, IndexBlock(hs, db, h, hash, version), h + 1, last, node, version);
    }
  }

  function ReindexSlice(hs: Hashing, db: Db, node: Node, batch: nat, version: nat): Outcome
    requires db.reindex.Some? && batch >= 1
  {
    var w := db.reindex.value;
    var last := SliceEnd(w, batch);
    var r := RedoRows(hs, db, w.cursor, last, node, version);
    RedoKeepsMeta(hs, db, w.cursor, last, node, version);
    if !r.ok then r else Outcome(CloseSlice(r.db, last + 1, version), true)
  }

  // ── The pass ─────────────────────────────────────────────────────────────

  /** Steps 2a and 2b, after a walk that finished. `ahead` and `gapLeft` say what the walk found:
      new blocks above the head, and heights still missing below it. */
  function AfterWalk(hs: Hashing, db: Db, ahead: bool, gapLeft: bool, node: Node, batch: nat, version: nat): Outcome
    requires batch >= 1
  {
    var r := if db.reindex.Some? && !ahead then ReindexSlice(hs, db, node, batch, version) else Outcome(db, true);
    if r.ok && r.db.rechainFrom.Some? && !gapLeft then Outcome(Relink(hs, r.db), true) else r
  }

  function Pass(hs: Hashing, db: Db, node: Node, batch: nat, version: nat): Outcome
    requires batch >= 1
  {
    var c := ReorgCheck(db, node);
    if !c.ok then c
    else
      var w := Walk(hs, c.db, Todo(c.db, node.tip, batch), node, version);
      if !w.ok then w
      else AfterWalk(hs, w.db, Ahead(c.db, node.tip) != [], |Below(c.db, node.tip)| > 4 * batch, node, batch, version)
  }

  // ── What the walk's list is ──────────────────────────────────────────────

  lemma {:induction false} MissingExact(blocks: map<nat, Row>, lo: nat, hi: nat)
    ensures forall h :: h in Missing(blocks, lo, hi) <==> lo <= h < hi && h !in blocks
    decreases hi - lo
  {
    if lo < hi {
      MissingExact(blocks, lo + 1, hi);
    }
  }

  predicate Ascending(s: seq<nat>) {
    forall i, j :: 0 <= i < j < |s| ==> s[i] < s[j]
  }

  lemma {:induction false} MissingAscends(blocks: map<nat, Row>, lo: nat, hi: nat)
    ensures Ascending(Missing(blocks, lo, hi))
    decreases hi - lo
  {
    if lo < hi {
      MissingAscends(blocks, lo + 1, hi);
      MissingExact(blocks, lo + 1, hi);
      var rest := Missing(blocks, lo + 1, hi);
      assert Ascending(rest) && forall i :: 0 <= i < |rest| ==> rest[i] in rest;
      assert Missing(blocks, lo, hi) == (if lo in blocks then [] else [lo]) + rest;
    }
  }

  /** A missing height's predecessor is below the range, present, or the missing height before it. */
  lemma MissingPrev(blocks: map<nat, Row>, lo: nat, hi: nat, i: nat)
    requires i < |Missing(blocks, lo, hi)|
    ensures var ms := Missing(blocks, lo, hi);
            ms[i] == lo || HasPrev(blocks, ms[i]) || (i > 0 && ms[i - 1] + 1 == ms[i])
  {
    var ms := Missing(blocks, lo, hi);
    MissingExact(blocks, lo, hi);
    MissingAscends(blocks, lo, hi);
    assert ms[i] in ms;
    if ms[i] != lo && !HasPrev(blocks, ms[i]) {
      assert ms[i] - 1 in ms;
      var j :| 0 <= j < |ms| && ms[j] == ms[i] - 1;
      assert j < i;
      assert ms[j] <= ms[i - 1] < ms[i];
    }
  }

  /** A list the walk can index in order: every height is free, and chains from the start, from a
      row, or from the height before it in the list. */
  predicate Ready(db: Db, todo: seq<nat>) {
    && (forall i, j :: 0 <= i < j < |todo| ==> todo[i] != todo[j])
    && (forall i {:trigger ReadyAt(db, todo, i)} :: 0 <= i < |todo| ==> ReadyAt(db, todo, i))
  }

  predicate ReadyAt(db: Db, todo: seq<nat>, i: nat)
    requires i < |todo|
  {
    && todo[i] !in db.blocks
    && todo[i] >= db.start
    && (todo[i] == db.start || HasPrev(db.blocks, todo[i]) || (i > 0 && todo[i - 1] + 1 == todo[i]))
  }

  lemma MissingReady(db: Db, lo: nat, hi: nat)
    requires lo == db.start || (lo > db.start && HasPrev(db.blocks, lo))
    ensures Ready(db, Missing(db.blocks, lo, hi))
  {
    var ms := Missing(db.blocks, lo, hi);
    MissingExact(db.blocks, lo, hi);
    MissingAscends(db.blocks, lo, hi);
    forall i | 0 <= i < |ms| ensures ReadyAt(db, ms, i) {
      assert ms[i] in ms;
      MissingPrev(db.blocks, lo, hi, i);
    }
  }

  lemma ReadyPrefix(db: Db, todo: seq<nat>, n: nat)
    requires Ready(db, todo) && n <= |todo|
    ensures Ready(db, todo[..n])
  {
    forall i | 0 <= i < n ensures ReadyAt(db, todo[..n], i) {
      assert ReadyAt(db, todo, i);
    }
  }

  lemma ReadyConcat(db: Db, a: seq<nat>, b: seq<nat>)
    requires Ready(db, a) && Ready(db, b)
    requires forall x :: x in a ==> x !in b
    ensures Ready(db, a + b)
  {
    forall i | 0 <= i < |a + b| ensures ReadyAt(db, a + b, i) {
      if i < |a| {
        assert ReadyAt(db, a, i);
      } else {
        assert ReadyAt(db, b, i - |a|);
      }
    }
    forall i, j | 0 <= i < j < |a + b| ensures (a + b)[i] != (a + b)[j] {
      if i < |a| <= j {
        assert a[i] in a && b[j - |a|] in b;
      }
    }
  }

  lemma BothReady(db: Db, tip: nat)
    ensures Ready(db, Ahead(db, tip)) && Ready(db, Below(db, tip))
  {
    MissingReady(db, NextHeight(db, tip), tip + 1);
    MissingReady(db, db.start, NextHeight(db, tip));
  }

  lemma AheadNotBelow(db: Db, tip: nat)
    ensures forall x :: x in Ahead(db, tip) ==> x !in Below(db, tip)
  {
    MissingExact(db.blocks, NextHeight(db, tip), tip + 1);
    MissingExact(db.blocks, db.start, NextHeight(db, tip));
  }

  lemma TodoReady(db: Db, tip: nat, batch: nat)
    ensures Ready(db, Todo(db, tip, batch))
  {
    var ahead, below := Ahead(db, tip), Below(db, tip);
    var slice := if |below| <= 4 * batch then below else below[..4 * batch];
    BothReady(db, tip);
    AheadNotBelow(db, tip);
    ReadyPrefix(db, below, |slice|);
    assert slice == below[..|slice|];
    ReadyConcat(db, ahead, slice);
  }

  // ── What each phase leaves ───────────────────────────────────────────────

  predicate RowsUpTo(db: Db, tip: nat) {
    forall h :: h in db.blocks ==> h <= tip
  }

  /** The check deletes one suffix at or above `h`, from a row that is there, or nothing. */
  lemma {:induction false} CheckFromShape(db: Db, node: Node, h: nat, top: nat)
    ensures var r := CheckFrom(db, node, h, top);
            r.db == db || exists x :: x >= h && x in db.blocks && r.db == DeleteFrom(db, x)
    decreases top + 1 - h
  {
    if h <= top {
      CheckFromShape(db, node, h + 1, top);
    }
  }

  lemma CheckLeads(hs: Hashing, m: Machine, node: Node)
    requires m.slice.None?
    ensures var db := ReorgCheck(m.work, node).db;
            && Leads(hs, m, m.(work := db), true)
            && (db == m.work || exists x :: x >= m.work.start && x in m.work.blocks && db == DeleteFrom(m.work, x))
  {
    var db := m.work;
    var r := ReorgCheck(db, node);
    LeadsNowhere(hs, m, true);
    if r.db != db {
      var top := Top(db.blocks.Keys);
      CheckFromShape(db, node, CheckStart(db.start, top), top);
      var x :| x >= CheckStart(db.start, top) && x in db.blocks && r.db == DeleteFrom(db, x);
      LeadsByStep(hs, m, Delete(x));
    }
  }

  lemma ReadyRest(hs: Hashing, db: Db, todo: seq<nat>, hash: string, version: nat)
    requires todo != [] && Ready(db, todo)
    ensures Ready(IndexBlock(hs, db, todo[0], hash, version), todo[1..])
  {
    var db' := IndexBlock(hs, db, todo[0], hash, version);
    forall i | 0 <= i < |todo[1..]| ensures ReadyAt(db', todo[1..], i) {
      assert ReadyAt(db, todo, i + 1);
    }
  }

  lemma {:induction false} WalkLeads(hs: Hashing, m: Machine, todo: seq<nat>, node: Node)
    requires m.slice.None? && Ready(m.work, todo)
    ensures Leads(hs, m, m.(work := Walk(hs, m.work, todo, node, m.version).db), true)
    decreases |todo|
  {
    if todo == [] || node.walk(todo[0]).None? {
      LeadsNowhere(hs, m, true);
    } else {
      var hash := node.walk(todo[0]).value;
      assert ReadyAt(m.work, todo, 0);
      LeadsByStep(hs, m, Index(todo[0], hash));
      ReadyRest(hs, m.work, todo, hash, m.version);
      var m' := Apply(hs, m, Index(todo[0], hash));
      WalkLeads(hs, m', todo[1..], node);
      LeadsOn(hs, m, m', m.(work := Walk(hs, m.work, todo, node, m.version).db), true, true);
    }
  }

  /** A finished walk adds exactly its list. */
  lemma {:induction false} WalkAdds(hs: Hashing, db: Db, todo: seq<nat>, node: Node, version: nat)
    ensures var r := Walk(hs, db, todo, node, version);
            && r.db == db.(blocks := r.db.blocks)
            && (r.ok ==> forall h :: h in r.db.blocks <==> h in db.blocks || h in todo)
    decreases |todo|
  {
    if todo != [] && node.walk(todo[0]).Some? {
      var hash := node.walk(todo[0]).value;
      WalkAdds(hs, IndexBlock(hs, db, todo[0], hash, version), todo[1..], node, version);
      assert todo == [todo[0]] + todo[1..];
    }
  }

  lemma TodoWithin(db: Db, tip: nat, batch: nat)
    ensures forall h :: h in Todo(db, tip, batch) ==> db.start <= h <= tip && h !in db.blocks
  {
    var n := NextHeight(db, tip);
    MissingExact(db.blocks, n, tip + 1);
    MissingExact(db.blocks, db.start, n);
    assert db.start <= n && (n == db.start || n <= tip + 1);
    var below := Below(db, tip);
    forall h | h in Todo(db, tip, batch) ensures h in Ahead(db, tip) || h in below {
    }
  }

  /** After the walk every height above the rows found has a row, up to the tip; with nothing left
      below, every height from the start has. */
  lemma WalkLeaves(hs: Hashing, db: Db, node: Node, batch: nat, version: nat)
    ensures var w := Walk(hs, db, Todo(db, node.tip, batch), node, version);
            w.ok ==>
              && (forall h :: NextHeight(db, node.tip) <= h <= node.tip ==> h in w.db.blocks)
              && (|Below(db, node.tip)| <= 4 * batch ==> Full(w.db, node.tip))
  {
    var tip := node.tip;
    var n := NextHeight(db, tip);
    var todo := Todo(db, tip, batch);
    WalkAdds(hs, db, todo, node, version);
    MissingExact(db.blocks, n, tip + 1);
    MissingExact(db.blocks, db.start, n);
    forall h | db.start <= h <= tip && (n <= h || |Below(db, tip)| <= 4 * batch)
      ensures h in db.blocks || h in todo
    {
      assert h !in db.blocks ==> h in Ahead(db, tip) || h in Below(db, tip);
    }
  }

  lemma {:induction false} RedoLeads(hs: Hashing, m: Machine, h: nat, last: nat, node: Node)
    requires m.slice == Some(h) && m.work.reindex.Some? && last <= m.work.reindex.value.to && h <= last + 1
    ensures var r := RedoRows(hs, m.work, h, last, node, m.version);
            Leads(hs, m, m.(work := r.db, slice := if r.ok then Some(last + 1) else None), true)
    decreases last + 1 - h
  {
    var r := RedoRows(hs, m.work, h, last, node, m.version);
    if h > last {
      LeadsNowhere(hs, m, true);
    } else if node.redo(h).None? {
      LeadsByStep(hs, m, Abort);
    } else {
      var s := Redo(node.redo(h).value);
      LeadsByStep(hs, m, s);
      var m' := Apply(hs, m, s);
      RedoLeads(hs, m', h + 1, last, node);
      LeadsOn(hs, m, m', m.(work := r.db, slice := if r.ok then Some(last + 1) else None), true, true);
    }
  }

  lemma {:induction false} RedoAdds(hs: Hashing, db: Db, h: nat, last: nat, node: Node, version: nat)
    ensures var r := RedoRows(hs, db, h, last, node, version);
            && r.db == db.(blocks := r.db.blocks)
            && (forall k :: k in db.blocks ==> k in r.db.blocks)
            && (forall k :: k in r.db.blocks ==> k in db.blocks || h <= k <= last)
            && (r.ok ==> forall k :: h <= k <= last ==> k in r.db.blocks)
    decreases last + 1 - h
  {
    if h <= last && node.redo(h).Some? {
      RedoAdds(hs, IndexBlock(hs, db, h, node.redo(h).value, version), h + 1, last, node, version);
    }
  }

  // ── When a pass keeps the invariant ──────────────────────────────────────

  /** The slice of a pass that ends: its first row does not stand above a hole unmarked. */
  predicate SliceSafe(db: Db, batch: nat)
    requires db.reindex.Some? && batch >= 1
  {
    EndSliceSafe(db, SliceEnd(db.reindex.value, batch) + 1)
  }

  predicate AfterWalkSafe(hs: Hashing, db: Db, ahead: bool, gapLeft: bool, node: Node, batch: nat, version: nat)
    requires batch >= 1
  {
    var r := if db.reindex.Some? && !ahead then ReindexSlice(hs, db, node, batch, version) else Outcome(db, true);
    && (db.reindex.Some? && !ahead && r.ok ==> SliceSafe(db, batch))
    && (r.ok && r.db.rechainFrom.Some? && !gapLeft ==> RelinkSafe(r.db))
  }

  /** What a pass that reaches its slice, or its re-link, must find there. */
  predicate PassSafe(hs: Hashing, db: Db, node: Node, batch: nat, version: nat)
    requires batch >= 1
  {
    var c := ReorgCheck(db, node);
    c.ok ==>
      var w := Walk(hs, c.db, Todo(c.db, node.tip, batch), node, version);
      w.ok ==> AfterWalkSafe(hs, w.db, Ahead(c.db, node.tip) != [], |Below(c.db, node.tip)| > 4 * batch, node, batch, version)
  }

  lemma SliceRedone(hs: Hashing, m: Machine, node: Node, last: nat)
    requires m.slice.None? && m.work.reindex.Some? && m.work.reindex.value.cursor <= last <= m.work.reindex.value.to
    ensures var r := RedoRows(hs, m.work, m.work.reindex.value.cursor, last, node, m.version);
            Leads(hs, m, m.(work := r.db, slice := if r.ok then Some(last + 1) else None), true)
  {
    var w := m.work.reindex.value;
    var m1 := Apply(hs, m, OpenSlice);
    var r := RedoRows(hs, m.work, w.cursor, last, node, m.version);
    LeadsByStep(hs, m, OpenSlice);
    RedoLeads(hs, m1, w.cursor, last, node);
    LeadsOn(hs, m, m1, m.(work := r.db, slice := if r.ok then Some(last + 1) else None), true, true);
  }

  lemma SliceLeads(hs: Hashing, m: Machine, node: Node, batch: nat)
    requires batch >= 1 && m.slice.None? && m.work.reindex.Some? && Ordered(m.work)
    ensures var r := ReindexSlice(hs, m.work, node, batch, m.version);
            Leads(hs, m, m.(work := r.db), r.ok ==> SliceSafe(m.work, batch))
  {
    var w := m.work.reindex.value;
    var last := SliceEnd(w, batch);
    SliceRedone(hs, m, node, last);
    RedoAdds(hs, m.work, w.cursor, last, node, m.version);
    var r := RedoRows(hs, m.work, w.cursor, last, node, m.version);
    if r.ok {
      var m2 := m.(work := r.db, slice := Some(last + 1));
      assert HasPrev(m2.work.blocks, w.cursor) == HasPrev(m.work.blocks, w.cursor);
      assert Safe(m2, EndSlice) == SliceSafe(m.work, batch);
      LeadsByStep(hs, m2, EndSlice);
      LeadsOn(hs, m, m2, Apply(hs, m2, EndSlice), true, SliceSafe(m.work, batch));
    }
  }

  lemma AfterWalkLeads(hs: Hashing, m: Machine, ahead: bool, gapLeft: bool, node: Node, batch: nat)
    requires batch >= 1 && m.slice.None? && Ordered(m.work)
    requires !gapLeft ==> Full(m.work, node.tip)
    ensures Leads(hs, m, m.(work := AfterWalk(hs, m.work, ahead, gapLeft, node, batch, m.version).db),
                  AfterWalkSafe(hs, m.work, ahead, gapLeft, node, batch, m.version))
  {
    var db := m.work;
    var r := if db.reindex.Some? && !ahead then ReindexSlice(hs, db, node, batch, m.version) else Outcome(db, true);
    var m1 := m.(work := r.db);
    var safe := db.reindex.Some? && !ahead && r.ok ==> SliceSafe(db, batch);
    if db.reindex.Some? && !ahead {
      SliceLeads(hs, m, node, batch);
      RedoAdds(hs, db, db.reindex.value.cursor, SliceEnd(db.reindex.value, batch), node, m.version);
    } else {
      LeadsNowhere(hs, m, safe);
    }
    if r.ok && r.db.rechainFrom.Some? && !gapLeft {
      LeadsByStep(hs, m1, RelinkHeads(node.tip));
      LeadsOn(hs, m, m1, Apply(hs, m1, RelinkHeads(node.tip)), safe, RelinkSafe(m1.work));
    }
  }

  lemma {:induction false} WalkOrdered(hs: Hashing, db: Db, todo: seq<nat>, node: Node, version: nat)
    requires Ordered(db) && forall h :: h in todo ==> h >= db.start
    ensures Ordered(Walk(hs, db, todo, node, version).db)
    decreases |todo|
  {
    if todo != [] && node.walk(todo[0]).Some? {
      assert todo[0] in todo && forall h :: h in todo[1..] ==> h in todo;
      WalkOrdered(hs, IndexBlock(hs, db, todo[0], node.walk(todo[0]).value, version), todo[1..], node, version);
    }
  }

  /** Whatever the node answers, one pass is a run of the transition system, and a safe one if the
      pass is safe: so everything proved of runs holds of passes. */
  lemma PassLeads(hs: Hashing, m: Machine, node: Node, batch: nat)
    requires batch >= 1 && m.slice.None? && Ordered(m.work)
    ensures Leads(hs, m, m.(work := Pass(hs, m.work, node, batch, m.version).db), PassSafe(hs, m.work, node, batch, m.version))
  {
    var c := ReorgCheck(m.work, node);
    var m1 := m.(work := c.db);
    CheckLeads(hs, m, node);
    if c.ok {
      var todo := Todo(c.db, node.tip, batch);
      var w := Walk(hs, c.db, todo, node, m.version);
      var m2 := m.(work := w.db);
      TodoReady(c.db, node.tip, batch);
      WalkLeads(hs, m1, todo, node);
      LeadsOn(hs, m, m1, m2, true, true);
      if w.ok {
        var ahead, gapLeft := Ahead(c.db, node.tip) != [], |Below(c.db, node.tip)| > 4 * batch;
        TodoWithin(c.db, node.tip, batch);
        WalkOrdered(hs, c.db, todo, node, m.version);
        WalkAdds(hs, c.db, todo, node, m.version);
        WalkLeaves(hs, c.db, node, batch, m.version);
        AfterWalkLeads(hs, m2, ahead, gapLeft, node, batch);
        LeadsOn(hs, m, m2, m.(work := Pass(hs, m.work, node, batch, m.version).db), true,
                AfterWalkSafe(hs, w.db, ahead, gapLeft, node, batch, m.version));
      }
    }
  }

  /** A safe run keeps the invariant, in the form the phases use. */
  lemma LeadsKeepsSound(hs: Hashing, m: Machine, n: Machine)
    requires MachineSound(hs, m) && Leads(hs, m, n, true)
    ensures MachineSound(hs, n)
  {
    var steps :| IsRun(hs, m, steps) && Exec(hs, m, steps) == n && SafeRun(hs, m, steps);
    RunKeepsSound(hs, m, steps);
  }

  /** An unsafe slice leaves a row above a hole that nothing excuses, and no re-link removes it. */
  lemma UnsafeSliceStays(hs: Hashing, db: Db, gapLeft: bool, node: Node, batch: nat, version: nat)
    requires batch >= 1 && Ordered(db) && db.reindex.Some?
    requires ReindexSlice(hs, db, node, batch, version).ok && !SliceSafe(db, batch)
    ensures !HolesExcused(AfterWalk(hs, db, false, gapLeft, node, batch, version).db)
  {
    var w := db.reindex.value;
    var last := SliceEnd(w, batch);
    RedoAdds(hs, db, w.cursor, last, node, version);
    var r := ReindexSlice(hs, db, node, batch, version).db;
    assert OverHole(r, w.cursor) && !Excused(r, w.cursor);
    if r.rechainFrom.Some? && !gapLeft {
      RelinkShape(hs, r);
      assert OverHole(Relink(hs, r), w.cursor) && !Excused(Relink(hs, r), w.cursor);
    }
  }

  /** A slice that ends keeps the invariant exactly when it is safe. */
  lemma SliceKeepsIff(hs: Hashing, db: Db, node: Node, batch: nat, version: nat)
    requires batch >= 1 && Sound(hs, db, version) && db.reindex.Some?
    ensures var r := ReindexSlice(hs, db, node, batch, version);
            r.ok ==> (Sound(hs, r.db, version) <==> SliceSafe(db, batch))
  {
    var m, r := Machine(db, db, version, None), ReindexSlice(hs, db, node, batch, version);
    if r.ok && SliceSafe(db, batch) {
      SliceLeads(hs, m, node, batch);
      LeadsKeepsSound(hs, m, m.(work := r.db));
    } else if r.ok {
      UnsafeSliceStays(hs, db, true, node, batch, version);
    }
  }

  /** An unsafe re-link leaves one too. */
  lemma UnsafeRelinkStays(hs: Hashing, db: Db)
    requires db.rechainFrom.Some? && !RelinkSafe(db)
    ensures !HolesExcused(Relink(hs, db))
  {
    RelinkShape(hs, db);
    var h :| h in db.blocks && OverHole(db, h) && !InWindow(db, h);
    assert OverHole(Relink(hs, db), h) && !Excused(Relink(hs, db), h);
  }

  lemma AfterWalkUnsafe(hs: Hashing, db: Db, ahead: bool, gapLeft: bool, node: Node, batch: nat, version: nat)
    requires batch >= 1 && Ordered(db) && !AfterWalkSafe(hs, db, ahead, gapLeft, node, batch, version)
    ensures !HolesExcused(AfterWalk(hs, db, ahead, gapLeft, node, batch, version).db)
  {
    var r := if db.reindex.Some? && !ahead then ReindexSlice(hs, db, node, batch, version) else Outcome(db, true);
    if db.reindex.Some? && !ahead && r.ok && !SliceSafe(db, batch) {
      UnsafeSliceStays(hs, db, gapLeft, node, batch, version);
    } else {
      UnsafeRelinkStays(hs, r.db);
    }
  }

  /** From a sound database, whatever the node answers, a pass leaves a sound one if and only if it
      is safe. */
  lemma PassSoundIff(hs: Hashing, db: Db, node: Node, batch: nat, version: nat)
    requires batch >= 1 && Sound(hs, db, version)
    ensures Sound(hs, Pass(hs, db, node, batch, version).db, version) <==> PassSafe(hs, db, node, batch, version)
  {
    var m := Machine(db, db, version, None);
    if PassSafe(hs, db, node, batch, version) {
      PassLeads(hs, m, node, batch);
      LeadsKeepsSound(hs, m, m.(work := Pass(hs, db, node, batch, version).db));
    } else {
      var c := ReorgCheck(db, node);
      CheckLeads(hs, m, node);
      var todo := Todo(c.db, node.tip, batch);
      TodoWithin(c.db, node.tip, batch);
      WalkOrdered(hs, c.db, todo, node, version);
      AfterWalkUnsafe(hs, Walk(hs, c.db, todo, node, version).db, Ahead(c.db, node.tip) != [], |Below(c.db, node.tip)| > 4 * batch,
                      node, batch, version);
    }
  }

  // ── What makes a pass safe beforehand ────────────────────────────────────

  /** The re-index stands at the start, above a row, or under the marker. */
  predicate CursorStands(db: Db) {
    db.reindex.Some? ==>
      var c := db.reindex.value.cursor;
      c == db.start || HasPrev(db.blocks, c) || Marked(db, c)
  }

  /** The tip the node names is not below any row or any height the re-index is to rewrite. */
  predicate TipHolds(db: Db, tip: nat) {
    RowsUpTo(db, tip) && (db.reindex.Some? ==> db.reindex.value.to <= tip)
  }

  lemma RelinkedWithinTip(db: Db, tip: nat)
    requires Full(db, tip) && RowsUpTo(db, tip)
    ensures RelinkSafe(db)
  {
  }

  /** With no block ahead, the reorg check deleted nothing at or below the tip. */
  lemma NothingAheadNothingDeleted(db: Db, x: nat, tip: nat)
    requires RowsUpTo(db, tip) && x in db.blocks && db.start <= x
    ensures Ahead(DeleteFrom(db, x), tip) != []
  {
    var d := DeleteFrom(db, x);
    var n := NextHeight(d, tip);
    MissingExact(d.blocks, n, tip + 1);
    assert x !in d.blocks && n <= x <= tip;
    assert x in Ahead(d, tip);
  }

  /** Whatever else the node answers, if its tip holds and the re-index stands, the pass is safe. */
  lemma PassSafeWhen(hs: Hashing, db: Db, node: Node, batch: nat, version: nat)
    requires batch >= 1 && Ordered(db) && TipHolds(db, node.tip) && CursorStands(db)
    ensures PassSafe(hs, db, node, batch, version)
  {
    var c := ReorgCheck(db, node);
    CheckLeads(hs, Machine(db, db, version, None), node);
    if c.ok {
      var todo := Todo(c.db, node.tip, batch);
      var w := Walk(hs, c.db, todo, node, version);
      TodoWithin(c.db, node.tip, batch);
      WalkAdds(hs, c.db, todo, node, version);
      WalkLeaves(hs, c.db, node, batch, version);
      if w.ok {
        var ahead, gapLeft := Ahead(c.db, node.tip) != [], |Below(c.db, node.tip)| > 4 * batch;
        if db.reindex.Some? && !ahead && c.db != db {
          var x :| x >= db.start && x in db.blocks && c.db == DeleteFrom(db, x);
          NothingAheadNothingDeleted(db, x, node.tip);
        }
        AfterWalkSafeWhen(hs, w.db, ahead, gapLeft, node, batch, version);
      }
    }
  }

  lemma AfterWalkSafeWhen(hs: Hashing, db: Db, ahead: bool, gapLeft: bool, node: Node, batch: nat, version: nat)
    requires batch >= 1 && TipHolds(db, node.tip) && (!ahead ==> CursorStands(db))
    requires !gapLeft ==> Full(db, node.tip)
    ensures AfterWalkSafe(hs, db, ahead, gapLeft, node, batch, version)
  {
    var r := if db.reindex.Some? && !ahead then ReindexSlice(hs, db, node, batch, version) else Outcome(db, true);
    if db.reindex.Some? && !ahead {
      RedoAdds(hs, db, db.reindex.value.cursor, SliceEnd(db.reindex.value, batch), node, version);
    }
    if r.ok && !gapLeft {
      RelinkedWithinTip(r.db, node.tip);
    }
  }

  // ── Progress ─────────────────────────────────────────────────────────────

  /** A node that answers: one fixed chain of block hashes up to a fixed tip, and none above it. */
  function Steady(chain: nat -> string, tip: nat): Node {
    var answer := (h: nat) => if h <= tip then Some(chain(h)) else None;
    Node(tip, answer, answer, answer)
  }

  /** The tip holds, and the rows the reorg check reads agree with the chain. */
  predicate Calm(db: Db, chain: nat -> string, tip: nat) {
    && TipHolds(db, tip)
    && (db.blocks != map[] ==>
          forall h :: h in db.blocks && Top(db.blocks.Keys) <= h + 5 ==> db.blocks[h].hash == chain(h))
  }

  function MissingCount(db: Db, tip: nat): nat {
    |Missing(db.blocks, db.start, tip + 1)|
  }

  function RedoLeft(db: Db): nat {
    if db.reindex.Some? && db.reindex.value.cursor <= db.reindex.value.to
    then db.reindex.value.to + 1 - db.reindex.value.cursor else 0
  }

  function MarkLeft(db: Db): nat {
    if db.rechainFrom.Some? then 1 else 0
  }

  predicate Settled(db: Db, tip: nat) {
    MissingCount(db, tip) == 0 && db.reindex.None? && db.rechainFrom.None?
  }

  /** The lexicographic order on (missing blocks, blocks left to re-index, marker present). */
  predicate CloserThan(a: Db, b: Db, tip: nat) {
    || MissingCount(a, tip) < MissingCount(b, tip)
    || (&& MissingCount(a, tip) == MissingCount(b, tip)
        && (RedoLeft(a) < RedoLeft(b) || (RedoLeft(a) == RedoLeft(b) && MarkLeft(a) < MarkLeft(b))))
  }

  /** A bound on the passes still needed. */
  function Distance(db: Db, tip: nat): nat {
    2 * MissingCount(db, tip) + 2 * RedoLeft(db) + MarkLeft(db)
  }

  lemma {:induction false} CheckCalm(db: Db, chain: nat -> string, tip: nat, h: nat)
    requires Calm(db, chain, tip) && db.blocks != map[] && Top(db.blocks.Keys) <= h + 5
    ensures CheckFrom(db, Steady(chain, tip), h, Top(db.blocks.Keys)) == Outcome(db, true)
    decreases Top(db.blocks.Keys) + 1 - h
  {
    if h <= Top(db.blocks.Keys) {
      CheckCalm(db, chain, tip, h + 1);
    }
  }

  /** The rows of `to` are the rows of `from`, or new ones that carry the chain's hashes. */
  predicate Extends(from: Db, to: Db, chain: nat -> string) {
    && to.start == from.start
    && (forall h :: h in from.blocks ==> h in to.blocks)
    && (forall h :: h in to.blocks ==>
          to.blocks[h].hash == chain(h) || (h in from.blocks && to.blocks[h].hash == from.blocks[h].hash))
  }

  lemma CalmExtends(from: Db, to: Db, chain: nat -> string, tip: nat)
    requires Calm(from, chain, tip) && Extends(from, to, chain) && RowsUpTo(to, tip)
    requires to.reindex.Some? ==> to.reindex.value.to <= tip
    ensures Calm(to, chain, tip)
  {
  }

  lemma {:induction false} WalkSteady(hs: Hashing, db: Db, todo: seq<nat>, chain: nat -> string, tip: nat, version: nat)
    requires forall h :: h in todo ==> h <= tip
    ensures var r := Walk(hs, db, todo, Steady(chain, tip), version);
            r.ok && Extends(db, r.db, chain)
    decreases |todo|
  {
    if todo != [] {
      assert todo[0] in todo && forall h :: h in todo[1..] ==> h in todo;
      WalkSteady(hs, IndexBlock(hs, db, todo[0], chain(todo[0]), version), todo[1..], chain, tip, version);
    }
  }

  lemma {:induction false} RedoSteady(hs: Hashing, db: Db, h: nat, last: nat, chain: nat -> string, tip: nat, version: nat)
    requires last <= tip
    ensures var r := RedoRows(hs, db, h, last, Steady(chain, tip), version);
            r.ok && Extends(db, r.db, chain)
    decreases last + 1 - h
  {
    if h <= last {
      RedoSteady(hs, IndexBlock(hs, db, h, chain(h), version), h + 1, last, chain, tip, version);
    }
  }

  lemma {:induction false} MissingShrinks(a: map<nat, Row>, b: map<nat, Row>, lo: nat, hi: nat)
    requires forall h :: h in a ==> h in b
    ensures |Missing(b, lo, hi)| <= |Missing(a, lo, hi)|
    ensures (exists h :: lo <= h < hi && h !in a && h in b) ==> |Missing(b, lo, hi)| < |Missing(a, lo, hi)|
    decreases hi - lo
  {
    if lo < hi {
      MissingShrinks(a, b, lo + 1, hi);
    }
  }

  lemma SliceSteady(hs: Hashing, db: Db, chain: nat -> string, tip: nat, batch: nat, version: nat)
    requires batch >= 1 && Ordered(db) && Calm(db, chain, tip) && db.reindex.Some?
    ensures var r := ReindexSlice(hs, db, Steady(chain, tip), batch, version);
            && r.ok && Extends(db, r.db, chain) && Calm(r.db, chain, tip)
            && RedoLeft(r.db) < RedoLeft(db)
  {
    var node := Steady(chain, tip);
    var w := db.reindex.value;
    var last := SliceEnd(w, batch);
    RedoSteady(hs, db, w.cursor, last, chain, tip, version);
    RedoKeepsMeta(hs, db, w.cursor, last, node, version);
    RedoAdds(hs, db, w.cursor, last, node, version);
    CalmExtends(db, ReindexSlice(hs, db, node, batch, version).db, chain, tip);
  }

  lemma RelinkSteady(hs: Hashing, db: Db, chain: nat -> string, tip: nat)
    requires Calm(db, chain, tip) && db.rechainFrom.Some?
    ensures Extends(db, Relink(hs, db), chain) && Calm(Relink(hs, db), chain, tip)
  {
    RelinkShape(hs, db);
    var db' := Relink(hs, db);
    assert forall h :: h in db'.blocks <==> h in db.blocks.Keys;
    CalmExtends(db, db', chain, tip);
  }

  lemma AfterWalkSteady(hs: Hashing, db: Db, ahead: bool, gapLeft: bool, chain: nat -> string, tip: nat, batch: nat, version: nat)
    requires batch >= 1 && Ordered(db) && Calm(db, chain, tip)
    requires !gapLeft ==> Full(db, tip)
    ensures var r := AfterWalk(hs, db, ahead, gapLeft, Steady(chain, tip), batch, version);
            && r.ok && Extends(db, r.db, chain) && Calm(r.db, chain, tip)
            && RedoLeft(r.db) <= RedoLeft(db)
            && (!ahead && db.reindex.Some? ==> RedoLeft(r.db) < RedoLeft(db))
            && (db.reindex.None? ==> r.db.reindex.None?)
            && (MarkLeft(r.db) > MarkLeft(db) ==> RedoLeft(r.db) < RedoLeft(db))
            && (!gapLeft ==> MarkLeft(r.db) == 0)
  {
    var node := Steady(chain, tip);
    var r := if db.reindex.Some? && !ahead then ReindexSlice(hs, db, node, batch, version) else Outcome(db, true);
    if db.reindex.Some? && !ahead {
      var w := db.reindex.value;
      SliceSteady(hs, db, chain, tip, batch, version);
      RedoKeepsMeta(hs, db, w.cursor, SliceEnd(w, batch), node, version);
    }
    if r.db.rechainFrom.Some? && !gapLeft {
      RelinkSteady(hs, r.db, chain, tip);
    }
  }

  lemma TodoEmpty(db: Db, tip: nat, batch: nat)
    requires batch >= 1
    ensures Todo(db, tip, batch) == [] <==> MissingCount(db, tip) == 0
  {
    var n := NextHeight(db, tip);
    var all, todo := Missing(db.blocks, db.start, tip + 1), Todo(db, tip, batch);
    if all == [] {
      if todo != [] {
        assert todo[0] in todo;
        TodoWithin(db, tip, batch);
        MissingExact(db.blocks, db.start, tip + 1);
      }
    } else {
      var h := all[0];
      assert h in all;
      MissingExact(db.blocks, db.start, tip + 1);
      MissingExact(db.blocks, n, tip + 1);
      MissingExact(db.blocks, db.start, n);
      assert h in Ahead(db, tip) || h in Below(db, tip);
    }
  }

  /** On an answering node the check passes and the walk finishes. */
  lemma WalkFinishes(hs: Hashing, db: Db, chain: nat -> string, tip: nat, batch: nat, version: nat)
    requires batch >= 1 && Ordered(db) && Calm(db, chain, tip)
    ensures var w := Walk(hs, db, Todo(db, tip, batch), Steady(chain, tip), version);
            && ReorgCheck(db, Steady(chain, tip)) == Outcome(db, true)
            && w.ok && Ordered(w.db) && w.db == db.(blocks := w.db.blocks) && Extends(db, w.db, chain) && Calm(w.db, chain, tip)
            && (|Below(db, tip)| <= 4 * batch ==> Full(w.db, tip))
  {
    if db.blocks != map[] {
      CheckCalm(db, chain, tip, CheckStart(db.start, Top(db.blocks.Keys)));
    }
    var todo := Todo(db, tip, batch);
    TodoWithin(db, tip, batch);
    WalkSteady(hs, db, todo, chain, tip, version);
    WalkAdds(hs, db, todo, Steady(chain, tip), version);
    WalkLeaves(hs, db, Steady(chain, tip), batch, version);
    CalmExtends(db, Walk(hs, db, todo, Steady(chain, tip), version).db, chain, tip);
  }

  /** The walk shrinks what is missing, if anything is. */
  lemma WalkShrinks(hs: Hashing, db: Db, chain: nat -> string, tip: nat, batch: nat, version: nat)
    requires batch >= 1 && Ordered(db)
    ensures var w := Walk(hs, db, Todo(db, tip, batch), Steady(chain, tip), version).db;
            && (MissingCount(db, tip) > 0 ==> MissingCount(w, tip) < MissingCount(db, tip))
            && (MissingCount(db, tip) == 0 ==> w == db && Ahead(db, tip) == [] && Below(db, tip) == [])
  {
    var todo := Todo(db, tip, batch);
    TodoWithin(db, tip, batch);
    TodoEmpty(db, tip, batch);
    WalkSteady(hs, db, todo, chain, tip, version);
    WalkAdds(hs, db, todo, Steady(chain, tip), version);
    var w := Walk(hs, db, todo, Steady(chain, tip), version).db;
    MissingShrinks(db.blocks, w.blocks, db.start, tip + 1);
    assert todo != [] ==> todo[0] in todo;
  }

  /** On an answering node a pass is its walk and what follows it. */
  lemma PassSteady(hs: Hashing, db: Db, chain: nat -> string, tip: nat, batch: nat, version: nat)
    requires batch >= 1 && Ordered(db) && Calm(db, chain, tip)
    ensures var w := Walk(hs, db, Todo(db, tip, batch), Steady(chain, tip), version).db;
            Pass(hs, db, Steady(chain, tip), batch, version)
            == AfterWalk(hs, w, Ahead(db, tip) != [], |Below(db, tip)| > 4 * batch, Steady(chain, tip), batch, version)
  {
    WalkFinishes(hs, db, chain, tip, batch, version);
  }

  /** The measure after a pass whose walk left `w`. */
  lemma Closer(db: Db, w: Db, r: Db, tip: nat, gapLeft: bool)
    requires w == db.(blocks := w.blocks) && r.start == db.start && forall h :: h in w.blocks ==> h in r.blocks
    requires RedoLeft(r) <= RedoLeft(w) && (MarkLeft(r) > MarkLeft(w) ==> RedoLeft(r) < RedoLeft(w))
    requires MissingCount(db, tip) > 0 ==> MissingCount(w, tip) < MissingCount(db, tip)
    requires MissingCount(db, tip) == 0 ==> w == db && !gapLeft && (db.reindex.Some? ==> RedoLeft(r) < RedoLeft(w))
    requires !gapLeft ==> MarkLeft(r) == 0
    requires !Settled(db, tip)
    ensures CloserThan(r, db, tip) && Distance(r, tip) < Distance(db, tip)
  {
    MissingShrinks(w.blocks, r.blocks, db.start, tip + 1);
  }

  lemma PassProgressFrom(hs: Hashing, db: Db, w: Db, ahead: bool, gapLeft: bool, chain: nat -> string, tip: nat, batch: nat, version: nat)
    requires batch >= 1 && Ordered(w) && Calm(w, chain, tip) && w == db.(blocks := w.blocks)
    requires !gapLeft ==> Full(w, tip)
    requires MissingCount(db, tip) > 0 ==> MissingCount(w, tip) < MissingCount(db, tip)
    requires MissingCount(db, tip) == 0 ==> w == db && !ahead && !gapLeft
    ensures var r := AfterWalk(hs, w, ahead, gapLeft, Steady(chain, tip), batch, version);
            && r.ok && Calm(r.db, chain, tip) && r.db.start == db.start
            && (Settled(db, tip) ==> r.db == db)
            && (!Settled(db, tip) ==> CloserThan(r.db, db, tip) && Distance(r.db, tip) < Distance(db, tip))
  {
    AfterWalkSteady(hs, w, ahead, gapLeft, chain, tip, batch, version);
    if !Settled(db, tip) {
      Closer(db, w, AfterWalk(hs, w, ahead, gapLeft, Steady(chain, tip), batch, version).db, tip, gapLeft);
    }
  }

  /** On a node that answers, every pass finishes; it brings an unsettled index strictly closer,
      and leaves a settled one alone. */
  lemma PassProgress(hs: Hashing, db: Db, chain: nat -> string, tip: nat, batch: nat, version: nat)
    requires batch >= 1 && Ordered(db) && Calm(db, chain, tip)
    ensures var r := Pass(hs, db, Steady(chain, tip), batch, version);
            && r.ok && Calm(r.db, chain, tip) && r.db.start == db.start
            && (Settled(db, tip) ==> r.db == db)
            && (!Settled(db, tip) ==> CloserThan(r.db, db, tip) && Distance(r.db, tip) < Distance(db, tip))
  {
    PassSteady(hs, db, chain, tip, batch, version);
    WalkFinishes(hs, db, chain, tip, batch, version);
    WalkShrinks(hs, db, chain, tip, batch, version);
    var w := Walk(hs, db, Todo(db, tip, batch), Steady(chain, tip), version).db;
    PassProgressFrom(hs, db, w, Ahead(db, tip) != [], |Below(db, tip)| > 4 * batch, chain, tip, batch, version);
  }

  function Passes(hs: Hashing, db: Db, chain: nat -> string, tip: nat, batch: nat, version: nat, n: nat): Db
    requires batch >= 1
    decreases n
  {
    if n == 0 then db
    else Passes(hs, Pass(hs, db, Steady(chain, tip), batch, version).db, chain, tip, batch, version, n - 1)
  }

  /** A slice leaves its cursor above a row. */
  lemma SliceStands(hs: Hashing, db: Db, node: Node, batch: nat, version: nat)
    requires batch >= 1 && Ordered(db) && db.reindex.Some? && ReindexSlice(hs, db, node, batch, version).ok
    ensures CursorStands(ReindexSlice(hs, db, node, batch, version).db)
  {
    RedoAdds(hs, db, db.reindex.value.cursor, SliceEnd(db.reindex.value, batch), node, version);
  }

  lemma RelinkStands(hs: Hashing, db: Db, tip: nat)
    requires Ordered(db) && Full(db, tip) && TipHolds(db, tip) && db.rechainFrom.Some?
    ensures CursorStands(Relink(hs, db))
  {
    RelinkShape(hs, db);
  }

  /** On an answering node what follows the walk leaves the re-index standing. */
  lemma AfterWalkStands(hs: Hashing, w: Db, ahead: bool, gapLeft: bool, chain: nat -> string, tip: nat, batch: nat, version: nat)
    requires batch >= 1 && Ordered(w) && Calm(w, chain, tip) && CursorStands(w) && (!gapLeft ==> Full(w, tip))
    ensures CursorStands(AfterWalk(hs, w, ahead, gapLeft, Steady(chain, tip), batch, version).db)
  {
    var node := Steady(chain, tip);
    var r := if w.reindex.Some? && !ahead then ReindexSlice(hs, w, node, batch, version).db else w;
    if w.reindex.Some? && !ahead {
      SliceSteady(hs, w, chain, tip, batch, version);
      SliceStands(hs, w, node, batch, version);
      RedoAdds(hs, w, w.reindex.value.cursor, SliceEnd(w.reindex.value, batch), node, version);
    }
    if r.rechainFrom.Some? && !gapLeft {
      RelinkStands(hs, r, tip);
    }
  }

  lemma PassKeepsStanding(hs: Hashing, db: Db, chain: nat -> string, tip: nat, batch: nat, version: nat)
    requires batch >= 1 && Ordered(db) && Calm(db, chain, tip) && CursorStands(db)
    ensures CursorStands(Pass(hs, db, Steady(chain, tip), batch, version).db)
  {
    PassSteady(hs, db, chain, tip, batch, version);
    WalkFinishes(hs, db, chain, tip, batch, version);
    var w := Walk(hs, db, Todo(db, tip, batch), Steady(chain, tip), version).db;
    AfterWalkStands(hs, w, Ahead(db, tip) != [], |Below(db, tip)| > 4 * batch, chain, tip, batch, version);
  }

  lemma {:induction false} PassesSettle(hs: Hashing, db: Db, chain: nat -> string, tip: nat, batch: nat, version: nat, n: nat)
    requires batch >= 1 && Sound(hs, db, version) && Calm(db, chain, tip) && CursorStands(db)
    requires Distance(db, tip) <= n
    ensures var r := Passes(hs, db, chain, tip, batch, version, n);
            Settled(r, tip) && Sound(hs, r, version) && RowsUpTo(r, tip) && r.start == db.start
    decreases n
  {
    if n > 0 {
      var node := Steady(chain, tip);
      PassProgress(hs, db, chain, tip, batch, version);
      PassSafeWhen(hs, db, node, batch, version);
      PassSoundIff(hs, db, node, batch, version);
      PassKeepsStanding(hs, db, chain, tip, batch, version);
      PassesSettle(hs, Pass(hs, db, node, batch, version).db, chain, tip, batch, version, n - 1);
    }
  }

  // ── From rows that do not match ──────────────────────────────────────────

  predicate Agrees(db: Db, chain: nat -> string, lo: nat, hi: nat) {
    forall k :: k in db.blocks && lo <= k < hi ==> db.blocks[k].hash == chain(k)
  }

  /** On an answering node the check reads rows that agree with the chain up to `x`, and deletes from
      there, or reaches its end. */
  lemma {:induction false} CheckSteady(db: Db, chain: nat -> string, tip: nat, h: nat, top: nat) returns (x: nat)
    requires RowsUpTo(db, tip) && h <= top + 1
    ensures h <= x <= top + 1 && Agrees(db, chain, h, x)
    ensures CheckFrom(db, Steady(chain, tip), h, top) == Outcome(if x <= top then DeleteFrom(db, x) else db, true)
    ensures x <= top ==> x in db.blocks
    decreases top + 1 - h
  {
    if h > top || (h in db.blocks && db.blocks[h].hash != chain(h)) {
      x := h;
    } else {
      x := CheckSteady(db, chain, tip, h + 1, top);
    }
  }

  /** A deleted suffix is walked again in the same pass, and the re-index waits. */
  lemma RefillSteady(hs: Hashing, db: Db, x: nat, chain: nat -> string, tip: nat, batch: nat, version: nat)
    requires batch >= 1 && Ordered(db) && TipHolds(db, tip) && x in db.blocks
    ensures var d := DeleteFrom(db, x);
            var w := Walk(hs, d, Todo(d, tip, batch), Steady(chain, tip), version);
            && w.ok && Ahead(d, tip) != [] && tip in w.db.blocks && RowsUpTo(w.db, tip)
            && (forall h :: h in db.blocks ==> h in w.db.blocks)
            && (forall h :: h in w.db.blocks ==> w.db.blocks[h].hash == chain(h) || (h < x && h in db.blocks && w.db.blocks[h].hash == db.blocks[h].hash))
            && w.db == db.(blocks := w.db.blocks)
  {
    var d, node := DeleteFrom(db, x), Steady(chain, tip);
    var todo := Todo(d, tip, batch);
    NothingAheadNothingDeleted(db, x, tip);
    TodoWithin(d, tip, batch);
    WalkSteady(hs, d, todo, chain, tip, version);
    WalkAdds(hs, d, todo, node, version);
    WalkLeaves(hs, d, node, batch, version);
    assert NextHeight(d, tip) <= x;
  }

  /** The first pass on an answering node, whatever the rows are: afterwards the rows that the check
      reads agree, and no more passes are needed than before. */
  lemma FirstPass(hs: Hashing, db: Db, chain: nat -> string, tip: nat, batch: nat, version: nat)
    requires batch >= 1 && Ordered(db) && TipHolds(db, tip) && CursorStands(db)
    ensures var r := Pass(hs, db, Steady(chain, tip), batch, version);
            r.ok && Calm(r.db, chain, tip) && CursorStands(r.db) && r.db.start == db.start && Distance(r.db, tip) <= Distance(db, tip)
  {
    var x := 0;
    if db.blocks != map[] {
      var top := Top(db.blocks.Keys);
      assert forall h :: h in db.blocks ==> h in db.blocks.Keys && h <= top;
      x := CheckSteady(db, chain, tip, CheckStart(db.start, top), top);
      if x <= top {
        RefilledPass(hs, db, x, chain, tip, batch, version);
        return;
      }
    }
    PassProgress(hs, db, chain, tip, batch, version);
    PassKeepsStanding(hs, db, chain, tip, batch, version);
  }

  lemma RefilledPass(hs: Hashing, db: Db, x: nat, chain: nat -> string, tip: nat, batch: nat, version: nat)
    requires batch >= 1 && Ordered(db) && TipHolds(db, tip) && CursorStands(db) && db.blocks != map[]
    requires var top := Top(db.blocks.Keys); x <= top && Agrees(db, chain, CheckStart(db.start, top), x)
    requires x in db.blocks && ReorgCheck(db, Steady(chain, tip)) == Outcome(DeleteFrom(db, x), true)
    ensures var r := Pass(hs, db, Steady(chain, tip), batch, version);
            r.ok && Calm(r.db, chain, tip) && CursorStands(r.db) && r.db.start == db.start && Distance(r.db, tip) <= Distance(db, tip)
  {
    var d, node := DeleteFrom(db, x), Steady(chain, tip);
    RefillSteady(hs, db, x, chain, tip, batch, version);
    WalkLeaves(hs, d, node, batch, version);
    TodoWithin(d, tip, batch);
    WalkOrdered(hs, d, Todo(d, tip, batch), node, version);
    var w := Walk(hs, d, Todo(d, tip, batch), node, version).db;
    RefilledCalm(db, x, w, chain, tip);
    AfterRefill(hs, db, w, |Below(d, tip)| > 4 * batch, chain, tip, batch, version);
  }

  lemma AfterRefill(hs: Hashing, db: Db, w: Db, gapLeft: bool, chain: nat -> string, tip: nat, batch: nat, version: nat)
    requires batch >= 1 && Ordered(w) && Calm(w, chain, tip) && CursorStands(db) && (!gapLeft ==> Full(w, tip))
    requires w == db.(blocks := w.blocks) && forall h :: h in db.blocks ==> h in w.blocks
    ensures var r := AfterWalk(hs, w, true, gapLeft, Steady(chain, tip), batch, version);
            r.ok && Calm(r.db, chain, tip) && CursorStands(r.db) && r.db.start == db.start && Distance(r.db, tip) <= Distance(db, tip)
  {
    AfterWalkSteady(hs, w, true, gapLeft, chain, tip, batch, version);
    AfterWalkStands(hs, w, true, gapLeft, chain, tip, batch, version);
    var r := AfterWalk(hs, w, true, gapLeft, Steady(chain, tip), batch, version).db;
    MissingShrinks(db.blocks, w.blocks, db.start, tip + 1);
    MissingShrinks(w.blocks, r.blocks, db.start, tip + 1);
  }

  lemma RefilledCalm(db: Db, x: nat, w: Db, chain: nat -> string, tip: nat)
    requires Ordered(db) && TipHolds(db, tip) && db.blocks != map[] && w == db.(blocks := w.blocks)
    requires var top := Top(db.blocks.Keys); x <= top && Agrees(db, chain, CheckStart(db.start, top), x)
    requires tip in w.blocks && RowsUpTo(w, tip)
    requires forall h :: h in w.blocks ==> w.blocks[h].hash == chain(h) || (h < x && h in db.blocks && w.blocks[h].hash == db.blocks[h].hash)
    ensures Calm(w, chain, tip)
  {
    var top := Top(db.blocks.Keys);
    assert top in db.blocks && top <= tip;
    assert tip in w.blocks.Keys && Top(w.blocks.Keys) in w.blocks;
  }

  /** From any sound database whose re-index stands, on an answering node whose tip holds, and
      whether or not its rows match: within Distance + 1 passes the index holds exactly the blocks
      from the start to the tip, and every head is the fold of the commitments below it. */
  lemma SettlesToFold(hs: Hashing, db: Db, chain: nat -> string, tip: nat, batch: nat, version: nat)
    requires batch >= 1 && Sound(hs, db, version) && TipHolds(db, tip) && CursorStands(db)
    ensures var r := Passes(hs, db, chain, tip, batch, version, Distance(db, tip) + 1);
            && (forall h :: h in r.blocks <==> db.start <= h <= tip)
            && Ordered(r) && NoHole(r)
            && forall h :: h in r.blocks ==> r.blocks[h].head == Fold(hs, Commits(r, h))
  {
    var node, n := Steady(chain, tip), Distance(db, tip);
    var first := Pass(hs, db, node, batch, version).db;
    FirstPass(hs, db, chain, tip, batch, version);
    PassSafeWhen(hs, db, node, batch, version);
    PassSoundIff(hs, db, node, batch, version);
    PassesSettle(hs, first, chain, tip, batch, version, n);
    var r := Passes(hs, first, chain, tip, batch, version, n);
    MissingExact(r.blocks, r.start, tip + 1);
    SettledFolds(hs, r, tip, version);
  }

  lemma SettledFolds(hs: Hashing, r: Db, tip: nat, version: nat)
    requires Settled(r, tip) && Sound(hs, r, version) && RowsUpTo(r, tip)
    ensures Ordered(r) && NoHole(r) && Full(r, tip)
    ensures forall h :: h in r.blocks ==> r.blocks[h].head == Fold(hs, Commits(r, h))
  {
    MissingExact(r.blocks, r.start, tip + 1);
    forall h | h in r.blocks ensures r.blocks[h].head == Fold(hs, Commits(r, h)) {
      QuietHeadIsFold(hs, r, h);
    }
  }
}
