/**
 What an unsafe step of the tweak index costs (ops/lij-sp-index.py): from every sound state it has a
 continuation of safe steps only that ends with a broken head that nothing marks, or with a stamp
 that a row contradicts; exactly when it has one that ends so with the index finished; and small runs
 that end so.
 */
module TweakBreaks {
  import opened Prelude
  import opened TweakIndex

  // ── From every sound state ───────────────────────────────────────────────

  /** The hash functions tell their arguments apart. A commitment names its block's hash; what two
      parsers read in one block may be the same. */
  ghost predicate Injective(hs: Hashing) {
    && (forall a, b, c, d :: hs.link(a, b) == hs.link(c, d) ==> a == c && b == d)
    && (forall h, x, v, y, w :: hs.commit(h, x, v) == hs.commit(h, y, w) ==> x == y)
  }

  /** A head that does not chain and that no marker excuses, or a stamp that a row contradicts. */
  ghost predicate Broken(hs: Hashing, m: Machine) {
    !Chained(hs, m.work) || !StampTrue(m.work, m.version)
  }

  /** Of two hashes for a block at least one gives another head than `head`. */
  lemma OtherHead(hs: Hashing, prev: Digest, h: nat, version: nat, head: Digest) returns (hash: string)
    requires Injective(hs)
    ensures hs.link(prev, hs.commit(h, hash, version)) != head
  {
    if hs.link(prev, hs.commit(h, "0", version)) != head {
      return "0";
    }
    assert "0" != "1";
    return "1";
  }

  /** The gap walk fills every height from the start up to `k` and changes nothing else. */
  lemma FillTo(hs: Hashing, m: Machine, k: nat) returns (n: Machine)
    requires m.slice.None? && m.work.start <= k
    ensures Leads(hs, m, n, true) && n == m.(work := m.work.(blocks := n.work.blocks))
    ensures forall h :: h in m.work.blocks ==> h in n.work.blocks && n.work.blocks[h] == m.work.blocks[h]
    ensures forall h :: h in n.work.blocks ==> h in m.work.blocks || m.work.start <= h < k
    ensures forall h :: m.work.start <= h < k ==> h in n.work.blocks
    decreases k
  {
    if k == m.work.start {
      n := m;
      LeadsNowhere(hs, m, true);
    } else {
      var f := FillTo(hs, m, k - 1);
      if k - 1 in f.work.blocks {
        n := f;
      } else {
        var s := Index(k - 1, "0");
        assert k - 1 == f.work.start || HasPrev(f.work.blocks, k - 1);
        LeadsByStep(hs, f, s);
        n := Apply(hs, f, s);
        LeadsOn(hs, m, f, n, true, true);
      }
    }
  }

  /** A row above a hole: the hole can be filled so that its link breaks. */
  lemma FillBreaks(hs: Hashing, m: Machine, h: nat) returns (n: Machine)
    requires Injective(hs) && m.slice.None? && OverHole(m.work, h)
    ensures Leads(hs, m, n, true) && n == m.(work := m.work.(blocks := n.work.blocks))
    ensures forall k :: k in m.work.blocks ==> k in n.work.blocks
    ensures forall k :: k in n.work.blocks ==> k in m.work.blocks || m.work.start <= k < h
    ensures h in n.work.blocks && HasPrev(n.work.blocks, h) && !LinkedAt(hs, n.work.blocks, h)
  {
    var f := FillTo(hs, m, h - 1);
    var row := f.work.blocks[h];
    var prev := PrevHead(hs, f.work.blocks, h - 1);
    assert h - 1 !in f.work.blocks && (h - 1 == f.work.start || HasPrev(f.work.blocks, h - 1));
    var hash := "0";
    if hs.link(hs.link(prev, hs.commit(h - 1, hash, m.version)), row.commit) == row.head {
      hash := OtherHead(hs, prev, h - 1, m.version, hs.link(prev, hs.commit(h - 1, hash, m.version)));
    }
    var s := Index(h - 1, hash);
    LeadsByStep(hs, f, s);
    n := Apply(hs, f, s);
    LeadsOn(hs, m, f, n, true, true);
  }

  /** The re-index rewrites the rows from its slice up to `k` and changes nothing else. */
  lemma RedoUpTo(hs: Hashing, m: Machine, k: nat) returns (n: Machine)
    requires m.slice.Some? && m.work.reindex.Some? && m.slice.value <= k <= m.work.reindex.value.to + 1
    ensures Leads(hs, m, n, true) && n == m.(work := m.work.(blocks := n.work.blocks), slice := Some(k))
    ensures forall h :: h in m.work.blocks ==> h in n.work.blocks
    ensures forall h :: h in m.work.blocks && !(m.slice.value <= h < k) ==> n.work.blocks[h] == m.work.blocks[h]
    ensures forall h :: h in n.work.blocks ==> h in m.work.blocks || m.slice.value <= h < k
    decreases k
  {
    if k == m.slice.value {
      n := m;
      LeadsNowhere(hs, m, true);
    } else {
      var f := RedoUpTo(hs, m, k - 1);
      LeadsByStep(hs, f, Redo("0"));
      n := Apply(hs, f, Redo("0"));
      LeadsOn(hs, m, f, n, true, true);
    }
  }

  /** The re-index can be completed from wherever it stands: what is below is filled first, so its
      end is safe, and the rows outside what was left of it stay as they are. */
  lemma Complete(hs: Hashing, m: Machine) returns (n: Machine)
    requires m.slice.None? && Ordered(m.work) && m.work.reindex.Some?
    ensures Leads(hs, m, n, true) && n.slice.None? && n.version == m.version && Ordered(n.work)
    ensures n.work == m.work.(blocks := n.work.blocks, reindex := None, stamp := Some(m.version),
                              rechainFrom := if m.work.rechainFrom.None? then Some(m.work.start) else m.work.rechainFrom)
    ensures forall h :: h in m.work.blocks && !(m.work.reindex.value.cursor <= h <= m.work.reindex.value.to) ==>
              h in n.work.blocks && n.work.blocks[h] == m.work.blocks[h]
  {
    var w := m.work.reindex.value;
    var a := FillTo(hs, m, w.cursor);
    var b := Apply(hs, a, OpenSlice);
    LeadsByStep(hs, a, OpenSlice);
    LeadsOn(hs, m, a, b, true, true);
    var c := RedoUpTo(hs, b, w.to + 1);
    LeadsOn(hs, m, b, c, true, true);
    assert w.cursor == m.work.start || HasPrev(c.work.blocks, w.cursor);
    LeadsByStep(hs, c, EndSlice);
    n := Apply(hs, c, EndSlice);
    LeadsOn(hs, m, c, n, true, true);
  }

  /** With no re-index left, every hole can be filled and the heads re-linked: the index is finished,
      and no row below the marker has changed. */
  lemma Finish(hs: Hashing, m: Machine) returns (n: Machine)
    requires m.slice.None? && Ordered(m.work) && m.work.reindex.None?
    ensures Leads(hs, m, n, true) && n.slice.None? && n.version == m.version && Quiet(n.work) && n.work.stamp == m.work.stamp
    ensures forall h :: h in m.work.blocks ==> h in n.work.blocks && n.work.blocks[h].parser == m.work.blocks[h].parser
    ensures forall h :: h in m.work.blocks && !Marked(m.work, h) ==> n.work.blocks[h] == m.work.blocks[h]
  {
    var db := m.work;
    var k := if db.blocks == map[] then db.start + 1 else Top(db.blocks.Keys) + 1;
    assert forall h :: h in db.blocks ==> h in db.blocks.Keys && h < k;
    var f := FillTo(hs, m, k);
    assert NoHole(f.work);
    if db.rechainFrom.Some? {
      assert RelinkSafe(f.work);
      LeadsByStep(hs, f, RelinkHeads(k - 1));
      n := Apply(hs, f, RelinkHeads(k - 1));
      LeadsOn(hs, m, f, n, true, true);
      RelinkShape(hs, f.work);
    } else {
      n := f;
    }
  }

  /** A block above the window, and the window rewritten but for its last row. */
  lemma ArmedToTheLast(hs: Hashing, m: Machine) returns (n: Machine)
    requires m.slice.None? && Ordered(m.work) && m.work.reindex.Some?
    requires var w := m.work.reindex.value; w.to in m.work.blocks && w.to + 1 !in m.work.blocks
    ensures var w := m.work.reindex.value;
            && Leads(hs, m, n, true) && n == m.(work := m.work.(blocks := n.work.blocks), slice := Some(w.to))
            && Ordered(n.work) && w.to in n.work.blocks && n.work.blocks[w.to] == m.work.blocks[w.to]
            && w.to + 1 in n.work.blocks && LinkedAt(hs, n.work.blocks, w.to + 1)
  {
    var w := m.work.reindex.value;
    var a := Apply(hs, m, Index(w.to + 1, "0"));
    LeadsByStep(hs, m, Index(w.to + 1, "0"));
    var b := Apply(hs, a, OpenSlice);
    LeadsByStep(hs, a, OpenSlice);
    LeadsOn(hs, m, a, b, true, true);
    n := RedoUpTo(hs, b, w.to);
    LeadsOn(hs, m, b, n, true, true);
  }

  /** A re-index armed below the marker: the next block chains from the old head of the last row,
      which the re-index replaces. */
  lemma ArmBreaks(hs: Hashing, m: Machine) returns (n: Machine)
    requires Injective(hs) && m.slice.None? && Ordered(m.work) && m.work.reindex.Some? && m.work.rechainFrom.Some?
    requires var w := m.work.reindex.value;
             w.cursor == m.work.start && w.to in m.work.blocks && w.to + 1 !in m.work.blocks
             && w.to + 1 < m.work.rechainFrom.value
    ensures Leads(hs, m, n, true) && n.slice.None? && Ordered(n.work) && n.work.reindex.None?
    ensures var h := m.work.reindex.value.to + 1;
            h in n.work.blocks && HasPrev(n.work.blocks, h) && !Marked(n.work, h) && !LinkedAt(hs, n.work.blocks, h)
  {
    var w := m.work.reindex.value;
    var c := ArmedToTheLast(hs, m);
    var was := c.work.blocks[w.to].head;
    var hash := OtherHead(hs, PrevHead(hs, c.work.blocks, w.to), w.to, c.version, was);
    var d := Apply(hs, c, Redo(hash));
    LeadsByStep(hs, c, Redo(hash));
    LeadsOn(hs, m, c, d, true, true);
    assert d.work.blocks[w.to].head != was && !LinkedAt(hs, d.work.blocks, w.to + 1);
    LeadsByStep(hs, d, EndSlice);
    n := Apply(hs, d, EndSlice);
    LeadsOn(hs, m, d, n, true, true);
  }

  lemma SliceBreaks(hs: Hashing, m: Machine) returns (n: Machine)
    requires Injective(hs) && MachineSound(hs, m) && Legal(m, EndSlice) && !Safe(m, EndSlice)
    ensures Leads(hs, Apply(hs, m, EndSlice), n, true) && Broken(hs, n)
  {
    assert m.work.reindex.value.cursor in m.work.blocks;
    n := FillBreaks(hs, Apply(hs, m, EndSlice), m.work.reindex.value.cursor);
  }

  lemma RelinkBreaks(hs: Hashing, m: Machine, tip: nat) returns (n: Machine)
    requires Injective(hs) && MachineSound(hs, m) && Legal(m, RelinkHeads(tip)) && !Safe(m, RelinkHeads(tip))
    ensures Leads(hs, Apply(hs, m, RelinkHeads(tip)), n, true) && Broken(hs, n)
  {
    var m' := Apply(hs, m, RelinkHeads(tip));
    RelinkShape(hs, m.work);
    var h :| h in m.work.blocks && OverHole(m.work, h) && !InWindow(m.work, h);
    assert OverHole(m'.work, h);
    n := FillBreaks(hs, m', h);
  }

  /** Nothing weaker than safety would do: from every sound state, every unsafe step has a
      continuation of safe steps only that breaks what the index promises. */
  lemma UnsafeStepBreaks(hs: Hashing, m: Machine, s: Step) returns (n: Machine)
    requires Injective(hs) && MachineSound(hs, m) && Legal(m, s) && !Safe(m, s)
    ensures Leads(hs, Apply(hs, m, s), n, true) && Broken(hs, n)
  {
    var m' := Apply(hs, m, s);
    match s
    case LowerStart(_) => n := FillBreaks(hs, m', m.work.start);
    case ArmReindex =>
      ArmedBelow(hs, m);
      n := ArmBreaks(hs, m');
    case Crash(v) =>
      if m.disk.reindex.None? {
        n := m';
        LeadsNowhere(hs, m', true);
      } else {
        n := Complete(hs, m');
      }
    case EndSlice => n := SliceBreaks(hs, m);
    case RelinkHeads(tip) => n := RelinkBreaks(hs, m, tip);
  }

  lemma ArmedBelow(hs: Hashing, m: Machine)
    requires MachineSound(hs, m) && Legal(m, ArmReindex) && !Safe(m, ArmReindex)
    ensures var db := Apply(hs, m, ArmReindex).work;
            && Ordered(db) && db.rechainFrom.Some?
            && db.reindex.value.to in db.blocks && db.reindex.value.to + 1 !in db.blocks
            && db.reindex.value.to + 1 < db.rechainFrom.value
  {
    assert Top(m.work.blocks.Keys) in m.work.blocks.Keys && Top(m.work.blocks.Keys) + 1 !in m.work.blocks.Keys;
  }

  /** Finished and wrong: no hole, no marker, and a head that does not chain or a false stamp. */
  ghost predicate FinishedWrong(hs: Hashing, m: Machine) {
    Quiet(m.work) && Broken(hs, m)
  }

  /** A doomed link lies below every marker: the finished index keeps it. */
  lemma FinishWrong(hs: Hashing, m: Machine, h: nat) returns (n: Machine)
    requires m.slice.None? && Ordered(m.work) && m.work.reindex.None?
    requires h in m.work.blocks && HasPrev(m.work.blocks, h) && !Marked(m.work, h) && !LinkedAt(hs, m.work.blocks, h)
    ensures Leads(hs, m, n, true) && FinishedWrong(hs, n)
  {
    n := Finish(hs, m);
    assert n.work.blocks[h] == m.work.blocks[h] && n.work.blocks[h - 1] == m.work.blocks[h - 1];
    assert !LinkedAt(hs, n.work.blocks, h);
  }

  lemma FinishMisstamped(hs: Hashing, m: Machine) returns (n: Machine)
    requires m.slice.None? && Ordered(m.work) && m.work.reindex.None? && !StampTrue(m.work, m.version)
    ensures Leads(hs, m, n, true) && FinishedWrong(hs, n)
  {
    n := Finish(hs, m);
    var r :| r in m.work.blocks && m.work.blocks[r].parser != m.version;
    assert r in n.work.blocks && n.work.blocks[r].parser != n.version;
  }

  /** An unexcused row above a hole that no re-index is to rewrite, and below every marker there will
      be: the finished index has a broken head there. */
  lemma HoleEndsWrong(hs: Hashing, m: Machine, h: nat) returns (n: Machine)
    requires Injective(hs) && m.slice.None? && Ordered(m.work) && OverHole(m.work, h) && !Excused(m.work, h)
    requires m.work.reindex.Some? ==> m.work.rechainFrom.Some? && h < m.work.reindex.value.cursor
    ensures Leads(hs, m, n, true) && FinishedWrong(hs, n)
  {
    var a := FillBreaks(hs, m, h);
    if m.work.reindex.None? {
      n := FinishWrong(hs, a, h);
      LeadsOn(hs, m, a, n, true, true);
    } else {
      var b := Complete(hs, a);
      LeadsOn(hs, m, a, b, true, true);
      assert b.work.blocks[h] == a.work.blocks[h] && b.work.blocks[h - 1] == a.work.blocks[h - 1];
      n := FinishWrong(hs, b, h);
      LeadsOn(hs, m, b, n, true, true);
    }
  }

  /** A re-index under way with no re-link marker: its end will mark every row. */
  predicate Mending(db: Db) {
    db.reindex.Some? && db.rechainFrom.None?
  }

  /** The end of a slice, or a re-link, that leaves a re-index under way and no marker. */
  predicate LeavesMending(m: Machine, s: Step)
    requires Legal(m, s)
  {
    || (s.EndSlice? && m.work.rechainFrom.None? && m.slice.value <= m.work.reindex.value.to)
    || (s.RelinkHeads? && m.work.reindex.Some?)
  }

  lemma UnsafeSliceEndsWrong(hs: Hashing, m: Machine) returns (n: Machine)
    requires Injective(hs) && MachineSound(hs, m) && Legal(m, EndSlice) && !Safe(m, EndSlice) && !LeavesMending(m, EndSlice)
    ensures Leads(hs, Apply(hs, m, EndSlice), n, true) && FinishedWrong(hs, n)
  {
    assert m.work.reindex.value.cursor in m.work.blocks;
    n := HoleEndsWrong(hs, Apply(hs, m, EndSlice), m.work.reindex.value.cursor);
  }

  lemma UnsafeRelinkEndsWrong(hs: Hashing, m: Machine, tip: nat) returns (n: Machine)
    requires Injective(hs) && MachineSound(hs, m) && Legal(m, RelinkHeads(tip)) && !Safe(m, RelinkHeads(tip))
    requires m.work.reindex.None?
    ensures Leads(hs, Apply(hs, m, RelinkHeads(tip)), n, true) && FinishedWrong(hs, n)
  {
    RelinkShape(hs, m.work);
    var h :| h in m.work.blocks && OverHole(m.work, h) && !InWindow(m.work, h);
    assert OverHole(Relink(hs, m.work), h);
    n := HoleEndsWrong(hs, Apply(hs, m, RelinkHeads(tip)), h);
  }

  /** From every sound state, every unsafe step but such a one has a continuation of safe steps only to
      a finished index with a head that does not chain, or with a false stamp. */
  lemma UnsafeEndsWrong(hs: Hashing, m: Machine, s: Step) returns (n: Machine)
    requires Injective(hs) && MachineSound(hs, m) && Legal(m, s) && !Safe(m, s) && !LeavesMending(m, s)
    ensures Leads(hs, Apply(hs, m, s), n, true) && FinishedWrong(hs, n)
  {
    var m' := Apply(hs, m, s);
    match s
    case LowerStart(_) => n := HoleEndsWrong(hs, m', m.work.start);
    case ArmReindex =>
      ArmedBelow(hs, m);
      var a := ArmBreaks(hs, m');
      n := FinishWrong(hs, a, m'.work.reindex.value.to + 1);
      LeadsOn(hs, m', a, n, true, true);
    case Crash(v) =>
      if m.disk.reindex.None? {
        n := FinishMisstamped(hs, m');
      } else {
        var a := Complete(hs, m');
        n := FinishMisstamped(hs, a);
        LeadsOn(hs, m', a, n, true, true);
      }
    case EndSlice => n := UnsafeSliceEndsWrong(hs, m);
    case RelinkHeads(tip) => n := UnsafeRelinkEndsWrong(hs, m, tip);
  }

  // ── The steps that a re-index mends ──────────────────────────────────────

  /** The same database, or, while it is mending, with every row marked already. */
  ghost predicate Ahead(db: Db, e: Db) {
    e == db || (Mending(db) && e == db.(rechainFrom := Some(db.start)))
  }

  ghost predicate MachineAhead(m: Machine, e: Machine) {
    e == m.(work := e.work, disk := e.disk) && Ahead(m.work, e.work) && Ahead(m.disk, e.disk)
  }

  /** The marks are never in the way: what is safe without them is safe with them. */
  lemma StepStaysAhead(hs: Hashing, m: Machine, e: Machine, s: Step)
    requires MachineAhead(m, e) && Ordered(e.work) && Ordered(e.disk) && Legal(m, s) && Safe(m, s)
    ensures Legal(e, s) && Safe(e, s) && MachineAhead(Apply(hs, m, s), Apply(hs, e, s))
  {
    if s.ArmReindex? {
      assert Top(m.work.blocks.Keys) in m.work.blocks;
    }
  }

  lemma {:induction false} RunStaysAhead(hs: Hashing, m: Machine, e: Machine, steps: seq<Step>)
    requires MachineAhead(m, e) && MachineSound(hs, e) && IsRun(hs, m, steps) && SafeRun(hs, m, steps)
    ensures Quiet(Exec(hs, m, steps).work) ==> !Broken(hs, Exec(hs, m, steps))
    decreases |steps|
  {
    if steps != [] {
      StepStaysAhead(hs, m, e, steps[0]);
      StepSoundIff(hs, e, steps[0]);
      RunStaysAhead(hs, Apply(hs, m, steps[0]), Apply(hs, e, steps[0]), steps[1..]);
    }
  }

  lemma AllMarkedSound(hs: Hashing, db: Db, version: nat)
    requires Ordered(db) && Mending(db) && Provenance(hs, db, version, CursorOf(db))
    ensures Sound(hs, db.(rechainFrom := Some(db.start)), version)
  {
  }

  lemma LeftMending(hs: Hashing, m: Machine, s: Step) returns (e: Machine)
    requires MachineSound(hs, m) && Legal(m, s) && LeavesMending(m, s)
    ensures MachineSound(hs, e) && MachineAhead(Apply(hs, m, s), e)
  {
    if s.EndSlice? {
      AllMarkedSound(hs, m.work, m.version);
      var a := m.(work := m.work.(rechainFrom := Some(m.work.start)));
      assert MachineSound(hs, a);
      StepSoundIff(hs, a, s);
      e := Apply(hs, a, s);
    } else {
      RelinkShape(hs, m.work);
      var db := Relink(hs, m.work);
      AllMarkedSound(hs, db, m.version);
      e := m.(work := db.(rechainFrom := Some(db.start)));
    }
  }

  /** The exception is exact: an unsafe step can be continued by safe steps to a finished wrong index
      if and only if it does not leave a re-index under way with no marker. */
  lemma UnsafeEndsWrongIff(hs: Hashing, m: Machine, s: Step)
    requires Injective(hs) && MachineSound(hs, m) && Legal(m, s) && !Safe(m, s)
    ensures (exists n :: Leads(hs, Apply(hs, m, s), n, true) && FinishedWrong(hs, n)) <==> !LeavesMending(m, s)
  {
    if LeavesMending(m, s) {
      var e := LeftMending(hs, m, s);
      forall n | Leads(hs, Apply(hs, m, s), n, true) ensures !FinishedWrong(hs, n) {
        var steps :| IsRun(hs, Apply(hs, m, s), steps) && Exec(hs, Apply(hs, m, s), steps) == n && SafeRun(hs, Apply(hs, m, s), steps);
        RunStaysAhead(hs, Apply(hs, m, s), e, steps);
      }
    } else {
      var n := UnsafeEndsWrong(hs, m, s);
    }
  }

  // ── Runs that end so ─────────────────────────────────────────────────────

  /** A hashing under which different histories show: heads are concatenations. */
  function Plain(): Hashing {
    Hashing("g", (prev: Digest, c: Digest) => prev + c, (h: nat, hash: string, parser: nat) => if parser == 0 then "a" else "b")
  }

  lemma {:induction false} Extend(hs: Hashing, m: Machine, steps: seq<Step>, s: Step)
    requires IsRun(hs, m, steps) && Legal(Exec(hs, m, steps), s)
    ensures IsRun(hs, m, steps + [s])
    ensures Exec(hs, m, steps + [s]) == Apply(hs, Exec(hs, m, steps), s)
    decreases |steps|
  {
    if steps == [] {
      assert [s][1..] == [];
    } else {
      Extend(hs, Apply(hs, m, steps[0]), steps[1..], s);
      assert (steps + [s])[1..] == steps[1..] + [s];
    }
  }

  /** A run to `m` goes on with one more step. */
  lemma Then(hs: Hashing, m0: Machine, steps: seq<Step>, m: Machine, s: Step) returns (longer: seq<Step>, n: Machine)
    requires IsRun(hs, m0, steps) && Exec(hs, m0, steps) == m && Legal(m, s)
    ensures IsRun(hs, m0, longer) && Exec(hs, m0, longer) == n && n == Apply(hs, m, s)
  {
    Extend(hs, m0, steps, s);
    longer, n := steps + [s], Apply(hs, m, s);
  }

  /** What was written is committed, and the next start of the process lowers the start. */
  lemma RestartLower(hs: Hashing, m0: Machine, steps: seq<Step>, m: Machine, start: nat) returns (longer: seq<Step>, n: Machine)
    requires IsRun(hs, m0, steps) && Exec(hs, m0, steps) == m && start < m.work.start
    ensures IsRun(hs, m0, longer) && Exec(hs, m0, longer) == n
    ensures n == Machine(Lower(m.work, start), m.work, m.version, None)
  {
    longer, n := Then(hs, m0, steps, m, Commit);
    longer, n := Then(hs, m0, longer, n, Crash(m.version));
    longer, n := Then(hs, m0, longer, n, LowerStart(start));
  }

  /** The first half of the run below: two lowerings and the blocks they uncover. */
  lemma LoweredTwice() returns (steps: seq<Step>, m: Machine)
    ensures IsRun(Plain(), Fresh(2, 0), steps) && Exec(Plain(), Fresh(2, 0), steps) == m && m.slice.None?
    ensures m.work == Db(map[0 := Row("x", 0, "a", "g" + "a"), 1 := Row("x", 0, "a", "g" + "a"), 2 := Row("x", 0, "a", "g" + "a")],
                         0, Some(2), None, None)
  {
    var hs, m0 := Plain(), Fresh(2, 0);
    steps, m := [], m0;
    steps, m := Then(hs, m0, steps, m, Index(2, "x"));
    steps, m := RestartLower(hs, m0, steps, m, 1);
    steps, m := Then(hs, m0, steps, m, Index(1, "x"));
    steps, m := RestartLower(hs, m0, steps, m, 0);
    steps, m := Then(hs, m0, steps, m, Index(0, "x"));
  }

  /** Lowering the start a second time before the first backfill was re-linked keeps the older
      marker: the run ends with no marker and no hole, and the middle link is broken. */
  lemma SecondLoweringBreaksAHead() returns (steps: seq<Step>)
    ensures IsRun(Plain(), Fresh(2, 0), steps)
    ensures var db := Exec(Plain(), Fresh(2, 0), steps).work;
            Quiet(db) && 1 in db.blocks && !LinkedAt(Plain(), db.blocks, 1)
  {
    var hs := Plain();
    var m: Machine;
    steps, m := LoweredTwice();
    var blocks := m.work.blocks;
    assert blocks.Keys == {0, 1, 2} && Top(blocks.Keys) == 2;
    RelinkRowsLinks(hs, blocks, 2, 3, PrevHead(hs, blocks, 2));
    steps, m := Then(hs, Fresh(2, 0), steps, m, RelinkHeads(2));
    assert m.work.blocks.Keys == blocks.Keys && m.work.blocks[0] == blocks[0] && m.work.blocks[1] == blocks[1];
    assert PrevHead(hs, m.work.blocks, 1) == "g" + "a";
  }

  /** The first half of the run below: a start lowered on an empty database, one block, a newer
      parser armed over it, a second block, and a crash before the re-link. */
  lemma ArmedBelowTheMarker() returns (steps: seq<Step>, m: Machine)
    ensures IsRun(Plain(), Fresh(5, 0), steps) && Exec(Plain(), Fresh(5, 0), steps) == m && m.slice.None? && m.version == 1
    ensures m.work == Db(map[0 := Row("x", 0, "a", "g" + "a"), 1 := Row("x", 1, "b", "g" + "a" + "b")],
                         0, Some(5), Some(Window(0, 0)), None)
  {
    var hs, m0 := Plain(), Fresh(5, 0);
    steps, m := [], m0;
    steps, m := RestartLower(hs, m0, steps, m, 0);
    steps, m := Then(hs, m0, steps, m, Index(0, "x"));
    steps, m := Then(hs, m0, steps, m, Commit);
    steps, m := Then(hs, m0, steps, m, Crash(1));
    assert m.work.blocks.Keys == {0};
    steps, m := Then(hs, m0, steps, m, ArmReindex);
    steps, m := Then(hs, m0, steps, m, Index(1, "x"));
    steps, m := Then(hs, m0, steps, m, Commit);
    steps, m := Then(hs, m0, steps, m, Crash(1));
  }

  /** Its second part: the re-index of the one row, after which the marker lies above every row. */
  lemma RedoneBelowTheMarker() returns (steps: seq<Step>, m: Machine)
    ensures IsRun(Plain(), Fresh(5, 0), steps) && Exec(Plain(), Fresh(5, 0), steps) == m && m.slice.None?
    ensures m.work == Db(map[0 := Row("x", 1, "b", "g" + "b"), 1 := Row("x", 1, "b", "g" + "a" + "b")], 0, Some(5), None, Some(1))
  {
    var hs, m0 := Plain(), Fresh(5, 0);
    steps, m := ArmedBelowTheMarker();
    steps, m := Then(hs, m0, steps, m, OpenSlice);
    assert 0 in m.work.blocks;
    steps, m := Then(hs, m0, steps, m, Redo("x"));
    assert m.work.blocks == map[0 := Row("x", 1, "b", "g" + "b"), 1 := Row("x", 1, "b", "g" + "a" + "b")];
    steps, m := Then(hs, m0, steps, m, EndSlice);
  }

  /** Arming a re-index while the re-link marker lies above every row: the row above the window was
      chained from the old head of the last re-indexed row, and no marker covers it at the end. */
  lemma ArmingBelowTheMarkerBreaksAHead() returns (steps: seq<Step>)
    ensures IsRun(Plain(), Fresh(5, 0), steps)
    ensures var db := Exec(Plain(), Fresh(5, 0), steps).work;
            Quiet(db) && 1 in db.blocks && !LinkedAt(Plain(), db.blocks, 1)
  {
    var hs, m0 := Plain(), Fresh(5, 0);
    var m: Machine;
    steps, m := RedoneBelowTheMarker();
    var blocks := m.work.blocks;
    assert blocks.Keys == {0, 1} && Top(blocks.Keys) == 1;
    steps, m := Then(hs, m0, steps, m, RelinkHeads(1));
    assert m.work.blocks == blocks;
    assert PrevHead(hs, blocks, 1) == "g" + "b";
    assert ("g" + "a" + "b")[1] != ("g" + "b" + "b")[1];
  }

  /** The first part of the run below: two blocks, and the next parser armed over them. */
  lemma ArmedOverTwo() returns (steps: seq<Step>, m: Machine)
    ensures IsRun(Plain(), Fresh(0, 0), steps) && Exec(Plain(), Fresh(0, 0), steps) == m && m.slice.None? && m.version == 1
    ensures m.work.blocks.Keys == {0, 1} && m.work.start == 0 && m.work.reindex == Some(Window(0, 1))
  {
    var hs, m0 := Plain(), Fresh(0, 0);
    steps, m := [], m0;
    steps, m := Then(hs, m0, steps, m, Index(0, "x"));
    steps, m := Then(hs, m0, steps, m, Index(1, "x"));
    steps, m := Then(hs, m0, steps, m, Commit);
    steps, m := Then(hs, m0, steps, m, Crash(1));
    assert m.work.blocks.Keys == {0, 1} && Top({0, 1}) == 1;
    steps, m := Then(hs, m0, steps, m, ArmReindex);
  }

  /** Its second part: one of the two is re-indexed. */
  lemma HalfReindexed() returns (steps: seq<Step>, m: Machine)
    ensures IsRun(Plain(), Fresh(0, 0), steps) && Exec(Plain(), Fresh(0, 0), steps) == m && m.slice.None?
    ensures m.work == m.disk && m.work.blocks.Keys == {0, 1} && m.work.blocks[0].parser == 1 && m.work.reindex == Some(Window(1, 1))
  {
    var hs, m0 := Plain(), Fresh(0, 0);
    steps, m := ArmedOverTwo();
    steps, m := Then(hs, m0, steps, m, OpenSlice);
    assert 0 in m.work.blocks;
    steps, m := Then(hs, m0, steps, m, Redo("x"));
    steps, m := Then(hs, m0, steps, m, EndSlice);
    steps, m := Then(hs, m0, steps, m, Commit);
  }

  /** A new parser taking over a half-done re-index stamps the database with itself, although the
      rows below the cursor are the old parser's. */
  lemma UpgradeMidReindexBreaksTheStamp() returns (steps: seq<Step>)
    ensures IsRun(Plain(), Fresh(0, 0), steps)
    ensures var m := Exec(Plain(), Fresh(0, 0), steps);
            && m.work.reindex.None? && m.work.stamp == Some(m.version)
            && 0 in m.work.blocks && m.work.blocks[0].parser != m.version
  {
    var hs, m0 := Plain(), Fresh(0, 0);
    var m: Machine;
    steps, m := HalfReindexed();
    steps, m := Then(hs, m0, steps, m, Crash(2));
    steps, m := Then(hs, m0, steps, m, OpenSlice);
    assert 1 in m.work.blocks;
    steps, m := Then(hs, m0, steps, m, Redo("x"));
    steps, m := Then(hs, m0, steps, m, EndSlice);
  }

  /** The first part of the two runs below: four blocks, and the next parser's re-index of them,
      which has done `done`. */
  lemma PartlyReindexed(done: nat) returns (steps: seq<Step>, m: Machine)
    requires 1 <= done <= 3
    ensures IsRun(Plain(), Fresh(0, 0), steps) && Exec(Plain(), Fresh(0, 0), steps) == m && m.slice.None? && m.version == 1
    ensures m.work.blocks.Keys == {0, 1, 2, 3} && m.work.start == 0 && m.work.rechainFrom.None?
    ensures m.work.reindex == Some(Window(done, 3)) && m.work.blocks[0] == Row("0", 1, "b", "g" + "b")
  {
    var a: Machine;
    steps, a := FirstRedone();
    var n := RedoUpTo(Plain(), a, done);
    var more :| IsRun(Plain(), a, more) && Exec(Plain(), a, more) == n;
    RunsCompose(Plain(), Fresh(0, 0), steps, more);
    assert n.work.blocks.Keys == {0, 1, 2, 3};
    steps, m := Then(Plain(), Fresh(0, 0), steps + more, n, EndSlice);
  }

  lemma FirstRedone() returns (steps: seq<Step>, m: Machine)
    ensures IsRun(Plain(), Fresh(0, 0), steps) && Exec(Plain(), Fresh(0, 0), steps) == m && m.slice == Some(1) && m.version == 1
    ensures m.work.blocks.Keys == {0, 1, 2, 3} && m.work.start == 0 && m.work.rechainFrom.None?
    ensures m.work.reindex == Some(Window(0, 3)) && m.work.blocks[0] == Row("0", 1, "b", "g" + "b")
  {
    steps, m := ArmedOverFour();
    steps, m := Then(Plain(), Fresh(0, 0), steps, m, OpenSlice);
    steps, m := Then(Plain(), Fresh(0, 0), steps, m, Redo("0"));
  }

  lemma ArmedOverFour() returns (steps: seq<Step>, m: Machine)
    ensures IsRun(Plain(), Fresh(0, 0), steps) && Exec(Plain(), Fresh(0, 0), steps) == m && m.slice.None? && m.version == 1
    ensures m.work.blocks.Keys == {0, 1, 2, 3} && m.work.start == 0 && m.work.rechainFrom.None?
    ensures m.work.reindex == Some(Window(0, 3))
  {
    var hs, m0 := Plain(), Fresh(0, 0);
    steps, m := [], m0;
    steps, m := Then(hs, m0, steps, m, Index(0, "0"));
    steps, m := Then(hs, m0, steps, m, Index(1, "0"));
    steps, m := Then(hs, m0, steps, m, Index(2, "0"));
    steps, m := Then(hs, m0, steps, m, Index(3, "0"));
    assert m.work.blocks.Keys == {0, 1, 2, 3};
    steps, m := RestartArmed(m0, steps, m);
  }

  lemma RestartArmed(m0: Machine, steps: seq<Step>, m: Machine) returns (longer: seq<Step>, n: Machine)
    requires IsRun(Plain(), m0, steps) && Exec(Plain(), m0, steps) == m && m.slice.None?
    requires m.work.blocks.Keys == {0, 1, 2, 3} && m.work.start == 0
    requires m.work.rechainFrom.None? && m.work.reindex.None? && m.work.stamp.None?
    ensures IsRun(Plain(), m0, longer) && Exec(Plain(), m0, longer) == n && n.slice.None? && n.version == 1
    ensures n.work == m.work.(reindex := Some(Window(0, 3)))
  {
    longer, n := Then(Plain(), m0, steps, m, Commit);
    longer, n := Then(Plain(), m0, longer, n, Crash(1));
    assert Top({0, 1, 2, 3}) == 3;
    longer, n := Then(Plain(), m0, longer, n, ArmReindex);
  }

  /** The node's tip falls back while the re-index stands above it: the rows from 1 up are deleted,
      and the slice goes on at 3, over the hole. */
  lemma RedoneOverAHole() returns (steps: seq<Step>, m: Machine)
    ensures IsRun(Plain(), Fresh(0, 0), steps) && Exec(Plain(), Fresh(0, 0), steps) == m && m.slice.None? && m.version == 1
    ensures m.work == Db(map[0 := Row("0", 1, "b", "g" + "b"), 3 := Row("0", 1, "b", "g" + "b")], 0, Some(0), None, Some(1))
  {
    var hs, m0 := Plain(), Fresh(0, 0);
    steps, m := PartlyReindexed(3);
    steps, m := Then(hs, m0, steps, m, Delete(1));
    assert m.work.blocks == map[0 := Row("0", 1, "b", "g" + "b")];
    steps, m := Then(hs, m0, steps, m, OpenSlice);
    steps, m := Then(hs, m0, steps, m, Redo("0"));
    steps, m := Then(hs, m0, steps, m, EndSlice);
  }

  lemma RelinkedAcross(hs: Hashing, db: Db)
    requires hs == Plain()
    requires db == Db(map[0 := Row("0", 1, "b", "g" + "b"), 3 := Row("0", 1, "b", "g" + "b")], 0, Some(0), None, Some(1))
    ensures Relink(hs, db) ==
            Db(map[0 := Row("0", 1, "b", "g" + "b"), 3 := Row("0", 1, "b", "g" + "b" + "b")], 0, None, None, Some(1))
  {
    var b := db.blocks;
    assert b.Keys == {0, 3} && Top(b.Keys) == 3;
    var c := b[0 := b[0].(head := "g" + "b")];
    assert RelinkRows(hs, b, 0, 4, "g") == RelinkRows(hs, c, 1, 4, "g" + "b");
    assert RelinkRows(hs, c, 1, 4, "g" + "b") == RelinkRows(hs, c, 2, 4, "g" + "b") == RelinkRows(hs, c, 3, 4, "g" + "b");
    var d := c[3 := c[3].(head := "g" + "b" + "b")];
    assert RelinkRows(hs, c, 3, 4, "g" + "b") == RelinkRows(hs, d, 4, 4, "g" + "b" + "b") == d;
    assert d == map[0 := Row("0", 1, "b", "g" + "b"), 3 := Row("0", 1, "b", "g" + "b" + "b")];
  }

  lemma RelinkedOverAHole() returns (steps: seq<Step>, m: Machine)
    ensures IsRun(Plain(), Fresh(0, 0), steps) && Exec(Plain(), Fresh(0, 0), steps) == m && m.slice.None? && m.version == 1
    ensures m.work == Db(map[0 := Row("0", 1, "b", "g" + "b"), 3 := Row("0", 1, "b", "g" + "b" + "b")], 0, None, None, Some(1))
  {
    steps, m := RedoneOverAHole();
    RelinkedAcross(Plain(), m.work);
    steps, m := Then(Plain(), Fresh(0, 0), steps, m, RelinkHeads(0));
  }

  lemma HalfFilled() returns (steps: seq<Step>, m: Machine)
    ensures IsRun(Plain(), Fresh(0, 0), steps) && Exec(Plain(), Fresh(0, 0), steps) == m && m.slice.None? && m.version == 1
    ensures m.work.(blocks := map[]) == Db(map[], 0, None, None, Some(1)) && m.work.blocks.Keys == {0, 1, 3}
    ensures m.work.blocks[1].head == "g" + "b" + "b" && m.work.blocks[3].head == "g" + "b" + "b" && m.work.blocks[3].commit == "b"
  {
    steps, m := RelinkedOverAHole();
    steps, m := Then(Plain(), Fresh(0, 0), steps, m, Index(1, "0"));
  }

  /** The re-link, which looks for gaps up to the node's tip only, links row 3 across the hole and
      drops the marker; the hole is filled when the tip comes back. The run ends with no marker and
      no hole, and row 3 does not chain. */
  lemma RelinkAcrossAHoleBreaksAHead() returns (steps: seq<Step>)
    ensures IsRun(Plain(), Fresh(0, 0), steps)
    ensures var db := Exec(Plain(), Fresh(0, 0), steps).work;
            Quiet(db) && 3 in db.blocks && !LinkedAt(Plain(), db.blocks, 3)
  {
    var hs, m0 := Plain(), Fresh(0, 0);
    var m: Machine;
    steps, m := HalfFilled();
    var rows := m.work.blocks;
    steps, m := Then(hs, m0, steps, m, Index(2, "0"));
    assert m.work.blocks == rows[2 := m.work.blocks[2]] && m.work.blocks[2].head == "g" + "b" + "b" + "b";
    assert |"g" + "b" + "b"| != |"g" + "b" + "b" + "b" + "b"|;
  }

  /** A slice that ends above a hole unmarked: filling the hole leaves a broken head below the cursor
      with nothing to mark it. */
  lemma SliceOverAHoleBreaksAHead() returns (steps: seq<Step>)
    ensures IsRun(Plain(), Fresh(0, 0), steps)
    ensures var db := Exec(Plain(), Fresh(0, 0), steps).work;
            2 in db.blocks && !Excused(db, 2) && !LinkedAt(Plain(), db.blocks, 2)
  {
    var hs, m0 := Plain(), Fresh(0, 0);
    var m: Machine;
    steps, m := PartlyReindexed(2);
    steps, m := Then(hs, m0, steps, m, Delete(1));
    assert m.work.blocks == map[0 := Row("0", 1, "b", "g" + "b")];
    steps, m := Then(hs, m0, steps, m, OpenSlice);
    steps, m := Then(hs, m0, steps, m, Redo("0"));
    assert m.work.blocks[2].head == "g" + "b";
    steps, m := Then(hs, m0, steps, m, EndSlice);
    steps, m := Then(hs, m0, steps, m, Index(1, "0"));
    assert m.work.blocks[1].head == "g" + "b" + "b" && |"g" + "b"| != |"g" + "b" + "b" + "b"|;
  }
}
