/**
 The indexer process (ops/lij-sp-index.py, run): an object that owns the open database, boots on
 what the last commit left, and works through passes with the source's own loops. Each method is
 proved against the functions of TweakPass and keeps the invariant of TweakIndex on both what the
 process sees and what is committed.
 */
module TweakIndexer {
  import opened Prelude
  import opened TweakIndex
  import opened TweakPass
  import opened TweakFills

  // ── Boot ─────────────────────────────────────────────────────────────────

  /** The writes of one start of the process, before its loop: the lowered start, the stamp of a
      fresh database, the armed re-index. */
  function Lowered(db: Db, startHeight: Option<nat>): Db {
    if startHeight.Some? && startHeight.value < db.start then Lower(db, startHeight.value) else db
  }

  function Stamped(db: Db, version: nat): Db {
    if db.blocks == map[] && db.stamp.None? then db.(stamp := Some(version)) else db
  }

  predicate Arms(db: Db, reindex: bool, version: nat) {
    reindex && db.reindex.None? && db.blocks != map[] && db.stamp != Some(version)
  }

  function Booted(db: Db, startHeight: Option<nat>, reindex: bool, version: nat): Db {
    var ready := Stamped(Lowered(db, startHeight), version);
    if Arms(ready, reindex, version) then Arm(ready) else ready
  }

  /** The parser may take over; and either the re-index that is armed is safe, which also mends a
      lowering that lost its marker, or the lowering is. */
  predicate BootSafe(db: Db, running: nat, startHeight: Option<nat>, reindex: bool, version: nat) {
    var ready := Stamped(Lowered(db, startHeight), version);
    && UpgradeSafe(db, running, version)
    && (if Arms(ready, reindex, version) then ArmSafe(ready)
        else startHeight.Some? && startHeight.value < db.start ==> LowerSafe(db))
  }

  lemma StampKeeps(hs: Hashing, db: Db, version: nat)
    ensures Sound(hs, Stamped(db, version), version) <==> Sound(hs, db, version)
  {
  }

  /** No later write of the boot repairs a take-over by the wrong parser. */
  lemma UpgradeLost(hs: Hashing, db: Db, running: nat, startHeight: Option<nat>, reindex: bool, version: nat)
    requires Sound(hs, db, running) && !UpgradeSafe(db, running, version)
    ensures !Sound(hs, Booted(db, startHeight, reindex, version), version)
  {
    var b := Booted(db, startHeight, reindex, version);
    assert b.blocks == db.blocks && b.reindex == db.reindex && b.stamp == db.stamp;
  }

  /** An armed re-index covers every row, so it excuses whatever the boot found. */
  lemma ArmCovers(hs: Hashing, db: Db, version: nat)
    requires Ordered(db) && db.reindex.None? && db.blocks != map[]
    requires forall h :: h in db.blocks ==> db.blocks[h].commit == hs.commit(h, db.blocks[h].hash, db.blocks[h].parser)
    ensures Sound(hs, Arm(db), version) <==> ArmSafe(db)
  {
    assert Top(db.blocks.Keys) in db.blocks;
    assert forall k :: k in db.blocks ==> k in db.blocks.Keys && InWindow(Arm(db), k);
  }

  /** A start of the process, whatever its settings, leaves a sound database sound if and only if
      the conditions hold. */
  lemma BootSoundIff(hs: Hashing, db: Db, running: nat, startHeight: Option<nat>, reindex: bool, version: nat)
    requires Sound(hs, db, running)
    ensures Sound(hs, Booted(db, startHeight, reindex, version), version)
            <==> BootSafe(db, running, startHeight, reindex, version)
  {
    var lowered := Lowered(db, startHeight);
    var ready := Stamped(lowered, version);
    if !UpgradeSafe(db, running, version) {
      UpgradeLost(hs, db, running, startHeight, reindex, version);
    } else if Arms(ready, reindex, version) {
      ArmCovers(hs, ready, version);
    } else {
      UpgradeSoundIff(hs, db, running, version);
      StampKeeps(hs, lowered, version);
      if lowered != db {
        LowerSoundIff(hs, db, version, startHeight.value);
      }
    }
  }

  // ── Lives of the process ─────────────────────────────────────────────────

  /** A start of the process is a run of the transition system: it sees what was committed, and each
      write is committed before the next. */
  lemma BootLeads(hs: Hashing, m: Machine, startHeight: Option<nat>, reindex: bool, version: nat)
    ensures var b := Booted(m.disk, startHeight, reindex, version);
            Leads(hs, m, Machine(b, b, version, None), false)
  {
    var a := Machine(m.disk, m.disk, version, None);
    LeadsByStep(hs, m, Crash(version));
    var lowered := Lowered(m.disk, startHeight);
    if lowered != m.disk {
      BootWrite(hs, m, a, LowerStart(startHeight.value));
      a := Machine(lowered, lowered, version, None);
    }
    var ready := Stamped(lowered, version);
    if ready != lowered {
      BootWrite(hs, m, a, StampFresh);
      a := Machine(ready, ready, version, None);
    }
    if Arms(ready, reindex, version) {
      BootWrite(hs, m, a, ArmReindex);
    }
  }

  lemma BootWrite(hs: Hashing, m: Machine, a: Machine, s: Step)
    requires Leads(hs, m, a, false) && a.slice.None? && Legal(a, s) && Apply(hs, a, s).slice.None?
    ensures var b := Apply(hs, a, s);
            Leads(hs, m, b.(disk := b.work), false)
  {
    var b := Apply(hs, a, s);
    LeadsByStep(hs, a, s);
    LeadsOn(hs, m, a, b, false, false);
    LeadsByStep(hs, b, Commit);
    LeadsOn(hs, m, b, b.(disk := b.work), false, false);
  }

  /** What a start makes of a new database: it is stamped with the running parser, whatever the settings. */
  lemma FirstBootStamps(start: nat, startHeight: Option<nat>, reindex: bool, version: nat)
    ensures var b := Booted(Db(map[], start, None, None, None), startHeight, reindex, version);
            && b.stamp == Some(version) && b.reindex.None? && b.blocks == map[]
            && b.start == (if startHeight.Some? && startHeight.value < start then startHeight.value else start)
  {
  }

  /** Stamped with the running parser, in memory and on disk, and no re-index under way. */
  predicate Own(m: Machine, version: nat) {
    && m.version == version && m.slice.None?
    && m.work.stamp == Some(version) && m.disk.stamp == Some(version)
    && m.work.reindex.None? && m.disk.reindex.None?
  }

  predicate OneParser(version: nat, steps: seq<Step>) {
    forall k :: 0 <= k < |steps| && steps[k].Crash? ==> steps[k].version == version
  }

  lemma StepKeepsOwn(hs: Hashing, m: Machine, s: Step, version: nat)
    requires Own(m, version) && Legal(m, s) && (s.Crash? ==> s.version == version)
    ensures Own(Apply(hs, m, s), version) && !s.ArmReindex? && !s.OpenSlice?
  {
  }

  lemma {:induction false} RunKeepsOwn(hs: Hashing, m: Machine, steps: seq<Step>, version: nat)
    requires Own(m, version) && IsRun(hs, m, steps) && OneParser(version, steps)
    ensures Own(Exec(hs, m, steps), version)
    ensures forall k :: 0 <= k < |steps| ==> !steps[k].ArmReindex? && !steps[k].OpenSlice?
    decreases |steps|
  {
    if steps != [] {
      StepKeepsOwn(hs, m, steps[0], version);
      forall k | 0 <= k < |steps[1..]| && steps[1..][k].Crash? ensures steps[1..][k].version == version {
        assert steps[1..][k] == steps[k + 1];
      }
      RunKeepsOwn(hs, Apply(hs, m, steps[0]), steps[1..], version);
      assert forall k :: 1 <= k < |steps| ==> steps[k] == steps[1..][k - 1];
    }
  }

  /** From a new database, after its first start and any run under one parser (passes, errors, crashes,
      further starts, lowered starts): the stamp names that parser, nothing was ever re-indexed, and a
      further start that lowers nothing, whether it asks for a re-index or not, leaves the database as
      it was. */
  lemma SameParserNeverReindexes(hs: Hashing, start: nat, first: Option<nat>, asked: bool, version: nat, steps: seq<Step>,
                                 startHeight: Option<nat>, reindex: bool)
    requires var b := Booted(Db(map[], start, None, None, None), first, asked, version);
             IsRun(hs, Machine(b, b, version, None), steps) && OneParser(version, steps)
    ensures var b := Booted(Db(map[], start, None, None, None), first, asked, version);
            var m := Exec(hs, Machine(b, b, version, None), steps);
            && m.work.stamp == Some(version) && m.disk.stamp == Some(version)
            && (forall k :: 0 <= k < |steps| ==> !steps[k].ArmReindex? && !steps[k].OpenSlice?)
            && (startHeight.None? || startHeight.value >= m.disk.start ==> Booted(m.disk, startHeight, reindex, version) == m.disk)
  {
    var b := Booted(Db(map[], start, None, None, None), first, asked, version);
    FirstBootStamps(start, first, asked, version);
    RunKeepsOwn(hs, Machine(b, b, version, None), steps, version);
  }

  /** A start under another parser re-indexes exactly when it is asked to, none is under way and there
      are rows: then from the start to the highest row. */
  lemma OtherParserReindexesIff(hs: Hashing, db: Db, version: nat, startHeight: Option<nat>, reindex: bool, next: nat)
    requires db.stamp == Some(version) && db.reindex.None? && next != version
    ensures var b := Booted(db, startHeight, reindex, next);
            && (b.reindex.Some? <==> reindex && db.blocks != map[])
            && (b.reindex.Some? ==> b.reindex.value.cursor == b.start && b.reindex.value.to == Top(db.blocks.Keys))
            && b.blocks == db.blocks && b.stamp == db.stamp
  {
  }

  /** What a slice comes to, in memory and on disk, from (db, disk, h) on. */
  type SliceEndings = (Db, Db, nat) -> (Outcome, Db)

  predicate BatchFull(done: nat, batch: nat)
    requires batch >= 1
  {
    done % batch == 0
  }

  /** One turn of a slice from `from`, as an equation on its endings. */
  ghost predicate SliceLaw(hs: Hashing, version: nat, node: Node, from: nat, last: nat, batch: nat, rest: SliceEndings, db: Db, disk: Db, h: nat)
    requires batch >= 1
  {
    from <= h ==>
      rest(db, disk, h) ==
      if h > last then (Outcome(db, true), disk)
      else match node.redo(h)
        case None => (Outcome(db, false), disk)
        case Some(hash) =>
          var next := IndexBlock(hs, db, h, hash, version);
          rest(next, if BatchFull(h + 1 - from, batch) then next else disk, h + 1)
  }

  ghost predicate SliceLaws(hs: Hashing, version: nat, node: Node, from: nat, last: nat, batch: nat, rest: SliceEndings)
    requires batch >= 1
  {
    forall db: Db, disk: Db, h: nat {:trigger SliceLaw(hs, version, node, from, last, batch, rest, db, disk, h)} ::
      SliceLaw(hs, version, node, from, last, batch, rest, db, disk, h)
  }

  lemma SliceOpens(hs: Hashing, m: Machine)
    requires MachineSound(hs, m) && m.work.reindex.Some?
    ensures MachineSound(hs, m.(slice := Some(m.work.reindex.value.cursor)))
    ensures m.work.start <= m.work.reindex.value.cursor <= m.work.reindex.value.to
  {
  }

  /** A row of a slice keeps the invariant, and so does a commit after it. */
  lemma RedoTurn(hs: Hashing, m: Machine, hash: string)
    requires MachineSound(hs, m) && Legal(m, Redo(hash))
    ensures var n := Apply(hs, m, Redo(hash));
            && n == Machine(IndexBlock(hs, m.work, m.slice.value, hash, m.version), m.disk, m.version, Some(m.slice.value + 1))
            && MachineSound(hs, n) && MachineSound(hs, n.(disk := n.work)) && n.work.reindex == m.work.reindex
  {
    RedoSound(hs, m, hash);
  }

  lemma SliceRest(hs: Hashing, db: Db, disk: Db, from: nat, last: nat, node: Node, batch: nat, version: nat) returns (rest: SliceEndings)
    requires batch >= 1
    ensures SliceLaws(hs, version, node, from, last, batch, rest)
    ensures rest(db, disk, from) == (RedoRows(hs, db, from, last, node, version), RedoDisk(hs, db, disk, from, last, node, batch, version, 0))
  {
    rest := (d: Db, k: Db, h: nat) =>
      (RedoRows(hs, d, h, last, node, version), RedoDisk(hs, d, k, h, last, node, batch, version, if h < from then 0 else h - from));
    forall d: Db, k: Db, h: nat ensures SliceLaw(hs, version, node, from, last, batch, rest, d, k, h) {
      if from <= h {
        SliceTurn(hs, d, k, h, from, last, node, batch, version);
      }
    }
  }

  lemma SliceTurn(hs: Hashing, db: Db, disk: Db, h: nat, from: nat, last: nat, node: Node, batch: nat, version: nat)
    requires batch >= 1 && from <= h
    ensures (RedoRows(hs, db, h, last, node, version), RedoDisk(hs, db, disk, h, last, node, batch, version, h - from)) ==
            if h > last then (Outcome(db, true), disk)
            else match node.redo(h)
              case None => (Outcome(db, false), disk)
              case Some(hash) =>
                var next := IndexBlock(hs, db, h, hash, version);
                (RedoRows(hs, next, h + 1, last, node, version),
                 RedoDisk(hs, next, if BatchFull(h + 1 - from, batch) then next else disk, h + 1, last, node, batch, version, h + 1 - from))
  {
    if h <= last && node.redo(h).Some? {
      var done := h - from;
      assert done + 1 == h + 1 - from;
    }
  }

  // ── The process ──────────────────────────────────────────────────────────

  class Indexer {
    const hs: Hashing
    const batch: nat
    var version: nat
    var work: Db
    var disk: Db

    ghost predicate Valid()
      reads this
    {
      batch >= 1 && Sound(hs, work, version) && Sound(hs, disk, version)
    }

    constructor (hs: Hashing, batch: nat, start: nat, version: nat)
      requires batch >= 1
      ensures Valid()
      ensures this.version == version && work == disk == Db(map[], start, None, None, None)
    {
      this.hs, this.batch, this.version := hs, batch, version;
      work := Db(map[], start, None, None, None);
      disk := Db(map[], start, None, None, None);
    }

    method Commit()
      requires Valid()
      modifies this`disk
      ensures Valid() && disk == work
    {
      disk := work;
    }

    /** The process starts, or starts again after a crash: it sees what was committed. */
    method Boot(startHeight: Option<nat>, reindex: bool, next: nat)
      modifies this
      ensures work == disk == Booted(old(disk), startHeight, reindex, next) && version == next
      ensures old(Valid()) ==>
                (Valid() <==> BootSafe(old(disk), old(version), startHeight, reindex, next))
    {
      if batch >= 1 && Sound(hs, disk, version) {
        BootSoundIff(hs, disk, version, startHeight, reindex, next);
      }
      work, version := disk, next;
      if startHeight.Some? && startHeight.value < work.start {
        work := Lower(work, startHeight.value);
        disk := work;
      }
      if work.blocks == map[] && work.stamp.None? {
        work := work.(stamp := Some(version));
        disk := work;
      }
      if reindex && work.reindex.None? && work.blocks != map[] && work.stamp != Some(version) {
        work := Arm(work);
        disk := work;
      }
    }

    /** The reorg check on the newest rows, six deep. */
    method CheckTop(node: Node) returns (ok: bool)
      requires Valid()
      modifies this`work, this`disk
      ensures Valid() && Outcome(work, ok) == ReorgCheck(old(work), node)
      ensures disk == if work != old(work) then work else old(disk)
    {
      if work.blocks == map[] {
        return true;
      }
      var top := Top(work.blocks.Keys);
      var h := CheckStart(work.start, top);
      while h <= top
        invariant work == old(work) && disk == old(disk) && h >= work.start
        invariant CheckFrom(work, node, h, top) == ReorgCheck(work, node)
        decreases top + 1 - h
      {
        if h in work.blocks {
          var answer := node.check(h);
          if answer.None? {
            return false;
          }
          if work.blocks[h].hash != answer.value {
            DeleteSound(hs, Machine(work, disk, version, None), h);
            work := DeleteFrom(work, h);
            Commit();
            return true;
          }
        }
        h := h + 1;
      }
      return true;
    }

    /** The forward and gap walk, committing every `batch` blocks. */
    method WalkList(todo: seq<nat>, node: Node) returns (ok: bool)
      requires Valid() && Ready(work, todo)
      modifies this`work, this`disk
      ensures Valid() && Outcome(work, ok) == Walk(hs, old(work), todo, node, version)
      ensures disk == WalkDisk(hs, old(work), old(disk), todo, node, batch, version, 0)
    {
      var i := 0;
      while i < |todo|
        invariant 0 <= i <= |todo|
        invariant Valid() && Ready(work, todo[i..])
        invariant Walk(hs, work, todo[i..], node, version) == Walk(hs, old(work), todo, node, version)
        invariant WalkDisk(hs, work, disk, todo[i..], node, batch, version, i) == WalkDisk(hs, old(work), old(disk), todo, node, batch, version, 0)
      {
        var h := todo[i];
        var answer := node.walk(h);
        if answer.None? {
          return false;
        }
        assert ReadyAt(work, todo[i..], 0);
        IndexSound(hs, Machine(work, disk, version, None), h, answer.value);
        ReadyRest(hs, work, todo[i..], answer.value, version);
        assert todo[i..][1..] == todo[i + 1..];
        work := IndexBlock(hs, work, h, answer.value, version);
        i := i + 1;
        if i % batch == 0 {
          Commit();
        }
      }
      return true;
    }

    /** The rows [w.cursor, last] of a slice, each replaced in place, committed when a batch is full. */
    method RedoLoop(w: Window, last: nat, node: Node, ghost rest: SliceEndings) returns (ok: bool)
      requires Valid() && work.reindex == Some(w) && w.cursor <= last <= w.to
      requires SliceLaws(hs, version, node, w.cursor, last, batch, rest)
      modifies this`work, this`disk
      ensures rest(old(work), old(disk), w.cursor) == (Outcome(work, ok), disk)
      ensures ok ==> MachineSound(hs, Machine(work, disk, version, Some(last + 1))) && work.reindex == Some(w)
      ensures !ok ==> Valid()
    {
      ghost var m := Machine(work, disk, version, Some(w.cursor));
      SliceOpens(hs, m.(slice := None));
      var h := w.cursor;
      while h <= last
        invariant w.cursor <= h <= last + 1 && work.reindex == Some(w)
        invariant m == Machine(work, disk, version, Some(h)) && MachineSound(hs, m)
        invariant rest(work, disk, h) == rest(old(work), old(disk), w.cursor)
        decreases last + 1 - h
      {
        assert SliceLaw(hs, version, node, w.cursor, last, batch, rest, work, disk, h);
        var answer := node.redo(h);
        if answer.None? {
          return false;
        }
        RedoTurn(hs, m, answer.value);
        work := IndexBlock(hs, work, h, answer.value, version);
        h := h + 1;
        if BatchFull(h - w.cursor, batch) {
          disk := work;
        }
        m := Machine(work, disk, version, Some(h));
      }
      assert SliceLaw(hs, version, node, w.cursor, last, batch, rest, work, disk, last + 1);
      return true;
    }

    /** One slice of the re-index: the cursor moves past it, or the re-index completes. The invariant
        is kept exactly when the slice's first row does not stand above a hole unmarked. */
    method RedoSlice(node: Node) returns (ok: bool)
      requires Valid() && work.reindex.Some?
      modifies this`work, this`disk
      ensures Outcome(work, ok) == ReindexSlice(hs, old(work), node, batch, version)
      ensures ok ==> disk == work && (Valid() <==> SliceSafe(old(work), batch))
      ensures !ok ==> var w := old(work).reindex.value;
                      disk == RedoDisk(hs, old(work), old(disk), w.cursor, SliceEnd(w, batch), node, batch, version, 0)
      ensures !ok ==> Valid()
    {
      SliceKeepsIff(hs, work, node, batch, version);
      var w := work.reindex.value;
      var last := SliceEnd(w, batch);
      ghost var rest := SliceRest(hs, work, disk, w.cursor, last, node, batch, version);
      ok := RedoLoop(w, last, node, rest);
      if ok {
        work := CloseSlice(work, last + 1, version);
        disk := work;
      }
    }

    /** Step 2b: every head from the marker up is chained again, in height order. A sound database stays
        sound exactly when every row above a hole is still to be rewritten. */
    method RelinkFromMarker()
      requires work.rechainFrom.Some?
      modifies this`work, this`disk
      ensures work == Relink(hs, old(work)) && disk == work
      ensures old(Sound(hs, work, version)) ==> (Sound(hs, work, version) <==> RelinkSafe(old(work)))
    {
      if Sound(hs, work, version) {
        RelinkKeepsIff(hs, work, version);
      }
      var h := work.rechainFrom.value;
      var hi := if work.blocks == map[] then 0 else Top(work.blocks.Keys) + 1;
      var prevHead := PrevHead(hs, work.blocks, h);
      while h < hi
        invariant work == old(work).(blocks := work.blocks) && disk == old(disk)
        invariant RelinkRows(hs, work.blocks, h, hi, prevHead) == Relink(hs, old(work)).blocks
        decreases hi - h
      {
        if h in work.blocks {
          var head := hs.link(prevHead, work.blocks[h].commit);
          work := work.(blocks := work.blocks[h := work.blocks[h].(head := head)]);
          prevHead := head;
        }
        h := h + 1;
      }
      work := work.(rechainFrom := None);
      disk := work;
    }

    /** Steps 2a and 2b of a pass. */
    method FinishPass(ahead: bool, gapLeft: bool, node: Node) returns (ok: bool)
      requires Valid() && disk == work
      modifies this`work, this`disk
      ensures Outcome(work, ok) == AfterWalk(hs, old(work), ahead, gapLeft, node, batch, version)
      ensures ok ==> disk == work
      ensures !ok ==> Valid() && old(work).reindex.Some? && !ahead && !ReindexSlice(hs, old(work), node, batch, version).ok
      ensures !ok ==> var w := old(work).reindex.value;
                      disk == RedoDisk(hs, old(work), old(work), w.cursor, SliceEnd(w, batch), node, batch, version, 0)
    {
      if work.reindex.Some? && !ahead {
        ok := RedoSlice(node);
        if !ok {
          return;
        }
      }
      if work.rechainFrom.Some? && !gapLeft {
        RelinkFromMarker();
      }
      return true;
    }

    /** One turn of the loop. A pass that finishes has committed what it did, and keeps the invariant
        exactly when it is safe; one that an error stops keeps it in any case, and leaves fewer rows than
        a batch uncommitted, or, where it committed nothing, fewer than a batch more than it found. */
    method RunPass(node: Node) returns (ok: bool)
      requires Valid()
      modifies this`work, this`disk
      ensures Outcome(work, ok) == Pass(hs, old(work), node, batch, version)
      ensures ok ==> disk == work && (Valid() <==> PassSafe(hs, old(work), node, batch, version))
      ensures !ok ==> Valid()
      ensures disk == PassDisk(hs, old(work), old(disk), node, batch, version)
      ensures BatchUnsaved(work, disk, |Unsaved(old(work), old(disk))|, old(disk), batch)
    {
      PassSoundIff(hs, work, node, batch, version);
      PassCommits(hs, work, disk, node, batch, version);
      ok := CheckTop(node);
      if !ok {
        return;
      }
      var ahead, below := Ahead(work, node.tip), Below(work, node.tip);
      var todo := Todo(work, node.tip, batch);
      TodoReady(work, node.tip, batch);
      ok := WalkList(todo, node);
      if !ok {
        return;
      }
      Commit();
      ok := FinishPass(ahead != [], |below| > 4 * batch, node);
    }
  }
}
