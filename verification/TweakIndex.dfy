/**
 The silent-payment tweak index (ops/lij-sp-index.py) as a transition system.

 The database maps heights to rows; each row carries a commitment and a chained head. Heads are
 written out of order (new tip blocks first, a lowered start filled from below, an in-place
 re-index) and repaired by a later re-link. `Step` lists the code's atomic writes, `Sound` is the
 invariant of every run, `StepSoundIff` says of each step exactly when it keeps it, and
 `UnsafeStepBreaks` that nothing weaker would do.
 */
module TweakIndex {
  import opened Prelude

  type Digest = string

  /** The hash functions, uninterpreted: `link` is chain_head, `commit` is spcommit_v1 of the
      tweaks that a parser version reads in block `hash`. */
  datatype Hashing = Hashing(
    genesis: Digest,
    link: (Digest, Digest) -> Digest,
    commit: (nat, string, nat) -> Digest)

  /** One row of the blocks table. `parser` is the version of the parser that computed it: a history
      variable, which the table itself does not store. */
  datatype Row = Row(hash: string, parser: nat, commit: Digest, head: Digest)

  /** The meta keys reindex_cursor and reindex_to, which are set and deleted together. */
  datatype Window = Window(cursor: nat, to: nat)

  datatype Db = Db(
    blocks: map<nat, Row>,
    start: nat,
    rechainFrom: Option<nat>,
    reindex: Option<Window>,
    stamp: Option<nat>)

  // ── Queries ──────────────────────────────────────────────────────────────

  predicate IsMax(keys: set<nat>, t: nat) {
    t in keys && forall k :: k in keys ==> k <= t
  }

  lemma MaxExists(keys: set<nat>)
    requires keys != {}
    ensures exists t :: IsMax(keys, t)
    decreases |keys|
  {
    var x :| x in keys;
    var rest := keys - {x};
    if rest == {} {
      assert keys == {x};
      assert IsMax(keys, x);
    } else {
      MaxExists(rest);
      var t :| IsMax(rest, t);
      assert forall k :: k in keys ==> k == x || k in rest;
      assert IsMax(keys, if t < x then x else t);
    }
  }

  /** SELECT MAX(height). */
  function Top(keys: set<nat>): (t: nat)
    requires keys != {}
    ensures t in keys
    ensures forall k :: k in keys ==> k <= t
  {
    MaxExists(keys);
    var t :| IsMax(keys, t);
    t
  }

  predicate HasPrev(blocks: map<nat, Row>, h: nat) {
    h > 0 && h - 1 in blocks
  }

  /** The head the row at `h` chains from: the row below it, or the genesis value. */
  function PrevHead(hs: Hashing, blocks: map<nat, Row>, h: nat): Digest {
    if HasPrev(blocks, h) then blocks[h - 1].head else hs.genesis
  }

  predicate LinkedAt(hs: Hashing, blocks: map<nat, Row>, h: nat)
    requires h in blocks
  {
    blocks[h].head == hs.link(PrevHead(hs, blocks, h), blocks[h].commit)
  }

  // ── Writes ───────────────────────────────────────────────────────────────

  /** index_block: the row is computed from the block the node names and chained from the row below. */
  function IndexBlock(hs: Hashing, db: Db, h: nat, hash: string, version: nat): Db {
    var commit := hs.commit(h, hash, version);
    var row := Row(hash, version, commit, hs.link(PrevHead(hs, db.blocks, h), commit));
    db.(blocks := db.blocks[h := row])
  }

  function DeleteFrom(db: Db, h: nat): Db {
    db.(blocks := map k | k in db.blocks && k < h :: db.blocks[k])
  }

  /** A lowered SP_START_HEIGHT: an older marker is kept. */
  function Lower(db: Db, n: nat): Db {
    db.(rechainFrom := if db.rechainFrom.None? then Some(db.start) else db.rechainFrom,
        start := n)
  }

  function Arm(db: Db): Db
    requires db.blocks != map[]
  {
    db.(reindex := Some(Window(db.start, Top(db.blocks.Keys))))
  }

  /** The end of a slice that re-indexed up to but not including `next`. */
  function CloseSlice(db: Db, next: nat, version: nat): Db
    requires db.reindex.Some?
  {
    if next <= db.reindex.value.to then
      db.(reindex := Some(Window(next, db.reindex.value.to)))
    else
      db.(rechainFrom := if db.rechainFrom.None? then Some(db.start) else db.rechainFrom,
          reindex := None,
          stamp := Some(version))
  }

  /** The re-link loop over the rows in [h, hi), in height order, chaining from `prev`. */
  function RelinkRows(hs: Hashing, blocks: map<nat, Row>, h: nat, hi: nat, prev: Digest): map<nat, Row>
    decreases hi - h
  {
    if h >= hi then blocks
    else if h !in blocks then RelinkRows(hs, blocks, h + 1, hi, prev)
    else
      var head := hs.link(prev, blocks[h].commit);
      RelinkRows(hs, blocks[h := blocks[h].(head := head)], h + 1, hi, head)
  }

  function Relink(hs: Hashing, db: Db): Db
    requires db.rechainFrom.Some?
  {
    var from := db.rechainFrom.value;
    var hi := if db.blocks == map[] then 0 else Top(db.blocks.Keys) + 1;
    db.(blocks := RelinkRows(hs, db.blocks, from, hi, PrevHead(hs, db.blocks, from)),
        rechainFrom := None)
  }

  // ── The transition system ────────────────────────────────────────────────

  /** `work` is what the process sees, `disk` what the last commit stored, `slice` the next height
      of a re-index slice under way in this pass. */
  datatype Machine = Machine(work: Db, disk: Db, version: nat, slice: Option<nat>)

  datatype Step =
    | Index(h: nat, hash: string)   // one block of the forward walk or of the gap walk
    | Delete(h: nat)                // the reorg check deletes a suffix
    | OpenSlice                     // a pass starts a re-index slice at the cursor
    | Redo(hash: string)            // one block of the slice
    | EndSlice                      // the cursor moves, or the re-index completes
    | RelinkHeads(tip: nat)         // the re-link, when no gap is left up to the tip
    | Commit
    | Abort                         // an RPC error ends the pass; what was written stays
    | Crash(version: nat)           // the process dies; the next one may run another parser
    | LowerStart(n: nat)            // boot with a lower SP_START_HEIGHT
    | StampFresh                    // boot on an empty, unstamped database
    | ArmReindex                    // boot with SP_REINDEX=1 on a database of another parser

  /** Every height from the start to the tip has a row; there may be rows above the tip. */
  predicate Full(db: Db, tip: nat) {
    forall h :: db.start <= h <= tip ==> h in db.blocks
  }

  /** The guards the code itself puts on each write. */
  predicate Legal(m: Machine, s: Step) {
    match s
    case Index(h, _) =>
      && m.slice.None?
      && h !in m.work.blocks
      && h >= m.work.start
      && (h == m.work.start || HasPrev(m.work.blocks, h))
    case Delete(h) => m.slice.None? && h >= m.work.start
    case OpenSlice => m.slice.None? && m.work.reindex.Some?
    case Redo(_) => m.slice.Some? && m.work.reindex.Some? && m.slice.value <= m.work.reindex.value.to
    case EndSlice => m.slice.Some? && m.work.reindex.Some? && m.slice.value > m.work.reindex.value.cursor
    case RelinkHeads(tip) => m.slice.None? && m.work.rechainFrom.Some? && Full(m.work, tip)
    case Commit => true
    case Abort => true
    case Crash(_) => true
    case LowerStart(n) => m.slice.None? && n < m.work.start
    case StampFresh => m.slice.None? && m.work.blocks == map[] && m.work.stamp.None?
    case ArmReindex =>
      && m.slice.None?
      && m.work.reindex.None?
      && m.work.blocks != map[]
      && m.work.stamp != Some(m.version)
  }

  function Apply(hs: Hashing, m: Machine, s: Step): Machine
    requires Legal(m, s)
  {
    match s
    case Index(h, hash) => m.(work := IndexBlock(hs, m.work, h, hash, m.version))
    case Delete(h) => m.(work := DeleteFrom(m.work, h))
    case OpenSlice => m.(slice := Some(m.work.reindex.value.cursor))
    case Redo(hash) =>
      m.(work := IndexBlock(hs, m.work, m.slice.value, hash, m.version),
         slice := Some(m.slice.value + 1))
    case EndSlice => m.(work := CloseSlice(m.work, m.slice.value, m.version), slice := None)
    case RelinkHeads(_) => m.(work := Relink(hs, m.work))
    case Commit => m.(disk := m.work)
    case Abort => m.(slice := None)
    case Crash(v) => Machine(m.disk, m.disk, v, None)
    case LowerStart(n) => m.(work := Lower(m.work, n))
    case StampFresh => m.(work := m.work.(stamp := Some(m.version)))
    case ArmReindex => m.(work := Arm(m.work))
  }

  // ── The invariant ────────────────────────────────────────────────────────

  predicate Marked(db: Db, h: nat) {
    db.rechainFrom.Some? && db.rechainFrom.value <= h
  }

  predicate InWindow(db: Db, h: nat) {
    db.reindex.Some? && db.reindex.value.cursor <= h <= db.reindex.value.to + 1
  }

  /** The heights whose link a marker excuses. */
  predicate Excused(db: Db, h: nat) {
    Marked(db, h) || InWindow(db, h)
  }

  predicate Ordered(db: Db) {
    && (forall h :: h in db.blocks ==> db.start <= h)
    && (db.rechainFrom.Some? ==> db.start <= db.rechainFrom.value)
    && (db.reindex.Some? ==> db.start <= db.reindex.value.cursor <= db.reindex.value.to)
  }

  /** A head that does not chain from the row below it is inside a marker's range. */
  predicate Chained(hs: Hashing, db: Db) {
    forall h {:trigger LinkedAt(hs, db.blocks, h)} ::
      h in db.blocks && !Excused(db, h) ==> LinkedAt(hs, db.blocks, h)
  }

  /** The row at `h` stands above a missing one. */
  predicate OverHole(db: Db, h: nat) {
    h in db.blocks && h > db.start && !HasPrev(db.blocks, h)
  }

  /** A row above a hole is excused, so filling the hole breaks no unexcused link. */
  predicate HolesExcused(db: Db) {
    forall h {:trigger OverHole(db, h)} :: h in db.blocks && OverHole(db, h) ==> Excused(db, h)
  }

  /** The last link of a re-index in progress is covered once it ends. */
  predicate WindowCovered(db: Db) {
    db.reindex.Some? && db.rechainFrom.Some? ==> db.rechainFrom.value <= db.reindex.value.to + 1
  }

  /** Outside a re-index a database stamped with `version` holds only rows of that parser. */
  predicate StampTrue(db: Db, version: nat) {
    db.reindex.None? && db.stamp == Some(version) ==> forall h :: h in db.blocks ==> db.blocks[h].parser == version
  }

  /** Which parser computed which rows; `next` is where the re-index stands. */
  predicate Provenance(hs: Hashing, db: Db, version: nat, next: nat) {
    && (forall h :: h in db.blocks ==> db.blocks[h].commit == hs.commit(h, db.blocks[h].hash, db.blocks[h].parser))
    && StampTrue(db, version)
    && (db.reindex.Some? ==>
          forall h :: h in db.blocks && !(next <= h <= db.reindex.value.to) ==> db.blocks[h].parser == version)
  }

  function CursorOf(db: Db): nat {
    if db.reindex.Some? then db.reindex.value.cursor else 0
  }

  predicate Sound(hs: Hashing, db: Db, version: nat) {
    && Ordered(db)
    && Chained(hs, db)
    && HolesExcused(db)
    && WindowCovered(db)
    && Provenance(hs, db, version, CursorOf(db))
  }

  /** The slice under way has re-indexed and chained [cursor, next). */
  predicate SliceSound(hs: Hashing, db: Db, version: nat, next: nat) {
    && db.reindex.Some?
    && db.reindex.value.cursor <= next <= db.reindex.value.to + 1
    && (forall h {:trigger h in db.blocks} :: db.reindex.value.cursor <= h < next ==> h in db.blocks)
    && (forall h {:trigger LinkedAt(hs, db.blocks, h)} ::
          db.reindex.value.cursor <= h < next ==> LinkedAt(hs, db.blocks, h))
    && Provenance(hs, db, version, next)
  }

  predicate MachineSound(hs: Hashing, m: Machine) {
    && Sound(hs, m.work, m.version)
    && Sound(hs, m.disk, m.version)
    && (m.slice.Some? ==> SliceSound(hs, m.work, m.version, m.slice.value))
  }

  // ── The five steps that can lose it, each with what it must find ─────────

  /** A lowered start: no older marker, or one that covers the old start, or no row there, or one
      that the re-index is still to rewrite. */
  predicate LowerSafe(db: Db) {
    || db.rechainFrom.None?
    || db.rechainFrom.value <= db.start
    || db.start !in db.blocks
    || (db.reindex.Some? && db.reindex.value.cursor == db.start)
  }

  /** An armed re-index: no re-link marker more than one above the highest row. */
  predicate ArmSafe(db: Db)
    requires db.blocks != map[]
  {
    db.rechainFrom.None? || db.rechainFrom.value <= Top(db.blocks.Keys) + 1
  }

  /** Another parser: during a re-index no row lies outside what is left of it; otherwise the stamp
      does not name that parser, or every row is its own. */
  predicate UpgradeSafe(db: Db, version: nat, next: nat) {
    || next == version
    || (if db.reindex.Some?
        then forall h :: h in db.blocks ==> db.reindex.value.cursor <= h <= db.reindex.value.to
        else db.stamp == Some(next) ==> forall h :: h in db.blocks ==> db.blocks[h].parser == next)
  }

  /** The end of a slice: its first row is at the start, or has a row below it, or is covered by the
      re-link marker there is then. */
  predicate EndSliceSafe(db: Db, next: nat)
    requires db.reindex.Some?
  {
    var w := db.reindex.value;
    || w.cursor == db.start
    || HasPrev(db.blocks, w.cursor)
    || Marked(db, w.cursor)
    || (next > w.to && db.rechainFrom.None?)
  }

  /** The re-link: every row above a hole is one the re-index is still to rewrite. */
  predicate RelinkSafe(db: Db) {
    forall h {:trigger OverHole(db, h)} :: h in db.blocks && OverHole(db, h) ==> InWindow(db, h)
  }

  predicate Safe(m: Machine, s: Step)
    requires Legal(m, s)
  {
    match s
    case LowerStart(_) => LowerSafe(m.work)
    case ArmReindex => ArmSafe(m.work)
    case Crash(v) => UpgradeSafe(m.disk, m.version, v)
    case EndSlice => EndSliceSafe(m.work, m.slice.value)
    case RelinkHeads(_) => RelinkSafe(m.work)
    case _ => true
  }

  // ── One lemma per kind of write ──────────────────────────────────────────

  /** Writing row `h` breaks at most the link of the row above it. */
  lemma LinksAfterWrite(hs: Hashing, db: Db, h: nat, hash: string, version: nat)
    ensures var b := IndexBlock(hs, db, h, hash, version).blocks;
            && LinkedAt(hs, b, h)
            && forall k {:trigger LinkedAt(hs, b, k)} ::
                 k in db.blocks && k != h && k != h + 1 && LinkedAt(hs, db.blocks, k) ==> LinkedAt(hs, b, k)
  {
  }

  lemma IndexSound(hs: Hashing, m: Machine, h: nat, hash: string)
    requires MachineSound(hs, m) && Legal(m, Index(h, hash))
    ensures MachineSound(hs, Apply(hs, m, Index(h, hash)))
  {
    var db := m.work;
    var db' := Apply(hs, m, Index(h, hash)).work;
    LinksAfterWrite(hs, db, h, hash, m.version);
    assert Chained(hs, db') by {
      assert h + 1 in db.blocks ==> OverHole(db, h + 1);
      forall k | k in db'.blocks && !Excused(db', k) ensures LinkedAt(hs, db'.blocks, k) {
        assert k == h || LinkedAt(hs, db.blocks, k);
      }
    }
    assert HolesExcused(db') by {
      forall k | k in db'.blocks && OverHole(db', k) ensures Excused(db', k) {
        assert k != h && OverHole(db, k);
      }
    }
  }

  lemma DeleteSound(hs: Hashing, m: Machine, h: nat)
    requires MachineSound(hs, m) && Legal(m, Delete(h))
    ensures MachineSound(hs, Apply(hs, m, Delete(h)))
  {
    var db := m.work;
    var db' := DeleteFrom(db, h);
    assert Chained(hs, db') by {
      forall k | k in db'.blocks && !Excused(db', k) ensures LinkedAt(hs, db'.blocks, k) {
        assert LinkedAt(hs, db.blocks, k);
      }
    }
    assert HolesExcused(db') by {
      forall k | k in db'.blocks && OverHole(db', k) ensures Excused(db', k) {
        assert OverHole(db, k);
      }
    }
  }

  lemma RedoChained(hs: Hashing, db: Db, h: nat, hash: string, version: nat)
    requires Chained(hs, db) && InWindow(db, h) && h <= db.reindex.value.to
    ensures Chained(hs, IndexBlock(hs, db, h, hash, version))
  {
    var db' := IndexBlock(hs, db, h, hash, version);
    LinksAfterWrite(hs, db, h, hash, version);
    forall k | k in db'.blocks && !Excused(db', k) ensures LinkedAt(hs, db'.blocks, k) {
      assert k != h && k != h + 1;
      assert k in db.blocks && !Excused(db, k);
    }
  }

  lemma RedoHoles(hs: Hashing, db: Db, h: nat, hash: string, version: nat)
    requires HolesExcused(db) && InWindow(db, h)
    ensures HolesExcused(IndexBlock(hs, db, h, hash, version))
  {
    var db' := IndexBlock(hs, db, h, hash, version);
    forall k | k in db'.blocks && OverHole(db', k) ensures Excused(db', k) {
      assert k == h || OverHole(db, k);
    }
  }

  lemma RedoSlice(hs: Hashing, db: Db, version: nat, h: nat, hash: string)
    requires SliceSound(hs, db, version, h) && h <= db.reindex.value.to
    ensures SliceSound(hs, IndexBlock(hs, db, h, hash, version), version, h + 1)
  {
    var w := db.reindex.value;
    var db' := IndexBlock(hs, db, h, hash, version);
    LinksAfterWrite(hs, db, h, hash, version);
    forall k | w.cursor <= k < h + 1 ensures k in db'.blocks && LinkedAt(hs, db'.blocks, k) {
      if k < h {
        assert k in db.blocks && LinkedAt(hs, db.blocks, k);
      }
    }
  }

  /** Re-indexing a row in place keeps the invariant, wherever the row stands. */
  lemma RedoSound(hs: Hashing, m: Machine, hash: string)
    requires MachineSound(hs, m) && Legal(m, Redo(hash))
    ensures MachineSound(hs, Apply(hs, m, Redo(hash)))
  {
    var h := m.slice.value;
    RedoChained(hs, m.work, h, hash, m.version);
    RedoHoles(hs, m.work, h, hash, m.version);
    RedoSlice(hs, m.work, m.version, h, hash);
  }

  lemma EndSliceChained(hs: Hashing, db: Db, version: nat, next: nat)
    requires Sound(hs, db, version) && SliceSound(hs, db, version, next) && next > db.reindex.value.cursor
    ensures var db' := CloseSlice(db, next, version);
            Ordered(db') && Chained(hs, db') && WindowCovered(db') && Provenance(hs, db', version, CursorOf(db'))
  {
  }

  lemma EndSliceHoles(hs: Hashing, db: Db, version: nat, next: nat)
    requires Sound(hs, db, version) && SliceSound(hs, db, version, next) && next > db.reindex.value.cursor
    ensures HolesExcused(CloseSlice(db, next, version)) <==> EndSliceSafe(db, next)
  {
    var c := db.reindex.value.cursor;
    var db' := CloseSlice(db, next, version);
    assert c in db.blocks;
    if EndSliceSafe(db, next) {
      forall k | k in db'.blocks && OverHole(db', k) ensures Excused(db', k) {
        assert OverHole(db, k);
        assert c < k <= next ==> k - 1 in db.blocks;
      }
    } else {
      assert OverHole(db', c) && !Excused(db', c);
    }
  }

  /** Moving the cursor, or completing the re-index, keeps the invariant exactly when the slice's
      first row does not stand above a hole unmarked. */
  lemma EndSliceSoundIff(hs: Hashing, m: Machine)
    requires MachineSound(hs, m) && Legal(m, EndSlice)
    ensures MachineSound(hs, Apply(hs, m, EndSlice)) <==> EndSliceSafe(m.work, m.slice.value)
  {
    EndSliceChained(hs, m.work, m.version, m.slice.value);
    EndSliceHoles(hs, m.work, m.version, m.slice.value);
  }

  /** The re-link rewrites heads only, and chains every row it passes that has a row below it. */
  lemma {:induction false} RelinkRowsLinks(hs: Hashing, blocks: map<nat, Row>, h: nat, hi: nat, prev: Digest)
    ensures var b := RelinkRows(hs, blocks, h, hi, prev);
            && b.Keys == blocks.Keys
            && (forall k :: k in b ==> b[k] == blocks[k].(head := b[k].head))
            && (forall k :: k in b && !(h <= k < hi) ==> b[k] == blocks[k])
            && (h < hi && h in b && prev == PrevHead(hs, blocks, h) ==> LinkedAt(hs, b, h))
            && (forall k {:trigger LinkedAt(hs, b, k)} :: k in b && h < k < hi && HasPrev(blocks, k) ==> LinkedAt(hs, b, k))
    decreases hi - h
  {
    if h < hi {
      if h !in blocks {
        RelinkRowsLinks(hs, blocks, h + 1, hi, prev);
      } else {
        var head := hs.link(prev, blocks[h].commit);
        var next := blocks[h := blocks[h].(head := head)];
        assert forall k {:trigger HasPrev(next, k)} :: HasPrev(next, k) == HasPrev(blocks, k);
        RelinkRowsLinks(hs, next, h + 1, hi, head);
        var b := RelinkRows(hs, next, h + 1, hi, head);
        assert b == RelinkRows(hs, blocks, h, hi, prev);
        assert next.Keys == blocks.Keys;
        assert b[h] == next[h];
        assert PrevHead(hs, b, h) == PrevHead(hs, blocks, h);
      }
    }
  }

  /** A re-link changes heads only, at or above its marker. */
  lemma RelinkShape(hs: Hashing, db: Db)
    requires db.rechainFrom.Some?
    ensures var db' := Relink(hs, db);
            && db' == db.(blocks := db'.blocks, rechainFrom := None) && db'.blocks.Keys == db.blocks.Keys
            && (forall k :: k in db.blocks ==> k in db'.blocks && db'.blocks[k] == db.blocks[k].(head := db'.blocks[k].head))
            && (forall k :: k in db.blocks && k < db.rechainFrom.value ==> db'.blocks[k] == db.blocks[k])
            && (forall k {:trigger HasPrev(db'.blocks, k)} :: HasPrev(db'.blocks, k) == HasPrev(db.blocks, k))
            && (forall k {:trigger OverHole(db', k)} :: OverHole(db', k) == OverHole(db, k))
  {
    var from := db.rechainFrom.value;
    var hi := if db.blocks == map[] then 0 else Top(db.blocks.Keys) + 1;
    RelinkRowsLinks(hs, db.blocks, from, hi, PrevHead(hs, db.blocks, from));
    var db' := Relink(hs, db);
    assert forall k :: k in db'.blocks <==> k in db.blocks.Keys;
  }

  lemma RelinkChains(hs: Hashing, db: Db)
    requires Ordered(db) && Chained(hs, db) && RelinkSafe(db) && db.rechainFrom.Some?
    ensures Chained(hs, Relink(hs, db))
  {
    var from := db.rechainFrom.value;
    var hi := if db.blocks == map[] then 0 else Top(db.blocks.Keys) + 1;
    RelinkRowsLinks(hs, db.blocks, from, hi, PrevHead(hs, db.blocks, from));
    RelinkShape(hs, db);
    var db' := Relink(hs, db);
    assert forall k :: k in db.blocks ==> k in db.blocks.Keys && k < hi;
    forall k | k in db'.blocks && !Excused(db', k) ensures LinkedAt(hs, db'.blocks, k) {
      assert !InWindow(db, k);
      if k < from {
        assert LinkedAt(hs, db.blocks, k);
        assert HasPrev(db.blocks, k) ==> db'.blocks[k - 1] == db.blocks[k - 1];
      } else if k > from {
        assert !OverHole(db, k);
      }
    }
  }

  /** The re-link keeps the invariant exactly when every row above a hole is still to be rewritten. */
  lemma RelinkKeepsIff(hs: Hashing, db: Db, version: nat)
    requires Sound(hs, db, version) && db.rechainFrom.Some?
    ensures Sound(hs, Relink(hs, db), version) <==> RelinkSafe(db)
  {
    var db' := Relink(hs, db);
    RelinkShape(hs, db);
    if RelinkSafe(db) {
      RelinkChains(hs, db);
      forall k | k in db'.blocks && OverHole(db', k) ensures Excused(db', k) {
        assert OverHole(db, k);
      }
    } else {
      var k :| k in db.blocks && OverHole(db, k) && !InWindow(db, k);
      assert OverHole(db', k) && !Excused(db', k);
    }
  }

  lemma RelinkSoundIff(hs: Hashing, m: Machine, tip: nat)
    requires MachineSound(hs, m) && Legal(m, RelinkHeads(tip))
    ensures MachineSound(hs, Apply(hs, m, RelinkHeads(tip))) <==> RelinkSafe(m.work)
  {
    RelinkKeepsIff(hs, m.work, m.version);
  }

  /** A lowered start keeps the invariant exactly when a row at the old start is still excused. */
  lemma LowerSoundIff(hs: Hashing, db: Db, version: nat, n: nat)
    requires Sound(hs, db, version) && n < db.start
    ensures Sound(hs, Lower(db, n), version) <==> LowerSafe(db)
  {
    var db' := Lower(db, n);
    var s := db.start;
    assert !HasPrev(db'.blocks, s);
    if !LowerSafe(db) {
      assert OverHole(db', s) && !Excused(db', s);
    } else {
      assert Chained(hs, db') by {
        forall k | k in db'.blocks && !Excused(db', k) ensures LinkedAt(hs, db'.blocks, k) {
          assert !Excused(db, k);
        }
      }
      assert HolesExcused(db') by {
        forall k | k in db'.blocks && OverHole(db', k) ensures Excused(db', k) {
          assert k == s || OverHole(db, k);
        }
      }
    }
  }

  /** Arming a re-index keeps the invariant exactly when no marker lies more than one above the rows. */
  lemma ArmSoundIff(hs: Hashing, db: Db, version: nat)
    requires Sound(hs, db, version) && db.reindex.None? && db.blocks != map[]
    ensures Sound(hs, Arm(db), version) <==> ArmSafe(db)
  {
    var db' := Arm(db);
    assert Top(db.blocks.Keys) in db.blocks;
    assert forall k :: k in db.blocks ==> k in db.blocks.Keys && k <= Top(db.blocks.Keys);
    assert forall k :: !Excused(db', k) ==> !Excused(db, k);
  }

  /** Another parser may take over exactly when no stamp and no half-done re-index would then be
      taken for its own work. */
  lemma UpgradeSoundIff(hs: Hashing, db: Db, version: nat, next: nat)
    requires Sound(hs, db, version)
    ensures Sound(hs, db, next) <==> UpgradeSafe(db, version, next)
  {
    if next != version && db.reindex.Some? && Sound(hs, db, next) {
      forall h | h in db.blocks ensures db.reindex.value.cursor <= h <= db.reindex.value.to {
        assert db.blocks[h].parser == next || db.reindex.value.cursor <= h <= db.reindex.value.to;
      }
    }
  }

  // ── Every run ────────────────────────────────────────────────────────────

  /** Each step keeps the invariant if and only if it is safe. Only a lowered start, an armed
      re-index, a change of parser, the end of a slice and a re-link can be unsafe. */
  lemma StepSoundIff(hs: Hashing, m: Machine, s: Step)
    requires MachineSound(hs, m) && Legal(m, s)
    ensures MachineSound(hs, Apply(hs, m, s)) <==> Safe(m, s)
  {
    match s
    case Index(h, hash) => IndexSound(hs, m, h, hash);
    case Delete(h) => DeleteSound(hs, m, h);
    case OpenSlice =>
    case Redo(hash) => RedoSound(hs, m, hash);
    case EndSlice => EndSliceSoundIff(hs, m);
    case RelinkHeads(tip) => RelinkSoundIff(hs, m, tip);
    case Commit =>
    case Abort =>
    case Crash(v) => UpgradeSoundIff(hs, m.disk, m.version, v);
    case LowerStart(n) => LowerSoundIff(hs, m.work, m.version, n);
    case StampFresh =>
    case ArmReindex => ArmSoundIff(hs, m.work, m.version);
  }

  /** A run: every step is legal where it is taken. */
  predicate IsRun(hs: Hashing, m: Machine, steps: seq<Step>)
    decreases |steps|
  {
    steps == [] || (Legal(m, steps[0]) && IsRun(hs, Apply(hs, m, steps[0]), steps[1..]))
  }

  function Exec(hs: Hashing, m: Machine, steps: seq<Step>): Machine
    requires IsRun(hs, m, steps)
    decreases |steps|
  {
    if steps == [] then m else Exec(hs, Apply(hs, m, steps[0]), steps[1..])
  }

  /** Every step of the run is safe where it is taken. */
  predicate SafeRun(hs: Hashing, m: Machine, steps: seq<Step>)
    requires IsRun(hs, m, steps)
    decreases |steps|
  {
    steps == [] || (Safe(m, steps[0]) && SafeRun(hs, Apply(hs, m, steps[0]), steps[1..]))
  }

  lemma {:induction false} RunsCompose(hs: Hashing, m: Machine, a: seq<Step>, b: seq<Step>)
    requires IsRun(hs, m, a) && IsRun(hs, Exec(hs, m, a), b)
    ensures IsRun(hs, m, a + b) && Exec(hs, m, a + b) == Exec(hs, Exec(hs, m, a), b)
    ensures SafeRun(hs, m, a) && SafeRun(hs, Exec(hs, m, a), b) ==> SafeRun(hs, m, a + b)
    decreases |a|
  {
    if a == [] {
      assert a + b == b;
    } else {
      RunsCompose(hs, Apply(hs, m, a[0]), a[1..], b);
      assert (a + b)[1..] == a[1..] + b;
    }
  }

  /** Some run leads from `m` to `n`; a safe one, if `safe`. */
  ghost predicate Leads(hs: Hashing, m: Machine, n: Machine, safe: bool) {
    exists steps :: IsRun(hs, m, steps) && Exec(hs, m, steps) == n && (safe ==> SafeRun(hs, m, steps))
  }

  lemma LeadsByStep(hs: Hashing, m: Machine, s: Step)
    requires Legal(m, s)
    ensures Leads(hs, m, Apply(hs, m, s), Safe(m, s))
  {
    var steps, n := [s], Apply(hs, m, s);
    assert steps[1..] == [];
    assert IsRun(hs, n, []) && SafeRun(hs, n, []) && Exec(hs, n, []) == n;
    assert IsRun(hs, m, steps);
    assert Exec(hs, m, steps) == n && SafeRun(hs, m, steps) == Safe(m, s);
  }

  lemma LeadsNowhere(hs: Hashing, m: Machine, safe: bool)
    ensures Leads(hs, m, m, safe)
  {
    assert IsRun(hs, m, []) && SafeRun(hs, m, []) && Exec(hs, m, []) == m;
  }

  lemma LeadsOn(hs: Hashing, a: Machine, b: Machine, c: Machine, safe: bool, safe': bool)
    requires Leads(hs, a, b, safe) && Leads(hs, b, c, safe')
    ensures Leads(hs, a, c, safe && safe')
  {
    var s1 :| IsRun(hs, a, s1) && Exec(hs, a, s1) == b && (safe ==> SafeRun(hs, a, s1));
    var s2 :| IsRun(hs, b, s2) && Exec(hs, b, s2) == c && (safe' ==> SafeRun(hs, b, s2));
    RunsCompose(hs, a, s1, s2);
  }

  /** A new database, and a process running parser `version` on it. */
  function Fresh(start: nat, version: nat): Machine {
    var db := Db(map[], start, None, None, None);
    Machine(db, db, version, None)
  }

  lemma {:induction false} RunKeepsSound(hs: Hashing, m: Machine, steps: seq<Step>)
    requires MachineSound(hs, m) && IsRun(hs, m, steps) && SafeRun(hs, m, steps)
    ensures MachineSound(hs, Exec(hs, m, steps))
    decreases |steps|
  {
    if steps != [] {
      StepSoundIff(hs, m, steps[0]);
      RunKeepsSound(hs, Apply(hs, m, steps[0]), steps[1..]);
    }
  }

  /** In every safe run from a new database, work and disk alike: a head that does not chain from
      the row below it lies inside a marker's range. */
  lemma EveryRunChained(hs: Hashing, start: nat, version: nat, steps: seq<Step>)
    requires IsRun(hs, Fresh(start, version), steps) && SafeRun(hs, Fresh(start, version), steps)
    ensures var m := Exec(hs, Fresh(start, version), steps);
            Chained(hs, m.work) && Chained(hs, m.disk)
  {
    RunKeepsSound(hs, Fresh(start, version), steps);
  }

  // ── What the finished index says ─────────────────────────────────────────

  /** chain_head folded over a list of commitments from the genesis value. */
  function Fold(hs: Hashing, commits: seq<Digest>): Digest {
    if commits == [] then hs.genesis
    else hs.link(Fold(hs, commits[..|commits| - 1]), commits[|commits| - 1])
  }

  /** Every row above the start has the row below it. */
  predicate NoHole(db: Db) {
    forall h {:trigger HasPrev(db.blocks, h)} :: h in db.blocks && h > db.start ==> HasPrev(db.blocks, h)
  }

  lemma {:induction false} NoHoleDown(db: Db, h: nat, k: nat)
    requires Ordered(db) && NoHole(db)
    requires h in db.blocks && db.start <= k <= h
    ensures k in db.blocks
    decreases h
  {
    if k < h {
      assert HasPrev(db.blocks, h);
      NoHoleDown(db, h - 1, k);
    }
  }

  predicate Quiet(db: Db) {
    NoHole(db) && db.rechainFrom.None? && db.reindex.None?
  }

  /** The commitments of the rows from the start up to `h`. */
  ghost function Commits(db: Db, h: nat): seq<Digest>
    requires Ordered(db) && NoHole(db) && h in db.blocks
  {
    seq(h + 1 - db.start, i requires 0 <= i < h + 1 - db.start =>
      NoHoleDown(db, h, db.start + i);
      db.blocks[db.start + i].commit)
  }

  lemma {:induction false} QuietHeadIsFold(hs: Hashing, db: Db, h: nat)
    requires Ordered(db) && Chained(hs, db) && Quiet(db) && h in db.blocks
    ensures db.blocks[h].head == Fold(hs, Commits(db, h))
    decreases h
  {
    var cs := Commits(db, h);
    var n := |cs| - 1;
    assert cs[n] == db.blocks[h].commit;
    assert !Excused(db, h);
    assert LinkedAt(hs, db.blocks, h);
    if h == db.start {
      assert cs[..n] == [];
      assert !HasPrev(db.blocks, h);
    } else {
      assert HasPrev(db.blocks, h);
      QuietHeadIsFold(hs, db, h - 1);
      assert cs[..n] == Commits(db, h - 1);
    }
  }

  /** The finished index does not depend on how it came about: two databases with no marker and no
      hole, the same start and the same commitments hold the same heads. */
  lemma QuietHeadsAgree(hs: Hashing, a: Db, b: Db, h: nat)
    requires Ordered(a) && Chained(hs, a) && Quiet(a) && h in a.blocks
    requires Ordered(b) && Chained(hs, b) && Quiet(b) && h in b.blocks
    requires a.start == b.start
    requires forall k :: k in a.blocks && k in b.blocks && k <= h ==> a.blocks[k].commit == b.blocks[k].commit
    ensures a.blocks[h].head == b.blocks[h].head
  {
    QuietHeadIsFold(hs, a, h);
    QuietHeadIsFold(hs, b, h);
    forall i | 0 <= i < h + 1 - a.start
      ensures Commits(a, h)[i] == Commits(b, h)[i]
    {
      NoHoleDown(a, h, a.start + i);
      NoHoleDown(b, h, a.start + i);
    }
    assert Commits(a, h) == Commits(b, h);
  }

  /** Every run, whatever its order of walks, backfills, re-indexes, reorgs, crashes and re-links,
      that ends with no marker and no hole has folded every head over the commitments from the start. */
  lemma EveryRunFolds(hs: Hashing, start: nat, version: nat, steps: seq<Step>)
    requires IsRun(hs, Fresh(start, version), steps) && SafeRun(hs, Fresh(start, version), steps)
    requires Quiet(Exec(hs, Fresh(start, version), steps).work)
    ensures var db := Exec(hs, Fresh(start, version), steps).work;
            Ordered(db) && forall h :: h in db.blocks ==> db.blocks[h].head == Fold(hs, Commits(db, h))
  {
    RunKeepsSound(hs, Fresh(start, version), steps);
    var db := Exec(hs, Fresh(start, version), steps).work;
    forall h | h in db.blocks ensures db.blocks[h].head == Fold(hs, Commits(db, h)) {
      QuietHeadIsFold(hs, db, h);
    }
  }

  /** The part of the invariant that the stamp needs. */
  predicate MachineStamped(hs: Hashing, m: Machine) {
    && Ordered(m.work) && Ordered(m.disk)
    && (m.slice.Some? ==> m.work.reindex.Some? && m.work.reindex.value.cursor <= m.slice.value <= m.work.reindex.value.to + 1)
    && Provenance(hs, m.work, m.version, if m.slice.Some? then m.slice.value else CursorOf(m.work))
    && Provenance(hs, m.disk, m.version, CursorOf(m.disk))
  }

  /** The parser only moves forward, and not during a re-index. */
  predicate ForwardOnly(m: Machine, s: Step) {
    s.Crash? ==> s.version == m.version || (s.version > m.version && m.disk.reindex.None?)
  }

  predicate ForwardRun(hs: Hashing, m: Machine, steps: seq<Step>)
    requires IsRun(hs, m, steps)
    decreases |steps|
  {
    steps == [] || (ForwardOnly(m, steps[0]) && ForwardRun(hs, Apply(hs, m, steps[0]), steps[1..]))
  }

  predicate StampsBehind(m: Machine) {
    && (m.work.stamp.Some? ==> m.work.stamp.value <= m.version)
    && (m.disk.stamp.Some? ==> m.disk.stamp.value <= m.version)
  }

  lemma WriteKeepsProvenance(hs: Hashing, db: Db, h: nat, hash: string, version: nat, next: nat)
    requires Provenance(hs, db, version, next)
    ensures Provenance(hs, IndexBlock(hs, db, h, hash, version), version, if h == next then next + 1 else next)
  {
  }

  /** The writes of a pass. */
  lemma WorkKeepsStamp(hs: Hashing, m: Machine, s: Step)
    requires MachineStamped(hs, m) && Legal(m, s)
    requires s.Index? || s.Redo? || s.EndSlice? || s.RelinkHeads?
    ensures MachineStamped(hs, Apply(hs, m, s))
  {
    match s
    case Index(h, hash) => WriteKeepsProvenance(hs, m.work, h, hash, m.version, CursorOf(m.work));
    case Redo(hash) => WriteKeepsProvenance(hs, m.work, m.slice.value, hash, m.version, m.slice.value);
    case EndSlice =>
    case RelinkHeads(_) => RelinkShape(hs, m.work);
  }

  /** The writes of a boot, and a deleted suffix. */
  lemma BootKeepsStamp(hs: Hashing, m: Machine, s: Step)
    requires MachineStamped(hs, m) && StampsBehind(m) && Legal(m, s) && ForwardOnly(m, s)
    requires s.Delete? || s.LowerStart? || s.Crash? || s.StampFresh?
    ensures MachineStamped(hs, Apply(hs, m, s)) && StampsBehind(Apply(hs, m, s))
  {
  }

  lemma ArmKeepsStamp(hs: Hashing, m: Machine)
    requires MachineStamped(hs, m) && Legal(m, ArmReindex)
    ensures MachineStamped(hs, Apply(hs, m, ArmReindex))
  {
    assert Top(m.work.blocks.Keys) in m.work.blocks;
    assert forall k :: k in m.work.blocks ==> k in m.work.blocks.Keys;
  }

  lemma StepKeepsStamp(hs: Hashing, m: Machine, s: Step)
    requires MachineStamped(hs, m) && StampsBehind(m) && Legal(m, s) && ForwardOnly(m, s)
    ensures MachineStamped(hs, Apply(hs, m, s)) && StampsBehind(Apply(hs, m, s))
  {
    if s.Index? || s.Redo? || s.EndSlice? || s.RelinkHeads? {
      WorkKeepsStamp(hs, m, s);
    } else if s.ArmReindex? {
      ArmKeepsStamp(hs, m);
    } else if s.Delete? || s.LowerStart? || s.Crash? || s.StampFresh? {
      BootKeepsStamp(hs, m, s);
    }
  }

  lemma {:induction false} RunKeepsStamp(hs: Hashing, m: Machine, steps: seq<Step>)
    requires MachineStamped(hs, m) && StampsBehind(m) && IsRun(hs, m, steps) && ForwardRun(hs, m, steps)
    ensures MachineStamped(hs, Exec(hs, m, steps))
    decreases |steps|
  {
    if steps != [] {
      StepKeepsStamp(hs, m, steps[0]);
      RunKeepsStamp(hs, Apply(hs, m, steps[0]), steps[1..]);
    }
  }

  /** In every run whose parser only moves forward and not during a re-index, safe or not: outside a
      re-index a database stamped with the running parser holds only rows that parser computed. */
  lemma EveryRunStampTrue(hs: Hashing, start: nat, version: nat, steps: seq<Step>)
    requires IsRun(hs, Fresh(start, version), steps) && ForwardRun(hs, Fresh(start, version), steps)
    ensures var m := Exec(hs, Fresh(start, version), steps);
            forall db :: db in {m.work, m.disk} && db.reindex.None? && db.stamp == Some(m.version) ==>
              forall h :: h in db.blocks ==>
                db.blocks[h].parser == m.version && db.blocks[h].commit == hs.commit(h, db.blocks[h].hash, m.version)
  {
    RunKeepsStamp(hs, Fresh(start, version), steps);
  }
}
