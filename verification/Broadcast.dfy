/**
 The broadcast queue (lij/lij-core/src/broadcaster.rs): a fast queue with three attempts, a slow
 ring of parked transactions, and two paths that may answer anything. Passes may overlap, because
 the locks are released while a path is asked.
 */
module Broadcast {
  import opened Prelude
  import opened Text

  const MAX_ATTEMPTS: nat := 3
  const PARK_INTERVAL: nat := 30
  const MAX_STRIKES: nat := 10

  // ── Reading an endpoint's words ──────────────────────────────────────────

  datatype ErrClass = AlreadyKnown | Conflict | Transient

  predicate Known(message: string) {
    Contains(Lower(message), "already") || Contains(Lower(message), "duplicate")
  }

  predicate Clashes(message: string) {
    || Contains(Lower(message), "missingorspent") || Contains(Lower(message), "bad-txns")
    || Contains(Lower(message), "mempool-conflict") || Contains(Lower(message), "conflict")
  }

  function Classify(message: string): ErrClass {
    if Known(message) then AlreadyKnown
    else if Clashes(message) then Conflict
    else Transient
  }

  const JOIN: string := " | independent: "
  const COOP: string := "cooperative: "

  /** A word of one piece with a letter that neither prefix has. */
  predicate Apart(word: string, c: char) {
    ' ' !in word && |word| >= 2 && c in word && c !in "independent:" && c !in "cooperative:"
  }

  lemma NothingSaid()
    ensures !Known("")
  {
  }

  lemma LowerOfJoin(m: string, e: string)
    ensures Lower(m + JOIN + e) == Lower(m) + [' '] + ("|" + [' '] + ("independent:" + [' '] + Lower(e)))
  {
    LowerAppend(m + JOIN, e);
    LowerAppend(m, JOIN);
    assert Lower(JOIN) == JOIN;
  }

  lemma WordInJoin(m: string, e: string, word: string, c: char)
    requires Apart(word, c)
    ensures Contains(Lower(m + JOIN + e), word) <==> Contains(Lower(m), word) || Contains(Lower(e), word)
  {
    var lm, le := Lower(m), Lower(e);
    LowerOfJoin(m, e);
    ContainsSplit(lm, ' ', "|" + [' '] + ("independent:" + [' '] + le), word);
    ContainsSplit("|", ' ', "independent:" + [' '] + le, word);
    ContainsSplit("independent:", ' ', le, word);
    if Contains("independent:", word) {
      ContainsChar("independent:", word, c);
    }
  }

  lemma WordInCoop(e: string, word: string, c: char)
    requires Apart(word, c)
    ensures Contains(Lower(COOP + e), word) <==> Contains(Lower(e), word)
  {
    LowerAppend(COOP, e);
    assert Lower(COOP) == COOP;
    assert Lower(COOP + e) == "cooperative:" + [' '] + Lower(e);
    ContainsSplit("cooperative:", ' ', Lower(e), word);
    if Contains("cooperative:", word) {
      ContainsChar("cooperative:", word, c);
    }
  }

  /** A joined message reads as known exactly when one of its parts does. */
  lemma JoinedKnown(m: string, e: string)
    ensures Known(m + JOIN + e) <==> Known(m) || Known(e)
    ensures Known(COOP + e) <==> Known(e)
  {
    KnownWords();
    WordInJoin(m, e, "already", 'y');
    WordInJoin(m, e, "duplicate", 'u');
    WordInCoop(e, "already", 'y');
    WordInCoop(e, "duplicate", 'u');
  }

  lemma KnownWords()
    ensures Apart("already", 'y') && Apart("duplicate", 'u')
  {
  }

  lemma JoinedClashes(m: string, e: string)
    ensures Clashes(m + JOIN + e) <==> Clashes(m) || Clashes(e)
    ensures Clashes(COOP + e) <==> Clashes(e)
  {
    ClashWords();
    LongClashWords();
    WordInJoin(m, e, "missingorspent", 'm');
    WordInJoin(m, e, "bad-txns", 'b');
    WordInJoin(m, e, "mempool-conflict", 'f');
    WordInJoin(m, e, "conflict", 'f');
    WordInCoop(e, "missingorspent", 'm');
    WordInCoop(e, "bad-txns", 'b');
    WordInCoop(e, "mempool-conflict", 'f');
    WordInCoop(e, "conflict", 'f');
  }

  lemma ClashWords()
    ensures Apart("bad-txns", 'b') && Apart("conflict", 'f')
  {
    assert "bad-txns"[0] == 'b' && "conflict"[3] == 'f';
  }

  lemma LongClashWords()
    ensures Apart("missingorspent", 'm') && Apart("mempool-conflict", 'f')
  {
    FirstLongWord();
    assert "mempool-conflict"[11] == 'f';
  }

  lemma FirstLongWord()
    ensures Apart("missingorspent", 'm')
  {
    assert "missingorspent"[0] == 'm';
  }

  // ── One turn of one transaction ──────────────────────────────────────────

  /** Transactions are told apart by their ids alone. */
  type Txid = nat

  datatype Tx = Tx(id: Txid, attempts: nat, lastError: Option<string>, strikes: nat)

  datatype Failure = Failure(id: Txid, attempts: nat, message: string)

  /** A path's answer: not asked or unavailable, accepted, or refused with words. */
  datatype Answer = Absent | Accepted | Refused(message: string)

  /** The broadcaster's lists, with the history of where entries went. `log` is every failure ever
      reported; `shown` of them have been taken by the page. */
  datatype Books = Books(queue: seq<Tx>, parked: seq<Tx>, log: seq<Failure>, shown: nat,
                         enqueued: multiset<Txid>, sent: multiset<Txid>, retired: multiset<Txid>, conflicted: multiset<Txid>)

  function Fresh(id: Txid): Tx {
    Tx(id, 0, None, 0)
  }

  function OrElse(o: Option<string>, d: string): string {
    if o.Some? then o.value else d
  }

  /** last_error after the cooperative path, then after the independent one. */
  function Heard(last: Option<string>, coop: Answer, indep: Answer): Option<string> {
    var afterCoop := if coop.Refused? then Some(COOP + coop.message) else last;
    if indep.Refused? then Some(OrElse(afterCoop, "") + JOIN + indep.message) else afterCoop
  }

  predicate FastDone(t: Tx, coop: Answer, indep: Answer) {
    coop.Accepted? || indep.Accepted? || Known(OrElse(Heard(t.lastError, coop, indep), ""))
  }

  /** A fast transaction's turn, and whether the pass goes on. */
  function FastTurn(b: Books, t: Tx, coop: Answer, indep: Answer): (Books, bool) {
    if FastDone(t, coop, indep) then (b.(sent := b.sent + multiset{t.id}), true)
    else
      var u := t.(attempts := t.attempts + 1, lastError := Heard(t.lastError, coop, indep));
      if u.attempts >= MAX_ATTEMPTS then
        (b.(log := b.log + [Failure(u.id, u.attempts, OrElse(u.lastError, "no path available"))], parked := b.parked + [u]), true)
      else (b.(queue := b.queue + [u]), false)
  }

  /** try_paths_once. */
  function TryPaths(coop: Answer, indep: Answer): Result<()> {
    if coop.Accepted? || (coop.Refused? && Known(COOP + coop.message)) then Ok(())
    else
      var said := if coop.Refused? then Some(COOP + coop.message) else None;
      match indep
      case Accepted => Ok(())
      case Refused(e) => Err(if said.Some? then said.value + JOIN + e else "independent: " + e)
      case Absent => Err(OrElse(said, "no path available"))
  }

  /** A parked transaction after a refusal: a conflict is a strike. */
  function Struck(t: Tx, message: string): Tx {
    t.(lastError := Some(message), strikes := if Classify(message) == Conflict then t.strikes + 1 else t.strikes)
  }

  /** A parked transaction's turn. */
  function SlowTurn(b: Books, t: Tx, coop: Answer, indep: Answer): Books {
    match TryPaths(coop, indep)
    case Ok(_) => b.(retired := b.retired + multiset{t.id})
    case Err(message) =>
      var u := Struck(t, message);
      if u.strikes > t.strikes && u.strikes >= MAX_STRIKES then
        b.(log := b.log + [Failure(u.id, u.attempts, "CONFLICT (permanent): " + message)],
           conflicted := b.conflicted + multiset{t.id})
      else b.(parked := b.parked + [u])
  }

  // ── The accounts ─────────────────────────────────────────────────────────

  function One(a: Txid, x: Txid): nat {
    if a == x then 1 else 0
  }

  /** How many entries of a list are of transaction `x`. */
  function Count(s: seq<Tx>, x: Txid): nat {
    if s == [] then 0 else Count(s[..|s| - 1], x) + One(s[|s| - 1].id, x)
  }

  function Reports(s: seq<Failure>, x: Txid): nat {
    if s == [] then 0 else Reports(s[..|s| - 1], x) + One(s[|s| - 1].id, x)
  }

  predicate FastOk(t: Tx) {
    t.attempts < MAX_ATTEMPTS && t.strikes == 0 && !Known(OrElse(t.lastError, ""))
  }

  predicate SlowOk(t: Tx) {
    t.attempts == MAX_ATTEMPTS && t.strikes < MAX_STRIKES
  }

  /** With `fast` and `slow` entries of `x` in the hands of passes: each entry of `x` ever enqueued
      is in exactly one place, and the failures reported for `x` are one for each entry that was
      parked and one more for each that was retired as conflicted. */
  ghost predicate Balanced(b: Books, x: Txid, fast: nat, slow: nat) {
    && b.enqueued[x] == Count(b.queue, x) + Count(b.parked, x) + fast + slow + b.sent[x] + b.retired[x] + b.conflicted[x]
    && Reports(b.log, x) == Count(b.parked, x) + slow + b.retired[x] + 2 * b.conflicted[x]
  }

  ghost predicate Tidy(b: Books) {
    && b.shown <= |b.log|
    && (forall t :: t in b.queue ==> FastOk(t))
    && (forall t :: t in b.parked ==> SlowOk(t))
  }

  lemma {:induction false} CountPop(s: seq<Tx>, x: Txid)
    requires s != []
    ensures Count(s, x) == One(s[0].id, x) + Count(s[1..], x)
    decreases |s|
  {
    if |s| > 1 {
      var n := |s| - 1;
      CountPop(s[..n], x);
      assert s[..n][1..] == s[1..][..n - 1];
    }
  }

  lemma CountPush(s: seq<Tx>, t: Tx, x: Txid)
    ensures Count(s + [t], x) == Count(s, x) + One(t.id, x)
  {
    assert (s + [t])[..|s|] == s;
  }

  lemma ReportsPush(s: seq<Failure>, f: Failure, x: Txid)
    ensures Reports(s + [f], x) == Reports(s, x) + One(f.id, x)
  {
    assert (s + [f])[..|s|] == s;
  }

  lemma ParkBalances(b: Books, u: Tx, f: Failure, x: Txid, fast: nat, slow: nat)
    requires Balanced(b, x, fast + One(u.id, x), slow) && f.id == u.id
    ensures Balanced(b.(log := b.log + [f], parked := b.parked + [u]), x, fast, slow)
  {
    CountPush(b.parked, u, x);
    ReportsPush(b.log, f, x);
  }

  lemma RequeueBalances(b: Books, u: Tx, x: Txid, fast: nat, slow: nat)
    requires Balanced(b, x, fast + One(u.id, x), slow)
    ensures Balanced(b.(queue := b.queue + [u]), x, fast, slow)
  {
    CountPush(b.queue, u, x);
  }

  lemma FastTurnBalances(b: Books, t: Tx, coop: Answer, indep: Answer, x: Txid, fast: nat, slow: nat)
    requires Balanced(b, x, fast + One(t.id, x), slow)
    ensures Balanced(FastTurn(b, t, coop, indep).0, x, fast, slow)
  {
    if !FastDone(t, coop, indep) {
      var u := t.(attempts := t.attempts + 1, lastError := Heard(t.lastError, coop, indep));
      if u.attempts >= MAX_ATTEMPTS {
        ParkBalances(b, u, Failure(u.id, u.attempts, OrElse(u.lastError, "no path available")), x, fast, slow);
      } else {
        RequeueBalances(b, u, x, fast, slow);
      }
    }
  }

  lemma SlowTurnBalances(b: Books, t: Tx, coop: Answer, indep: Answer, x: Txid, fast: nat, slow: nat)
    requires Balanced(b, x, fast, slow + One(t.id, x))
    ensures Balanced(SlowTurn(b, t, coop, indep), x, fast, slow)
  {
    match TryPaths(coop, indep)
    case Ok(_) =>
    case Err(message) =>
      var u := Struck(t, message);
      CountPush(b.parked, u, x);
      ReportsPush(b.log, Failure(u.id, u.attempts, "CONFLICT (permanent): " + message), x);
  }

  lemma TurnsTidy(b: Books, t: Tx, coop: Answer, indep: Answer)
    requires Tidy(b)
    ensures FastOk(t) ==> Tidy(FastTurn(b, t, coop, indep).0)
    ensures SlowOk(t) ==> Tidy(SlowTurn(b, t, coop, indep))
  {
  }

  // ── What settles a transaction ───────────────────────────────────────────

  predicate SaysKnown(a: Answer) {
    a.Refused? && Known(a.message)
  }

  /** A fast entry is done exactly when some path accepts it or says it is already known: the
      earlier words that its message accumulates never decide it. */
  lemma FastDoneIff(t: Tx, coop: Answer, indep: Answer)
    requires FastOk(t)
    ensures FastDone(t, coop, indep) <==> coop.Accepted? || indep.Accepted? || SaysKnown(coop) || SaysKnown(indep)
  {
    NothingSaid();
    if coop.Refused? {
      JoinedKnown("", coop.message);
    }
    if indep.Refused? {
      JoinedKnown(OrElse(if coop.Refused? then Some(COOP + coop.message) else t.lastError, ""), indep.message);
    }
  }

  /** A parked entry is retired exactly when a path accepts it or the cooperative one knows it. */
  lemma SlowRetiresIff(coop: Answer, indep: Answer)
    ensures TryPaths(coop, indep).Ok? <==> coop.Accepted? || indep.Accepted? || SaysKnown(coop)
  {
    if coop.Refused? {
      JoinedKnown("", coop.message);
    }
  }

  /** The documented rule, acceptance or already known on either path retires, is met exactly unless
      the independent path alone says the transaction is known. */
  lemma RetiresAsDocumentedIff(coop: Answer, indep: Answer)
    ensures (TryPaths(coop, indep).Ok? <==> coop.Accepted? || indep.Accepted? || SaysKnown(coop) || SaysKnown(indep))
            <==> !(SaysKnown(indep) && !coop.Accepted? && !SaysKnown(coop))
  {
    SlowRetiresIff(coop, indep);
  }

  lemma WordAfterIndependent(e: string, word: string, c: char)
    requires Apart(word, c)
    ensures Contains(Lower("independent: " + e), word) <==> Contains(Lower(e), word)
  {
    LowerAppend("independent: ", e);
    assert Lower("independent: ") == "independent: ";
    assert Lower("independent: " + e) == "independent:" + [' '] + Lower(e);
    ContainsSplit("independent:", ' ', Lower(e), word);
    if Contains("independent:", word) {
      ContainsChar("independent:", word, c);
    }
  }

  lemma IndependentKnown(e: string)
    ensures Known("independent: " + e) <==> Known(e)
  {
    KnownWords();
    WordAfterIndependent(e, "already", 'y');
    WordAfterIndependent(e, "duplicate", 'u');
  }

  lemma IndependentClashes(e: string)
    ensures Clashes("independent: " + e) <==> Clashes(e)
  {
    ClashWords();
    LongClashWords();
    WordAfterIndependent(e, "missingorspent", 'm');
    WordAfterIndependent(e, "bad-txns", 'b');
    WordAfterIndependent(e, "mempool-conflict", 'f');
    WordAfterIndependent(e, "conflict", 'f');
  }

  const UNHEARD: string := "no path available"

  lemma UnheardIsTransient()
    ensures Classify(UNHEARD) == Transient
  {
    UnheardIsLower();
    UnheardUnknown();
    UnheardNoConflict();
  }

  lemma UnheardIsLower()
    ensures Lower(UNHEARD) == UNHEARD
  {
  }

  lemma UnheardUnknown()
    ensures !Contains(UNHEARD, "already") && !Contains(UNHEARD, "duplicate")
  {
    UnheardLacks("already", 'y');
    UnheardLacks("duplicate", 'u');
  }

  lemma UnheardNoConflict()
    ensures !Contains(UNHEARD, "missingorspent") && !Contains(UNHEARD, "bad-txns")
    ensures !Contains(UNHEARD, "mempool-conflict") && !Contains(UNHEARD, "conflict")
  {
    UnheardLacks("bad-txns", 'd');
    UnheardLacks("conflict", 'f');
    UnheardNoLongWord();
  }

  lemma UnheardNoLongWord()
    ensures !Contains(UNHEARD, "missingorspent") && !Contains(UNHEARD, "mempool-conflict")
  {
    assert "missingorspent"[0] == 'm' && "mempool-conflict"[0] == 'm';
    UnheardLacks("missingorspent", 'm');
    UnheardLacks("mempool-conflict", 'm');
  }

  lemma UnheardLacks(word: string, c: char)
    requires c in word && c !in UNHEARD
    ensures !Contains(UNHEARD, word)
  {
    if Contains(UNHEARD, word) {
      ContainsChar(UNHEARD, word, c);
    }
  }

  predicate SaysConflict(a: Answer) {
    a.Refused? && Clashes(a.message)
  }

  /** The answers that retire a parked entry, and those that are a strike against it. */
  predicate Retires(coop: Answer, indep: Answer) {
    coop.Accepted? || indep.Accepted? || SaysKnown(coop)
  }

  predicate Strikes(coop: Answer, indep: Answer) {
    && !coop.Accepted? && !indep.Accepted?
    && !SaysKnown(coop) && !SaysKnown(indep)
    && (SaysConflict(coop) || SaysConflict(indep))
  }

  /** A message that repeats each refusal's own words; with none, what is said when nobody was heard. */
  predicate Tells(message: string, coop: Answer, indep: Answer) {
    && (coop.Refused? ==> Contains(message, coop.message))
    && (indep.Refused? ==> Contains(message, indep.message))
    && (!coop.Refused? && !indep.Refused? ==> message == UNHEARD)
  }

  lemma ContainsPart(a: string, word: string, b: string)
    ensures Contains(a + word + b, word)
  {
    assert (a + word + b)[|a|..|a| + |word|] == word;
    assert OccursAt(a + word + b, word, |a|);
  }

  lemma RefusalTells(coop: Answer, indep: Answer)
    requires !Retires(coop, indep)
    ensures TryPaths(coop, indep).Err? && Tells(TryPaths(coop, indep).message, coop, indep)
  {
    SlowRetiresIff(coop, indep);
    var message := TryPaths(coop, indep).message;
    if coop.Refused? {
      ContainsPart(COOP, coop.message, if indep.Refused? then JOIN + indep.message else "");
      assert message == COOP + coop.message + (if indep.Refused? then JOIN + indep.message else "");
    }
    if indep.Refused? {
      var before := if coop.Refused? then COOP + coop.message + JOIN else "independent: ";
      ContainsPart(before, indep.message, "");
      assert message == before + indep.message + "";
    }
  }

  /** What is heard is a conflict exactly when it is a strike by the answers' own words. */
  lemma StrikeIff(coop: Answer, indep: Answer)
    requires !Retires(coop, indep)
    ensures TryPaths(coop, indep).Err? && (Classify(TryPaths(coop, indep).message) == Conflict <==> Strikes(coop, indep))
  {
    SlowRetiresIff(coop, indep);
    if coop.Refused? {
      JoinedKnown("", coop.message);
      JoinedClashes("", coop.message);
      if indep.Refused? {
        JoinedKnown(COOP + coop.message, indep.message);
        JoinedClashes(COOP + coop.message, indep.message);
      }
    } else if indep.Refused? {
      IndependentKnown(indep.message);
      IndependentClashes(indep.message);
    } else {
      UnheardIsTransient();
    }
  }

  /** Where a parked entry's turn leaves it, by the two answers' own words. It is retired exactly when a
      path accepts it or the cooperative one knows it. It gets a strike exactly when no path accepts,
      neither says known, and some refusal says conflict; on the tenth it is retired as conflicted, and
      that is reported. Otherwise it is parked again with its strikes, whatever was heard. */
  lemma SlowTurnExact(b: Books, t: Tx, coop: Answer, indep: Answer) returns (message: string)
    ensures !Retires(coop, indep) ==> Tells(message, coop, indep)
    ensures var strikes := if Strikes(coop, indep) then t.strikes + 1 else t.strikes;
            SlowTurn(b, t, coop, indep) ==
            if Retires(coop, indep) then b.(retired := b.retired + multiset{t.id})
            else if Strikes(coop, indep) && strikes >= MAX_STRIKES then
              b.(conflicted := b.conflicted + multiset{t.id},
                 log := b.log + [Failure(t.id, t.attempts, "CONFLICT (permanent): " + message)])
            else b.(parked := b.parked + [t.(lastError := Some(message), strikes := strikes)])
  {
    SlowRetiresIff(coop, indep);
    message := "";
    if !Retires(coop, indep) {
      RefusalTells(coop, indep);
      StrikeIff(coop, indep);
      message := TryPaths(coop, indep).message;
    }
  }

  /** An answer that only the independent path knows parks the entry again, with no strike, so it never
      leaves the ring on that answer. */
  lemma KnownToIndependentStaysParked(b: Books, t: Tx, coop: Answer, indep: Answer)
    requires SaysKnown(indep) && !coop.Accepted? && !SaysKnown(coop)
    ensures exists message :: SlowTurn(b, t, coop, indep) == b.(parked := b.parked + [t.(lastError := Some(message))])
  {
    var message := SlowTurnExact(b, t, coop, indep);
    assert SlowTurn(b, t, coop, indep) == b.(parked := b.parked + [t.(lastError := Some(message))]);
  }

  // ── The turns of one parked entry ────────────────────────────────────────

  /** The entry after one turn, if it is still parked. */
  function StillParked(t: Tx, answers: (Answer, Answer)): Option<Tx> {
    var parked := SlowTurn(EMPTY, t, answers.0, answers.1).parked;
    if parked == [] then None else Some(parked[0])
  }

  function AfterTurns(t: Tx, turns: seq<(Answer, Answer)>): Option<Tx>
    decreases |turns|
  {
    if turns == [] then Some(t)
    else
      match StillParked(t, turns[0])
      case None => None
      case Some(u) => AfterTurns(u, turns[1..])
  }

  function StrikesIn(turns: seq<(Answer, Answer)>): nat {
    if turns == [] then 0 else (if Strikes(turns[0].0, turns[0].1) then 1 else 0) + StrikesIn(turns[1..])
  }

  /** A parked entry is still in the ring exactly as long as no answer retired it and its strikes are
      fewer than ten; and they are the strikes it was given. */
  lemma {:induction false} StaysParkedIff(t: Tx, turns: seq<(Answer, Answer)>)
    requires t.strikes < MAX_STRIKES
    ensures var r := AfterTurns(t, turns);
            && (r.Some? <==> (forall k :: 0 <= k < |turns| ==> !Retires(turns[k].0, turns[k].1)) && t.strikes + StrikesIn(turns) < MAX_STRIKES)
            && (r.Some? ==> r.value.(lastError := None) == t.(lastError := None, strikes := t.strikes + StrikesIn(turns)))
    decreases |turns|
  {
    if turns != [] {
      var message := SlowTurnExact(EMPTY, t, turns[0].0, turns[0].1);
      var u := StillParked(t, turns[0]);
      if u.Some? {
        StaysParkedIff(u.value, turns[1..]);
        assert forall k :: 1 <= k < |turns| ==> turns[k] == turns[1..][k - 1];
      }
    }
  }

  // ── A fast entry's turn ──────────────────────────────────────────────────

  /** Words for what was heard this time, after what was heard before. */
  predicate TellsAlso(last: Option<string>, now: Option<string>, coop: Answer, indep: Answer) {
    && (coop.Refused? ==> now.Some? && Contains(now.value, coop.message))
    && (indep.Refused? ==> now.Some? && Contains(now.value, indep.message))
    && (!coop.Refused? && !indep.Refused? ==> now == last)
  }

  lemma HeardTells(last: Option<string>, coop: Answer, indep: Answer)
    ensures TellsAlso(last, Heard(last, coop, indep), coop, indep)
  {
    if coop.Refused? {
      var after := if indep.Refused? then JOIN + indep.message else "";
      ContainsPart(COOP, coop.message, after);
      assert Heard(last, coop, indep).value == COOP + coop.message + after;
    }
    if indep.Refused? {
      var before := OrElse(if coop.Refused? then Some(COOP + coop.message) else last, "") + JOIN;
      ContainsPart(before, indep.message, "");
      assert Heard(last, coop, indep).value == before + indep.message + "";
    }
  }

  /** Where a fast entry's turn leaves it, by the two answers' own words: done when a path accepts it or
      says it is known; else, at the third attempt, parked and reported, and the pass goes on; else at
      the end of the queue with one attempt more, and the pass stops. */
  lemma FastTurnExact(b: Books, t: Tx, coop: Answer, indep: Answer) returns (heard: Option<string>)
    requires FastOk(t)
    ensures TellsAlso(t.lastError, heard, coop, indep)
    ensures var u := t.(attempts := t.attempts + 1, lastError := heard);
            FastTurn(b, t, coop, indep) ==
            if coop.Accepted? || indep.Accepted? || SaysKnown(coop) || SaysKnown(indep) then (b.(sent := b.sent + multiset{t.id}), true)
            else if t.attempts == MAX_ATTEMPTS - 1 then
              (b.(parked := b.parked + [u], log := b.log + [Failure(t.id, MAX_ATTEMPTS, OrElse(heard, UNHEARD))]), true)
            else (b.(queue := b.queue + [u]), false)
  {
    FastDoneIff(t, coop, indep);
    HeardTells(t.lastError, coop, indep);
    heard := Heard(t.lastError, coop, indep);
  }

  // ── Overlapping passes ───────────────────────────────────────────────────

  /** What a pass holds: nothing, the rest of the slow ring it drained, or at most one fast entry. */
  datatype Hand = Idle | Slow(batch: seq<Tx>) | Fast(tx: Option<Tx>)

  datatype Machine = Machine(books: Books, rounds: nat, hands: seq<Hand>)

  datatype Step =
    | Broadcast(ids: seq<Txid>)
    | EnqueueRaw(id: Txid)
    | TakeFailures
    | Start(pass: nat)
    | SlowStep(pass: nat, coop: Answer, indep: Answer)
    | SlowEnd(pass: nat)
    | Pop(pass: nat)
    | FastStep(pass: nat, coop: Answer, indep: Answer)

  function FastIn(h: Hand, x: Txid): nat {
    if h.Fast? && h.tx.Some? then One(h.tx.value.id, x) else 0
  }

  function SlowIn(h: Hand, x: Txid): nat {
    if h.Slow? then Count(h.batch, x) else 0
  }

  function FastHeld(hands: seq<Hand>, x: Txid): nat {
    if hands == [] then 0 else FastHeld(hands[..|hands| - 1], x) + FastIn(hands[|hands| - 1], x)
  }

  function SlowHeld(hands: seq<Hand>, x: Txid): nat {
    if hands == [] then 0 else SlowHeld(hands[..|hands| - 1], x) + SlowIn(hands[|hands| - 1], x)
  }

  lemma {:induction false} HandsUpdate(hands: seq<Hand>, i: nat, h: Hand, x: Txid)
    requires i < |hands|
    ensures FastHeld(hands[i := h], x) + FastIn(hands[i], x) == FastHeld(hands, x) + FastIn(h, x)
    ensures SlowHeld(hands[i := h], x) + SlowIn(hands[i], x) == SlowHeld(hands, x) + SlowIn(h, x)
    decreases |hands|
  {
    var n := |hands| - 1;
    if i == n {
      assert hands[i := h][..n] == hands[..n];
    } else {
      HandsUpdate(hands[..n], i, h, x);
      assert hands[i := h][..n] == hands[..n][i := h];
    }
  }

  function Push(b: Books, id: Txid): Books {
    b.(queue := b.queue + [Fresh(id)], enqueued := b.enqueued + multiset{id})
  }

  function PushAll(b: Books, ids: seq<Txid>): Books
    decreases |ids|
  {
    if ids == [] then b else PushAll(Push(b, ids[0]), ids[1..])
  }

  predicate Queued(b: Books, id: Txid) {
    exists i :: 0 <= i < |b.queue| && b.queue[i].id == id
  }

  predicate Legal(m: Machine, s: Step) {
    match s
    case Start(p) => p < |m.hands| && m.hands[p].Idle?
    case SlowStep(p, _, _) => p < |m.hands| && m.hands[p].Slow? && m.hands[p].batch != []
    case SlowEnd(p) => p < |m.hands| && m.hands[p].Slow? && m.hands[p].batch == []
    case Pop(p) => p < |m.hands| && m.hands[p].Fast? && m.hands[p].tx.None?
    case FastStep(p, _, _) => p < |m.hands| && m.hands[p].Fast? && m.hands[p].tx.Some?
    case _ => true
  }

  function Apply(m: Machine, s: Step): Machine
    requires Legal(m, s)
  {
    var b := m.books;
    match s
    case Broadcast(ids) => m.(books := PushAll(b, ids))
    case EnqueueRaw(id) => if Queued(b, id) then m else m.(books := Push(b, id))
    case TakeFailures => m.(books := b.(shown := |b.log|))
    case Start(p) =>
      if m.rounds % PARK_INTERVAL == 0
      then Machine(b.(parked := []), m.rounds + 1, m.hands[p := Slow(b.parked)])
      else Machine(b, m.rounds + 1, m.hands[p := Fast(None)])
    case SlowStep(p, coop, indep) =>
      var batch := m.hands[p].batch;
      m.(books := SlowTurn(b, batch[0], coop, indep), hands := m.hands[p := Slow(batch[1..])])
    case SlowEnd(p) => m.(hands := m.hands[p := Fast(None)])
    case Pop(p) =>
      if b.queue == [] then m.(hands := m.hands[p := Idle])
      else m.(books := b.(queue := b.queue[1..]), hands := m.hands[p := Fast(Some(b.queue[0]))])
    case FastStep(p, coop, indep) =>
      var r := FastTurn(b, m.hands[p].tx.value, coop, indep);
      m.(books := r.0, hands := m.hands[p := if r.1 then Fast(None) else Idle])
  }

  ghost predicate HandOk(h: Hand) {
    match h
    case Idle => true
    case Slow(batch) => forall t :: t in batch ==> SlowOk(t)
    case Fast(tx) => tx.Some? ==> FastOk(tx.value)
  }

  ghost predicate BalancedFor(m: Machine, x: Txid) {
    Balanced(m.books, x, FastHeld(m.hands, x), SlowHeld(m.hands, x))
  }

  ghost predicate HandsOk(hands: seq<Hand>) {
    forall i :: 0 <= i < |hands| ==> HandOk(hands[i])
  }

  /** The accounts balance with what the passes hold. */
  ghost predicate Accounted(m: Machine) {
    (forall x :: BalancedFor(m, x)) && Tidy(m.books) && HandsOk(m.hands)
  }

  lemma FreshOk(id: Txid)
    ensures FastOk(Fresh(id))
  {
  }

  lemma PushBalances(b: Books, id: Txid, x: Txid, fast: nat, slow: nat)
    requires Balanced(b, x, fast, slow)
    ensures Balanced(Push(b, id), x, fast, slow)
  {
  }

  lemma {:induction false} PushAllBalances(b: Books, ids: seq<Txid>, x: Txid, fast: nat, slow: nat)
    requires Balanced(b, x, fast, slow)
    ensures Balanced(PushAll(b, ids), x, fast, slow)
    ensures Tidy(b) ==> Tidy(PushAll(b, ids))
    decreases |ids|
  {
    if ids != [] {
      FreshOk(ids[0]);
      PushBalances(b, ids[0], x, fast, slow);
      PushAllBalances(Push(b, ids[0]), ids[1..], x, fast, slow);
    }
  }

  lemma StepBalances(m: Machine, s: Step, x: Txid)
    requires Legal(m, s) && BalancedFor(m, x)
    ensures BalancedFor(Apply(m, s), x)
  {
    var b := m.books;
    match s
    case Broadcast(ids) => PushAllBalances(b, ids, x, FastHeld(m.hands, x), SlowHeld(m.hands, x));
    case EnqueueRaw(id) => PushBalances(b, id, x, FastHeld(m.hands, x), SlowHeld(m.hands, x));
    case TakeFailures =>
    case Start(p) =>
      HandsUpdate(m.hands, p, Slow(b.parked), x);
      HandsUpdate(m.hands, p, Fast(None), x);
    case SlowStep(p, coop, indep) => SlowStepBalances(m, p, coop, indep, x);
    case SlowEnd(p) => HandsUpdate(m.hands, p, Fast(None), x);
    case Pop(p) => PopBalances(m, p, x);
    case FastStep(p, coop, indep) => FastStepBalances(m, p, coop, indep, x);
  }

  lemma SlowStepBalances(m: Machine, p: nat, coop: Answer, indep: Answer, x: Txid)
    requires Legal(m, SlowStep(p, coop, indep)) && BalancedFor(m, x)
    ensures BalancedFor(Apply(m, SlowStep(p, coop, indep)), x)
  {
    var batch := m.hands[p].batch;
    HandsUpdate(m.hands, p, Slow(batch[1..]), x);
    CountPop(batch, x);
    var hands := m.hands[p := Slow(batch[1..])];
    SlowTurnBalances(m.books, batch[0], coop, indep, x, FastHeld(hands, x), SlowHeld(hands, x));
  }

  lemma PopBalances(m: Machine, p: nat, x: Txid)
    requires Legal(m, Pop(p)) && BalancedFor(m, x)
    ensures BalancedFor(Apply(m, Pop(p)), x)
  {
    var q := m.books.queue;
    HandsUpdate(m.hands, p, Idle, x);
    if q != [] {
      CountPop(q, x);
      HandsUpdate(m.hands, p, Fast(Some(q[0])), x);
    }
  }

  lemma FastStepBalances(m: Machine, p: nat, coop: Answer, indep: Answer, x: Txid)
    requires Legal(m, FastStep(p, coop, indep)) && BalancedFor(m, x)
    ensures BalancedFor(Apply(m, FastStep(p, coop, indep)), x)
  {
    var t := m.hands[p].tx.value;
    var h := if FastTurn(m.books, t, coop, indep).1 then Fast(None) else Idle;
    HandsUpdate(m.hands, p, h, x);
    var hands := m.hands[p := h];
    FastTurnBalances(m.books, t, coop, indep, x, FastHeld(hands, x), SlowHeld(hands, x));
  }

  lemma StepTidy(m: Machine, s: Step)
    requires Accounted(m) && Legal(m, s)
    ensures Tidy(Apply(m, s).books) && HandsOk(Apply(m, s).hands)
  {
    match s
    case Broadcast(ids) =>
      assert BalancedFor(m, 0);
      PushAllBalances(m.books, ids, 0, FastHeld(m.hands, 0), SlowHeld(m.hands, 0));
    case SlowStep(p, coop, indep) =>
      assert HandOk(m.hands[p]);
      TurnsTidy(m.books, m.hands[p].batch[0], coop, indep);
    case FastStep(p, coop, indep) =>
      assert HandOk(m.hands[p]);
      TurnsTidy(m.books, m.hands[p].tx.value, coop, indep);
    case EnqueueRaw(id) => FreshOk(id);
    case _ =>
  }

  lemma StepAccounted(m: Machine, s: Step)
    requires Accounted(m) && Legal(m, s)
    ensures Accounted(Apply(m, s))
  {
    StepTidy(m, s);
    forall x ensures BalancedFor(Apply(m, s), x) {
      assert BalancedFor(m, x);
      StepBalances(m, s, x);
    }
  }

  ghost predicate IsRun(m: Machine, steps: seq<Step>)
    decreases |steps|
  {
    steps == [] || (Legal(m, steps[0]) && IsRun(Apply(m, steps[0]), steps[1..]))
  }

  function Exec(m: Machine, steps: seq<Step>): Machine
    requires IsRun(m, steps)
    decreases |steps|
  {
    if steps == [] then m else Exec(Apply(m, steps[0]), steps[1..])
  }

  lemma {:induction false} RunsCompose(m: Machine, a: seq<Step>, b: seq<Step>)
    requires IsRun(m, a) && IsRun(Exec(m, a), b)
    ensures IsRun(m, a + b) && Exec(m, a + b) == Exec(Exec(m, a), b)
    decreases |a|
  {
    if a == [] {
      assert a + b == b;
    } else {
      RunsCompose(Apply(m, a[0]), a[1..], b);
      assert (a + b)[1..] == a[1..] + b;
    }
  }

  lemma {:induction false} RunAccounted(m: Machine, steps: seq<Step>)
    requires Accounted(m) && IsRun(m, steps)
    ensures Accounted(Exec(m, steps))
    decreases |steps|
  {
    if steps != [] {
      StepAccounted(m, steps[0]);
      RunAccounted(Apply(m, steps[0]), steps[1..]);
    }
  }

  lemma {:induction false} PushAllKeepsLog(b: Books, ids: seq<Txid>)
    ensures PushAll(b, ids).log == b.log
    decreases |ids|
  {
    if ids != [] {
      PushAllKeepsLog(Push(b, ids[0]), ids[1..]);
    }
  }

  lemma StepKeepsLog(m: Machine, s: Step)
    requires Legal(m, s)
    ensures m.books.log <= Apply(m, s).books.log
  {
    if s.Broadcast? {
      PushAllKeepsLog(m.books, s.ids);
    }
  }

  /** A reported failure stays reported: no step takes it back or changes it. */
  lemma {:induction false} RunKeepsLog(m: Machine, steps: seq<Step>)
    requires IsRun(m, steps)
    ensures m.books.log <= Exec(m, steps).books.log
    decreases |steps|
  {
    if steps != [] {
      StepKeepsLog(m, steps[0]);
      RunKeepsLog(Apply(m, steps[0]), steps[1..]);
    }
  }

  const EMPTY: Books := Books([], [], [], 0, multiset{}, multiset{}, multiset{}, multiset{})

  function Boot(passes: nat): Machine {
    Machine(EMPTY, 0, seq(passes, i => Idle))
  }

  lemma {:induction false} IdleHands(n: nat, x: Txid)
    ensures FastHeld(seq(n, i => Idle), x) == 0 && SlowHeld(seq(n, i => Idle), x) == 0
  {
    if n > 0 {
      IdleHands(n - 1, x);
      assert seq(n, i => Idle)[..n - 1] == seq(n - 1, i => Idle);
    }
  }

  lemma {:induction false} Reported(log: seq<Failure>, x: Txid)
    requires Reports(log, x) > 0
    ensures exists f :: f in log && f.id == x
    decreases |log|
  {
    var n := |log| - 1;
    if log[n].id == x {
      assert log[n] in log;
    } else {
      Reported(log[..n], x);
    }
  }

  /** Every run of any number of overlapping passes, whatever the paths answer: each entry is in
      exactly one place, and every parked or conflicted one has had a failure reported. */
  lemma EveryRunAccounted(passes: nat, steps: seq<Step>)
    requires IsRun(Boot(passes), steps)
    ensures var m := Exec(Boot(passes), steps);
            && Accounted(m)
            && (forall x :: Count(m.books.parked, x) > 0 || m.books.conflicted[x] > 0 ==>
                  exists f :: f in m.books.log && f.id == x)
  {
    forall x ensures BalancedFor(Boot(passes), x) {
      IdleHands(passes, x);
    }
    RunAccounted(Boot(passes), steps);
    var m := Exec(Boot(passes), steps);
    forall x | Count(m.books.parked, x) > 0 || m.books.conflicted[x] > 0 ensures exists f :: f in m.books.log && f.id == x {
      assert BalancedFor(m, x);
      Reported(m.books.log, x);
    }
  }

  // ── What is queued, and what the page is shown ───────────────────────────

  /** Broadcasting appends a fresh entry for each transaction, in order, and changes nothing else but the
      history of what was enqueued. */
  lemma {:induction false} PushAllAppends(b: Books, ids: seq<Txid>)
    ensures var r := PushAll(b, ids);
            && r.queue == b.queue + seq(|ids|, i requires 0 <= i < |ids| => Fresh(ids[i]))
            && r.(queue := b.queue, enqueued := b.enqueued) == b
    decreases |ids|
  {
    if ids != [] {
      PushAllAppends(Push(b, ids[0]), ids[1..]);
      var all, rest := seq(|ids|, i requires 0 <= i < |ids| => Fresh(ids[i])), seq(|ids| - 1, i requires 0 <= i < |ids| - 1 => Fresh(ids[1..][i]));
      assert all == [Fresh(ids[0])] + rest;
    }
  }

  lemma {:induction false} QueuedIff(b: Books, id: Txid)
    ensures Queued(b, id) <==> Count(b.queue, id) > 0
    decreases |b.queue|
  {
    if b.queue != [] {
      var n := |b.queue| - 1;
      QueuedIff(b.(queue := b.queue[..n]), id);
      assert b.queue == b.queue[..n] + [b.queue[n]];
    }
  }

  /** Enqueueing raw bytes leaves exactly one entry of a transaction that had none in the queue, and
      changes nothing for one that had. */
  lemma EnqueueRawOnce(m: Machine, id: Txid)
    ensures var r := Apply(m, EnqueueRaw(id));
            && (Count(m.books.queue, id) > 0 ==> r == m)
            && (Count(m.books.queue, id) == 0 ==> Count(r.books.queue, id) == 1 && r.books.queue == m.books.queue + [Fresh(id)])
  {
    QueuedIff(m.books, id);
    CountPush(m.books.queue, Fresh(id), id);
  }

  /** What the page is given over a run: at each call the failures reported since the one before. */
  function Taken(m: Machine, steps: seq<Step>): seq<Failure>
    requires IsRun(m, steps) && m.books.shown <= |m.books.log|
    decreases |steps|
  {
    if steps == [] then []
    else
      StepShows(m, steps[0]);
      (if steps[0].TakeFailures? then m.books.log[m.books.shown..] else []) + Taken(Apply(m, steps[0]), steps[1..])
  }

  lemma StepShows(m: Machine, s: Step)
    requires Legal(m, s) && m.books.shown <= |m.books.log|
    ensures var r := Apply(m, s).books;
            && m.books.log <= r.log && r.shown <= |r.log|
            && (s.TakeFailures? ==> r.log == m.books.log && r.shown == |r.log|)
            && (!s.TakeFailures? ==> r.shown == m.books.shown)
  {
    StepKeepsLog(m, s);
    if s.Broadcast? {
      PushAllAppends(m.books, s.ids);
    }
  }

  /** Every failure is given to the page once, in the order reported: over every run the lists taken,
      one after another, are the log from where it stood, up to what is not yet taken. */
  lemma {:induction false} EveryFailureTakenOnce(m: Machine, steps: seq<Step>)
    requires IsRun(m, steps) && m.books.shown <= |m.books.log|
    ensures var r := Exec(m, steps).books;
            m.books.shown <= r.shown <= |r.log| && Taken(m, steps) == r.log[m.books.shown..r.shown]
    decreases |steps|
  {
    if steps != [] {
      StepShows(m, steps[0]);
      var n := Apply(m, steps[0]);
      EveryFailureTakenOnce(n, steps[1..]);
      RunKeepsLog(n, steps[1..]);
      var r := Exec(m, steps).books;
      assert m.books.log[m.books.shown..] == r.log[m.books.shown..|m.books.log|];
      assert steps[0].TakeFailures? ==>
        r.log[m.books.shown..|m.books.log|] + r.log[|m.books.log|..r.shown] == r.log[m.books.shown..r.shown];
    }
  }
}
