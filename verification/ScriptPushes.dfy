/**
 The scriptSig reader of the tweak index (ops/lij-sp-index.py, _pushes and the P2PKH branch of
 input_pubkey; BIP-352, "Inputs For Shared Secret Derivation").

 `Item` and `Encode` are the script grammar: five encodings of a push, and every other opcode.
 Every byte string splits in exactly one way into encoded items and at most one truncated push;
 the reader returns the payloads of those items; and so the key it finds does not depend on what
 a third party puts between the items.
 */
module ScriptPushes {
  import opened Prelude

  type byte = b: int | 0 <= b < 256

  datatype Item =
    | Zero                       // OP_0: the empty push
    | Direct(data: seq<byte>)    // 1..75 bytes, the opcode is the length
    | Data1(data: seq<byte>)     // OP_PUSHDATA1, one length byte
    | Data2(data: seq<byte>)     // OP_PUSHDATA2, two length bytes
    | Data4(data: seq<byte>)     // OP_PUSHDATA4, four length bytes
    | Opcode(code: byte)         // anything else

  predicate WellFormed(it: Item) {
    match it
    case Zero => true
    case Direct(d) => 1 <= |d| <= 75
    case Data1(d) => |d| < 0x100
    case Data2(d) => |d| < 0x1_0000
    case Data4(d) => |d| < 0x1_0000_0000
    case Opcode(c) => c >= 79
  }

  function Little2(n: nat): seq<byte>
    requires n < 0x1_0000
  {
    [n % 0x100, n / 0x100]
  }

  function Little4(n: nat): seq<byte>
    requires n < 0x1_0000_0000
  {
    [n % 0x100, n / 0x100 % 0x100, n / 0x1_0000 % 0x100, n / 0x100_0000]
  }

  function Header(it: Item): seq<byte>
    requires WellFormed(it)
  {
    match it
    case Zero => [0]
    case Direct(d) => [|d|]
    case Data1(d) => [76, |d|]
    case Data2(d) => [77] + Little2(|d|)
    case Data4(d) => [78] + Little4(|d|)
    case Opcode(c) => [c]
  }

  function Data(it: Item): seq<byte> {
    if it.Zero? || it.Opcode? then [] else it.data
  }

  function Encode(it: Item): (s: seq<byte>)
    requires WellFormed(it)
    ensures |s| >= 1
  {
    Header(it) + Data(it)
  }

  predicate AllWellFormed(items: seq<Item>) {
    forall i :: 0 <= i < |items| ==> WellFormed(items[i])
  }

  /** The bytes of a list of items. */
  function Flat(items: seq<Item>): seq<byte>
    requires AllWellFormed(items)
  {
    if items == [] then [] else Encode(items[0]) + Flat(items[1..])
  }

  /** A push whose length or data runs past the end: a proper prefix of some item. */
  ghost predicate Truncated(t: seq<byte>) {
    t != [] && exists it :: WellFormed(it) && t < Encode(it)
  }

  // ── Reading one item ─────────────────────────────────────────────────────

  function ReadLittle2(s: seq<byte>, i: nat): nat
    requires i + 2 <= |s|
  {
    s[i] as int + 0x100 * (s[i + 1] as int)
  }

  function ReadLittle4(s: seq<byte>, i: nat): nat
    requires i + 4 <= |s|
  {
    s[i] as int + 0x100 * (s[i + 1] as int) + 0x1_0000 * (s[i + 2] as int) + 0x100_0000 * (s[i + 3] as int)
  }

  /** How many bytes the opcode and its length take. */
  function HeaderLen(op: byte): nat {
    if op == 76 then 2 else if op == 77 then 3 else if op == 78 then 5 else 1
  }

  /** How many data bytes the push at `i` announces. */
  function LengthAt(s: seq<byte>, i: nat): nat
    requires i < |s| && i + HeaderLen(s[i]) <= |s|
  {
    var op := s[i];
    if op <= 75 then op
    else if op == 76 then s[i + 1]
    else if op == 77 then ReadLittle2(s, i + 1)
    else if op == 78 then ReadLittle4(s, i + 1)
    else 0
  }

  function ItemOf(op: byte, data: seq<byte>): Item {
    if op == 0 then Zero
    else if op <= 75 then Direct(data)
    else if op == 76 then Data1(data)
    else if op == 77 then Data2(data)
    else if op == 78 then Data4(data)
    else Opcode(op)
  }

  /** The first item of a script, or None when it is cut short. */
  function First(s: seq<byte>): Option<Item>
    requires s != []
  {
    var h := HeaderLen(s[0]);
    if h > |s| || h + LengthAt(s, 0) > |s| then None
    else Some(ItemOf(s[0], s[h..h + LengthAt(s, 0)]))
  }

  lemma LittleRoundTrip2(n: nat)
    requires n < 0x1_0000
    ensures ReadLittle2(Little2(n), 0) == n
  {
  }

  lemma LittleRoundTrip4(n: nat)
    requires n < 0x1_0000_0000
    ensures ReadLittle4(Little4(n), 0) == n
  {
    var a, b := n / 0x100, n / 0x1_0000;
    assert b == a / 0x100;
    assert n / 0x100_0000 == b / 0x100;
  }

  lemma Digits4(a: byte, b: byte, c: byte, d: byte)
    ensures var n := a as int + 0x100 * (b as int) + 0x1_0000 * (c as int) + 0x100_0000 * (d as int);
            && 0 <= n < 0x1_0000_0000
            && n % 0x100 == a && n / 0x100 % 0x100 == b && n / 0x1_0000 % 0x100 == c && n / 0x100_0000 == d
  {
    var m: int := c as int + 0x100 * (d as int);
    var k: int := b as int + 0x100 * m;
    var n: int := a as int + 0x100 * k;
    assert n / 0x100 == k && n % 0x100 == a;
    assert k / 0x100 == m && k % 0x100 == b;
    assert m / 0x100 == d && m % 0x100 == c;
    assert n / 0x1_0000 == m;
    assert n / 0x100_0000 == d;
  }

  lemma ReadThenLittle4(s: seq<byte>)
    requires |s| == 4
    ensures ReadLittle4(s, 0) < 0x1_0000_0000 && Little4(ReadLittle4(s, 0)) == s
  {
    Digits4(s[0], s[1], s[2], s[3]);
  }

  /** Reading undoes encoding, whatever follows. */
  lemma FirstOfEncode(it: Item, rest: seq<byte>)
    requires WellFormed(it)
    ensures First(Encode(it) + rest) == Some(it)
  {
    var s := Encode(it) + rest;
    var h := |Header(it)|;
    assert s[h..h + |Data(it)|] == Data(it);
    match it
    case Data2(d) =>
      LittleRoundTrip2(|d|);
      assert s[1] == Little2(|d|)[0] && s[2] == Little2(|d|)[1];
    case Data4(d) =>
      LittleRoundTrip4(|d|);
      assert s[1] == Little4(|d|)[0] && s[2] == Little4(|d|)[1] && s[3] == Little4(|d|)[2] && s[4] == Little4(|d|)[3];
    case _ =>
  }

  /** The header of what is read starts the script, and its data follows. */
  lemma HeaderOfFirst(s: seq<byte>)
    requires s != [] && First(s).Some?
    ensures var it := First(s).value;
            && WellFormed(it) && |Header(it)| + |Data(it)| <= |s|
            && Header(it) == s[..|Header(it)|]
            && Data(it) == s[|Header(it)|..|Header(it)| + |Data(it)|]
  {
    var it := First(s).value;
    var op := s[0];
    if op == 77 {
      assert Little2(|it.data|) == s[1..3];
    } else if op == 78 {
      ReadThenLittle4(s[1..5]);
      assert ReadLittle4(s[1..5], 0) == |it.data|;
    }
  }

  lemma EncodeOfFirst(s: seq<byte>)
    requires s != [] && First(s).Some?
    ensures WellFormed(First(s).value) && Encode(First(s).value) <= s
  {
    HeaderOfFirst(s);
  }

  lemma FirstOfPrefix(it: Item, t: seq<byte>)
    requires WellFormed(it) && Encode(it) <= t
    ensures First(t) == Some(it)
  {
    var rest := t[|Encode(it)|..];
    assert t == Encode(it) + rest;
    FirstOfEncode(it, rest);
  }

  lemma Prefixes(a: seq<byte>, b: seq<byte>, s: seq<byte>)
    requires a <= s && b <= s
    ensures a <= b || b < a
  {
    assert a == s[..|a|] && b == s[..|b|];
  }

  lemma LongEnough(s: seq<byte>)
    requires |s| >= 5 + 0xffff_ffff
    ensures First(s).Some?
  {
    if s[0] == 78 {
      ReadThenLittle4(s[1..5]);
      assert ReadLittle4(s[1..5], 0) == LengthAt(s, 0);
    }
  }

  /** The reader stops exactly at a cut item: nothing can be read from bytes that go on to be some
      item, and what cannot be read does go on to be one. */
  lemma TruncatedIff(t: seq<byte>)
    requires t != []
    ensures Truncated(t) <==> First(t).None?
  {
    if First(t).Some? {
      var got := First(t).value;
      EncodeOfFirst(t);
      forall it | WellFormed(it) && t < Encode(it) ensures false {
        FirstOfPrefix(got, Encode(it));
        FirstOfPrefix(it, Encode(it));
      }
    } else {
      var s := t + seq(0x1_0000_0004, _ => 0);
      LongEnough(s);
      EncodeOfFirst(s);
      var it := First(s).value;
      Prefixes(Encode(it), t, s);
      if Encode(it) <= t {
        FirstOfPrefix(it, t);
      }
    }
  }

  // ── Splitting a script ───────────────────────────────────────────────────

  datatype Split = Split(items: seq<Item>, tail: seq<byte>)

  ghost predicate IsSplit(s: seq<byte>, p: Split) {
    && AllWellFormed(p.items)
    && Flat(p.items) + p.tail == s
    && (p.tail == [] || Truncated(p.tail))
  }

  function Parse(s: seq<byte>): Split
    decreases |s|
  {
    if s == [] then Split([], [])
    else
      match First(s)
      case None => Split([], s)
      case Some(it) =>
        EncodeOfFirst(s);
        var rest := Parse(s[|Encode(it)|..]);
        Split([it] + rest.items, rest.tail)
  }

  lemma FlatCons(items: seq<Item>, tail: seq<byte>)
    requires items != [] && AllWellFormed(items)
    ensures Flat(items) + tail == Encode(items[0]) + (Flat(items[1..]) + tail)
  {
  }

  /** Putting one item in front of a split. */
  lemma SplitCons(it: Item, s: seq<byte>, p: Split)
    requires WellFormed(it) && IsSplit(s, p)
    ensures IsSplit(Encode(it) + s, Split([it] + p.items, p.tail))
  {
  }

  lemma {:induction false} ParseIsSplit(s: seq<byte>)
    ensures IsSplit(s, Parse(s))
    decreases |s|
  {
    if s != [] {
      TruncatedIff(s);
      if First(s).Some? {
        var it := First(s).value;
        EncodeOfFirst(s);
        var rest := s[|Encode(it)|..];
        assert Encode(it) + rest == s;
        ParseIsSplit(rest);
        SplitCons(it, rest, Parse(rest));
      }
    }
  }

  lemma ParseCons(it: Item, rest: seq<byte>)
    requires WellFormed(it)
    ensures Parse(Encode(it) + rest) == Split([it] + Parse(rest).items, Parse(rest).tail)
  {
    FirstOfEncode(it, rest);
    assert (Encode(it) + rest)[|Encode(it)|..] == rest;
  }

  lemma ParseTail(tail: seq<byte>)
    requires tail == [] || Truncated(tail)
    ensures Parse(tail) == Split([], tail)
  {
    if tail != [] {
      TruncatedIff(tail);
    }
  }

  lemma {:induction false} ParseOfFlat(items: seq<Item>, tail: seq<byte>)
    requires AllWellFormed(items) && (tail == [] || Truncated(tail))
    ensures Parse(Flat(items) + tail) == Split(items, tail)
    decreases |items|
  {
    if items == [] {
      ParseTail(tail);
      assert Flat(items) + tail == tail;
    } else {
      FlatCons(items, tail);
      ParseOfFlat(items[1..], tail);
      ParseCons(items[0], Flat(items[1..]) + tail);
      assert [items[0]] + items[1..] == items;
    }
  }

  /** Every byte string splits into items and at most one truncated tail in exactly one way. */
  lemma SplitExistsAndIsUnique(s: seq<byte>)
    ensures exists p :: IsSplit(s, p)
    ensures forall p, q :: IsSplit(s, p) && IsSplit(s, q) ==> p == q
  {
    ParseIsSplit(s);
    forall p, q | IsSplit(s, p) && IsSplit(s, q) ensures p == q {
      ParseOfFlat(p.items, p.tail);
      ParseOfFlat(q.items, q.tail);
    }
  }

  // ── The pushes ───────────────────────────────────────────────────────────

  function Payloads(items: seq<Item>): seq<seq<byte>> {
    if items == [] then []
    else (if items[0].Opcode? then [] else [Data(items[0])]) + Payloads(items[1..])
  }

  function PushesOf(s: seq<byte>): seq<seq<byte>> {
    Payloads(Parse(s).items)
  }

  /** The first item as bytes: its opcode, its length and its data. */
  lemma FirstLayout(s: seq<byte>)
    requires s != [] && First(s).Some?
    ensures var it, n := First(s).value, HeaderLen(s[0]) + LengthAt(s, 0);
            && WellFormed(it) && |Encode(it)| == n <= |s|
            && (it.Opcode? <==> s[0] >= 79)
            && Data(it) == s[HeaderLen(s[0])..n]
  {
  }

  lemma PushesCons(s: seq<byte>, it: Item)
    requires s != [] && First(s) == Some(it) && WellFormed(it) && |Encode(it)| <= |s|
    ensures PushesOf(s) == (if it.Opcode? then [] else [Data(it)]) + PushesOf(s[|Encode(it)|..])
  {
  }

  lemma PushesStop(s: seq<byte>)
    requires s != [] && First(s).None?
    ensures PushesOf(s) == []
  {
  }

  lemma PushesStep(s: seq<byte>, data: seq<byte>, rest: seq<byte>)
    requires s != [] && First(s).Some?
    requires var h := HeaderLen(s[0]);
             data == s[h..h + LengthAt(s, 0)] && rest == s[h + LengthAt(s, 0)..]
    ensures PushesOf(s) == (if s[0] >= 79 then [] else [data]) + PushesOf(rest)
  {
    FirstLayout(s);
    var it := First(s).value;
    assert rest == s[|Encode(it)|..] && data == Data(it);
    PushesCons(s, it);
  }

  /** The reader by index: `out` followed by the pushes of the bytes from `i` on. */
  function Collect(script: seq<byte>, i: nat, out: seq<seq<byte>>): seq<seq<byte>>
    requires i <= |script|
    decreases |script| - i
  {
    if i == |script| then out
    else
      var from := i + HeaderLen(script[i]);
      if from > |script| || from + LengthAt(script, i) > |script| then out
      else
        var next := from + LengthAt(script, i);
        Collect(script, next, if script[i] >= 79 then out else out + [script[from..next]])
  }

  lemma SuffixReads(script: seq<byte>, i: nat)
    requires i < |script|
    ensures var s, h := script[i..], HeaderLen(script[i]);
            && s[0] == script[i]
            && (h <= |s| ==>
                  var n := LengthAt(script, i);
                  LengthAt(s, 0) == n && (h + n <= |s| ==> s[h..h + n] == script[i + h..i + h + n] && s[h + n..] == script[i + h + n..]))
  {
    var s, h := script[i..], HeaderLen(script[i]);
    if h <= |s| {
      var n := LengthAt(script, i);
      assert forall k :: 0 <= k < h ==> s[k] == script[i + k];
      if h + n <= |s| {
        assert s[h..h + n] == script[i + h..i + h + n];
        assert s[h + n..] == script[i + h + n..];
      }
    }
  }

  /** What one turn of the reader at `i` does to the pushes still to come. */
  ghost predicate TurnLaw(script: seq<byte>, i: nat, pushesOf: seq<byte> -> seq<seq<byte>>)
    requires i < |script|
  {
    var from := i + HeaderLen(script[i]);
    if from > |script| || from + LengthAt(script, i) > |script| then pushesOf(script[i..]) == []
    else
      var next := from + LengthAt(script, i);
      pushesOf(script[i..]) == (if script[i] >= 79 then [] else [script[from..next]]) + pushesOf(script[next..])
  }

  lemma TurnLawHolds(script: seq<byte>, i: nat)
    requires i < |script|
    ensures TurnLaw(script, i, PushesOf)
  {
    var s, h := script[i..], HeaderLen(script[i]);
    SuffixReads(script, i);
    if i + h > |script| || i + h + LengthAt(script, i) > |script| {
      PushesStop(s);
    } else {
      var next := i + h + LengthAt(script, i);
      PushesStep(s, script[i + h..next], script[next..]);
    }
  }

  lemma {:induction false} CollectByLaw(script: seq<byte>, i: nat, out: seq<seq<byte>>, pushesOf: seq<byte> -> seq<seq<byte>>)
    requires i <= |script| && pushesOf([]) == []
    requires forall k :: 0 <= k < |script| ==> TurnLaw(script, k, pushesOf)
    ensures Collect(script, i, out) == out + pushesOf(script[i..])
    decreases |script| - i
  {
    if i == |script| {
      assert script[i..] == [];
    } else {
      assert TurnLaw(script, i, pushesOf);
      var from := i + HeaderLen(script[i]);
      if from <= |script| && from + LengthAt(script, i) <= |script| {
        var next := from + LengthAt(script, i);
        var p := if script[i] >= 79 then [] else [script[from..next]];
        CollectByLaw(script, next, out + p, pushesOf);
        assert out + p + pushesOf(script[next..]) == out + (p + pushesOf(script[next..]));
        assert script[i] >= 79 ==> out + p == out;
      }
    }
  }

  lemma CollectIsPushes(script: seq<byte>)
    ensures Collect(script, 0, []) == PushesOf(script)
  {
    forall k | 0 <= k < |script| ensures TurnLaw(script, k, PushesOf) {
      TurnLawHolds(script, k);
    }
    CollectByLaw(script, 0, [], PushesOf);
    assert script[0..] == script;
  }

  /** One turn of the reader, as an equation on what it comes to from (i, out) on. */
  ghost predicate CollectLaw(script: seq<byte>, rest: (nat, seq<seq<byte>>) -> seq<seq<byte>>, i: nat, out: seq<seq<byte>>) {
    i <= |script| ==>
      rest(i, out) ==
      if i == |script| then out
      else
        var from := i + HeaderLen(script[i]);
        if from > |script| || from + LengthAt(script, i) > |script| then out
        else rest(from + LengthAt(script, i), if script[i] >= 79 then out else out + [script[from..from + LengthAt(script, i)]])
  }

  ghost predicate CollectLaws(script: seq<byte>, rest: (nat, seq<seq<byte>>) -> seq<seq<byte>>) {
    forall i, out {:trigger CollectLaw(script, rest, i, out)} :: CollectLaw(script, rest, i, out)
  }

  lemma CollectRest(script: seq<byte>) returns (rest: (nat, seq<seq<byte>>) -> seq<seq<byte>>)
    ensures CollectLaws(script, rest) && rest(0, []) == Collect(script, 0, [])
  {
    rest := (i: nat, out: seq<seq<byte>>) => if i <= |script| then Collect(script, i, out) else out;
  }

  /** The loop of _pushes: other opcodes are skipped, a truncated push ends the read. */
  method ReadPushes(script: seq<byte>) returns (out: seq<seq<byte>>)
    ensures out == Collect(script, 0, [])
  {
    out := [];
    var i, n := 0, |script|;
    ghost var rest := CollectRest(script);
    while i < n
      invariant 0 <= i <= n == |script|
      invariant rest(i, out) == rest(0, [])
      decreases n - i
    {
      assert CollectLaw(script, rest, i, out);
      var op := script[i];
      i := i + 1;
      if op == 0 {
        out := out + [script[i..i]];
      } else if op <= 75 {
        if i + op > n { return; }
        out := out + [script[i..i + op]];
        i := i + op;
      } else if op == 76 {
        if i >= n { return; }
        var ln := script[i];
        i := i + 1;
        if i + ln > n { return; }
        out := out + [script[i..i + ln]];
        i := i + ln;
      } else if op == 77 {
        if i + 2 > n { return; }
        var ln := ReadLittle2(script, i);
        i := i + 2;
        if i + ln > n { return; }
        out := out + [script[i..i + ln]];
        i := i + ln;
      } else if op == 78 {
        if i + 4 > n { return; }
        var ln := ReadLittle4(script, i);
        i := i + 4;
        if i + ln > n { return; }
        out := out + [script[i..i + ln]];
        i := i + ln;
      }
    }
    assert CollectLaw(script, rest, n, out);
  }

  /** _pushes returns exactly the payloads of the script's one split, in order. */
  method Pushes(script: seq<byte>) returns (out: seq<seq<byte>>)
    ensures forall p :: IsSplit(script, p) ==> out == Payloads(p.items)
    ensures out == PushesOf(script)
  {
    out := ReadPushes(script);
    CollectIsPushes(script);
    forall p | IsSplit(script, p) ensures PushesOf(script) == Payloads(p.items) {
      ParseOfFlat(p.items, p.tail);
    }
  }

  // ── The key of a P2PKH input ─────────────────────────────────────────────

  /** A compressed key whose hash the output script names; hash160 is left uninterpreted. */
  predicate IsKey(hash160: seq<byte> -> seq<byte>, target: seq<byte>, push: seq<byte>) {
    |push| == 33 && (push[0] == 2 || push[0] == 3) && hash160(push) == target
  }

  /** The last push that is the key. */
  function LastKey(hash160: seq<byte> -> seq<byte>, target: seq<byte>, pushes: seq<seq<byte>>): Option<seq<byte>> {
    if pushes == [] then None
    else
      var last := pushes[|pushes| - 1];
      if IsKey(hash160, target, last) then Some(last)
      else LastKey(hash160, target, pushes[..|pushes| - 1])
  }

  function KeyOf(hash160: seq<byte> -> seq<byte>, target: seq<byte>, script: seq<byte>): Option<seq<byte>> {
    LastKey(hash160, target, PushesOf(script))
  }

  /** The search, from the last push backwards. */
  method LastMatch(hash160: seq<byte> -> seq<byte>, target: seq<byte>, pushes: seq<seq<byte>>) returns (key: Option<seq<byte>>)
    ensures key == LastKey(hash160, target, pushes)
  {
    var i := |pushes|;
    assert pushes[..i] == pushes;
    while i > 0
      invariant 0 <= i <= |pushes|
      invariant LastKey(hash160, target, pushes[..i]) == LastKey(hash160, target, pushes)
    {
      i := i - 1;
      assert pushes[..i + 1][..i] == pushes[..i];
      if IsKey(hash160, target, pushes[i]) {
        return Some(pushes[i]);
      }
    }
    return None;
  }

  /** The P2PKH branch of input_pubkey. */
  method FindKey(hash160: seq<byte> -> seq<byte>, target: seq<byte>, script: seq<byte>) returns (key: Option<seq<byte>>)
    ensures key == KeyOf(hash160, target, script)
  {
    var pushes := Pushes(script);
    key := LastMatch(hash160, target, pushes);
  }

  function KeyIn(hash160: seq<byte> -> seq<byte>, target: seq<byte>, it: Item): seq<seq<byte>> {
    if !it.Opcode? && IsKey(hash160, target, Data(it)) then [Data(it)] else []
  }

  /** The pushes of a list that are the key. */
  function Keys(hash160: seq<byte> -> seq<byte>, target: seq<byte>, items: seq<Item>): seq<seq<byte>> {
    if items == [] then []
    else KeyIn(hash160, target, items[0]) + Keys(hash160, target, items[1..])
  }

  lemma {:induction false} LastKeyConcat(hash160: seq<byte> -> seq<byte>, target: seq<byte>, a: seq<seq<byte>>, b: seq<seq<byte>>)
    ensures LastKey(hash160, target, a + b)
            == if LastKey(hash160, target, b).Some? then LastKey(hash160, target, b) else LastKey(hash160, target, a)
    decreases |b|
  {
    if b == [] {
      assert a + b == a;
    } else {
      var n := |b| - 1;
      LastKeyConcat(hash160, target, a, b[..n]);
      assert (a + b)[..|a + b| - 1] == a + b[..n];
    }
  }

  /** Only the matching pushes count: the key found is the last of them. */
  lemma {:induction false} LastKeyOfPayloads(hash160: seq<byte> -> seq<byte>, target: seq<byte>, items: seq<Item>)
    ensures var ks := Keys(hash160, target, items);
            LastKey(hash160, target, Payloads(items)) == if ks == [] then None else Some(ks[|ks| - 1])
    decreases |items|
  {
    if items != [] {
      LastKeyOfPayloads(hash160, target, items[1..]);
      var head := if items[0].Opcode? then [] else [Data(items[0])];
      LastKeyConcat(hash160, target, head, Payloads(items[1..]));
      assert items[0].Opcode? || LastKey(hash160, target, head[..0]) == None;
    }
  }

  lemma {:induction false} KeysConcat(hash160: seq<byte> -> seq<byte>, target: seq<byte>, a: seq<Item>, b: seq<Item>)
    ensures Keys(hash160, target, a + b) == Keys(hash160, target, a) + Keys(hash160, target, b)
    decreases |a|
  {
    if a == [] {
      assert a + b == b;
    } else {
      assert (a + b)[0] == a[0] && (a + b)[1..] == a[1..] + b;
      KeysConcat(hash160, target, a[1..], b);
      var x, y, z := KeyIn(hash160, target, a[0]), Keys(hash160, target, a[1..]), Keys(hash160, target, b);
      assert x + (y + z) == x + y + z;
    }
  }

  /** Two scripts with the same matching pushes give the same key, whatever opcodes, decoy pushes
      and truncated tails surround them. */
  lemma SameKeysSameAnswer(hash160: seq<byte> -> seq<byte>, target: seq<byte>, a: Split, b: Split)
    requires AllWellFormed(a.items) && (a.tail == [] || Truncated(a.tail))
    requires AllWellFormed(b.items) && (b.tail == [] || Truncated(b.tail))
    requires Keys(hash160, target, a.items) == Keys(hash160, target, b.items)
    ensures KeyOf(hash160, target, Flat(a.items) + a.tail) == KeyOf(hash160, target, Flat(b.items) + b.tail)
  {
    ParseOfFlat(a.items, a.tail);
    ParseOfFlat(b.items, b.tail);
    LastKeyOfPayloads(hash160, target, a.items);
    LastKeyOfPayloads(hash160, target, b.items);
  }

  lemma KeysOfInsertion(hash160: seq<byte> -> seq<byte>, target: seq<byte>, before: seq<Item>, inserted: seq<Item>, after: seq<Item>)
    requires Keys(hash160, target, inserted) == []
    ensures Keys(hash160, target, before + inserted + after) == Keys(hash160, target, before + after)
  {
    KeysConcat(hash160, target, before + inserted, after);
    KeysConcat(hash160, target, before, inserted);
    KeysConcat(hash160, target, before, after);
  }

  /** Opcodes and non-matching pushes inserted between the items of a scriptSig never change the
      key found. */
  lemma InsertionKeepsKey(hash160: seq<byte> -> seq<byte>, target: seq<byte>,
                          before: seq<Item>, inserted: seq<Item>, after: seq<Item>, tail: seq<byte>)
    requires AllWellFormed(before + inserted + after) && AllWellFormed(before + after)
    requires tail == [] || Truncated(tail)
    requires Keys(hash160, target, inserted) == []
    ensures KeyOf(hash160, target, Flat(before + inserted + after) + tail)
            == KeyOf(hash160, target, Flat(before + after) + tail)
  {
    KeysOfInsertion(hash160, target, before, inserted, after);
    SameKeysSameAnswer(hash160, target, Split(before + inserted + after, tail), Split(before + after, tail));
  }

  lemma {:induction false} LastKeyIff(hash160: seq<byte> -> seq<byte>, target: seq<byte>, pushes: seq<seq<byte>>)
    ensures var r := LastKey(hash160, target, pushes);
            && (r.Some? <==> exists p :: p in pushes && IsKey(hash160, target, p))
            && (r.Some? ==> r.value in pushes && IsKey(hash160, target, r.value))
    decreases |pushes|
  {
    if pushes != [] {
      var n := |pushes| - 1;
      LastKeyIff(hash160, target, pushes[..n]);
      assert pushes == pushes[..n] + [pushes[n]];
    }
  }

  /** A key is found exactly when some push of the script is 33 bytes, starts with 2 or 3 and hashes to
      what the output names; and what is found is such a push. */
  lemma KeyFoundIff(hash160: seq<byte> -> seq<byte>, target: seq<byte>, script: seq<byte>)
    ensures var r := KeyOf(hash160, target, script);
            && (r.Some? <==> exists p :: p in PushesOf(script) && |p| == 33 && (p[0] == 2 || p[0] == 3) && hash160(p) == target)
            && (r.Some? ==> r.value in PushesOf(script) && |r.value| == 33 && hash160(r.value) == target)
  {
    LastKeyIff(hash160, target, PushesOf(script));
    forall p: seq<byte> ensures IsKey(hash160, target, p) <==> |p| == 33 && (p[0] == 2 || p[0] == 3) && hash160(p) == target {
    }
  }

  /** The usual spend, a signature and the key, with anything else before them, gives the key. */
  lemma UsualSpendGivesKey(hash160: seq<byte> -> seq<byte>, before: seq<Item>, signature: seq<byte>, key: seq<byte>)
    requires AllWellFormed(before) && 1 <= |signature| <= 75 && |key| == 33 && (key[0] == 2 || key[0] == 3)
    ensures KeyOf(hash160, hash160(key), Flat(before + [Direct(signature), Direct(key)])) == Some(key)
  {
    var items := before + [Direct(signature), Direct(key)];
    var target := hash160(key);
    ParseOfFlat(items, []);
    assert Flat(items) + [] == Flat(items);
    LastKeyOfPayloads(hash160, target, items);
    KeysConcat(hash160, target, before + [Direct(signature)], [Direct(key)]);
    assert items == before + [Direct(signature)] + [Direct(key)];
    assert [Direct(key)][1..] == [];
    assert Keys(hash160, target, [Direct(key)]) == [key];
  }
}
