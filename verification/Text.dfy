/** ASCII case folding and substring search on strings. */
module Text {

  function LowerChar(c: char): char {
    if 'A' <= c <= 'Z' then (c as int + 32) as char else c
  }

  function Lower(s: string): string {
    seq(|s|, i requires 0 <= i < |s| => LowerChar(s[i]))
  }

  lemma LowerAppend(a: string, b: string)
    ensures Lower(a + b) == Lower(a) + Lower(b)
  {
  }

  predicate OccursAt(s: string, word: string, i: nat) {
    i + |word| <= |s| && s[i..i + |word|] == word
  }

  predicate Contains(s: string, word: string) {
    exists i :: 0 <= i <= |s| && OccursAt(s, word, i)
  }

  /** A word without the character `c` occurs on one side of it or the other. */
  lemma ContainsSplit(a: string, c: char, b: string, word: string)
    requires c !in word && word != []
    ensures Contains(a + [c] + b, word) <==> Contains(a, word) || Contains(b, word)
  {
    var s := a + [c] + b;
    if Contains(a, word) {
      var i :| 0 <= i <= |a| && OccursAt(a, word, i);
      assert s[i..i + |word|] == a[i..i + |word|];
      assert OccursAt(s, word, i);
    }
    if Contains(b, word) {
      var i :| 0 <= i <= |b| && OccursAt(b, word, i);
      assert s[|a| + 1 + i..|a| + 1 + i + |word|] == b[i..i + |word|];
      assert OccursAt(s, word, |a| + 1 + i);
    }
    if Contains(s, word) {
      var i :| 0 <= i <= |s| && OccursAt(s, word, i);
      OccursOnOneSide(a, c, b, word, i);
    }
  }

  lemma OccursAcross(a: string, c: char, b: string, word: string, i: nat)
    requires OccursAt(a + [c] + b, word, i) && i <= |a| < i + |word|
    ensures c in word
  {
    var s := a + [c] + b;
    assert s[i..i + |word|][|a| - i] == s[|a|] == c;
  }

  lemma OccursOnOneSide(a: string, c: char, b: string, word: string, i: nat)
    requires c !in word && word != [] && OccursAt(a + [c] + b, word, i)
    ensures Contains(a, word) || Contains(b, word)
  {
    var s := a + [c] + b;
    if i <= |a| < i + |word| {
      OccursAcross(a, c, b, word, i);
    } else if i <= |a| {
      assert a[i..i + |word|] == s[i..i + |word|];
      assert OccursAt(a, word, i);
    } else {
      var j := i - |a| - 1;
      assert b[j..j + |word|] == s[i..i + |word|];
      assert OccursAt(b, word, j);
    }
  }

  lemma ContainsChar(s: string, word: string, c: char)
    requires Contains(s, word) && c in word
    ensures c in s
  {
  }
}
