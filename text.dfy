/** Optional values: a header that may be missing, a date that may be unset. */
module Wrappers {

  datatype Option<+T> = None | Some(value: T) {

    function GetOr(default: T): T {
      match this
      case Some(v) => v
      case None => default
    }
  }
}

/**
 * The string operations the classifier relies on, with the meaning they have
 * on Python 2 byte strings: `in` on strings is a substring test, `find`
 * returns the first index or -1, `lower` folds ASCII letters only, `replace`
 * with an empty replacement removes every occurrence, and `strip` with no
 * argument trims ASCII whitespace at both ends.
 */
module Text {

  /** `sub` occurs in `s` starting at index `i`. */
  predicate OccursAt(s: string, sub: string, i: int) {
    0 <= i && i + |sub| <= |s| && s[i..i + |sub|] == sub
  }

  /** Python's `sub in s` for strings. */
  predicate Contains(s: string, sub: string) {
    exists i | 0 <= i <= |s| - |sub| :: OccursAt(s, sub, i)
  }

  /** Python's `s.find(c)` for a one-character needle. */
  function Find(s: string, c: char): (r: int)
    ensures r == -1 <==> c !in s
    ensures r != -1 ==> 0 <= r < |s| && s[r] == c && c !in s[..r]
  {
    if |s| == 0 then -1
    else if s[0] == c then 0
    else
      var k := Find(s[1..], c);
      if k == -1 then -1
      else
        assert s[..k + 1] == [s[0]] + s[1..][..k];
        k + 1
  }

  /** The index of a character with no earlier occurrence is what `Find` returns. */
  lemma FindFirst(s: string, c: char, i: int)
    requires 0 <= i < |s| && s[i] == c && c !in s[..i]
    ensures Find(s, c) == i
  {
    assert s[i] in s;
  }

  predicate IsUpper(c: char) {
    'A' <= c <= 'Z'
  }

  function LowerChar(c: char): char {
    if IsUpper(c) then (c as int + 32) as char else c
  }

  /** Python 2's `s.lower()`: every ASCII capital replaced by its small letter. */
  function Lower(s: string): (r: string)
    ensures |r| == |s|
    ensures forall i :: 0 <= i < |s| ==> r[i] == LowerChar(s[i])
    ensures forall i :: 0 <= i < |r| ==> !IsUpper(r[i])
  {
    if s == [] then [] else [LowerChar(s[0])] + Lower(s[1..])
  }

  /** Lower-casing twice is lower-casing once. */
  lemma LowerIdempotent(s: string)
    ensures Lower(Lower(s)) == Lower(s)
  {
    var once := Lower(s);
    assert forall i :: 0 <= i < |once| ==> LowerChar(once[i]) == once[i];
  }

  /** Python's `s.replace(c, '')`: every occurrence of `c` removed, the rest kept in order. */
  function Without(s: string, c: char): (r: string)
    ensures c !in r
    ensures forall x :: x != c ==> (x in r <==> x in s)
    ensures |r| <= |s|
    ensures c !in s ==> r == s
    ensures multiset(r) == multiset(s)[c := 0]
  {
    if s == [] then []
    else
      assert s == [s[0]] + s[1..];
      if s[0] == c then Without(s[1..], c)
      else [s[0]] + Without(s[1..], c)
  }

  /** Removal works piece by piece, so the characters that remain keep their order. */
  lemma {:induction false} WithoutConcat(a: string, b: string, c: char)
    ensures Without(a + b, c) == Without(a, c) + Without(b, c)
    ensures forall x :: Without([x], c) == if x == c then [] else [x]
    decreases |a|
  {
    if a != [] {
      assert (a + b)[1..] == a[1..] + b;
      WithoutConcat(a[1..], b, c);
    } else {
      assert a + b == b;
    }
  }

  /** The characters Python 2's argument-less `strip` removes. */
  predicate IsSpace(c: char) {
    c == ' ' || c == '\t' || c == '\n' || c == '\r' || c == '\U{B}' || c == '\U{C}'
  }

  /** Neither the first nor the last character is whitespace. */
  predicate NoEdgeSpace(s: string) {
    s == [] || (!IsSpace(s[0]) && !IsSpace(s[|s| - 1]))
  }

  /** Leading whitespace removed. */
  function TrimLeft(s: string): string {
    if s != [] && IsSpace(s[0]) then TrimLeft(s[1..]) else s
  }

  /** Trailing whitespace removed. */
  function TrimRight(s: string): string {
    if s != [] && IsSpace(s[|s| - 1]) then TrimRight(s[..|s| - 1]) else s
  }

  /** Trimming the front leaves no leading space, keeps the last character, and changes nothing without leading space. */
  lemma {:induction false} TrimLeftFacts(s: string)
    ensures |TrimLeft(s)| <= |s|
    ensures TrimLeft(s) == [] || !IsSpace(TrimLeft(s)[0])
    ensures TrimLeft(s) != [] ==> TrimLeft(s)[|TrimLeft(s)| - 1] == s[|s| - 1]
    ensures s == [] || !IsSpace(s[0]) ==> TrimLeft(s) == s
    decreases |s|
  {
    if s != [] && IsSpace(s[0]) {
      TrimLeftFacts(s[1..]);
    }
  }

  /** Trimming the back leaves no trailing space and changes nothing without trailing space. */
  lemma {:induction false} TrimRightFacts(s: string)
    ensures |TrimRight(s)| <= |s|
    ensures TrimRight(s) == [] || !IsSpace(TrimRight(s)[|TrimRight(s)| - 1])
    ensures s == [] || !IsSpace(s[|s| - 1]) ==> TrimRight(s) == s
    decreases |s|
  {
    if s != [] && IsSpace(s[|s| - 1]) {
      TrimRightFacts(s[..|s| - 1]);
    }
  }

  /** Python's `s.strip()`. */
  function Strip(s: string): (r: string)
    ensures NoEdgeSpace(r)
    ensures |r| <= |s|
    ensures NoEdgeSpace(s) ==> r == s
  {
    TrimRightFacts(s);
    TrimLeftFacts(TrimRight(s));
    TrimLeft(TrimRight(s))
  }

  /** Trimming the front removes a run of whitespace and nothing else. */
  lemma {:induction false} TrimLeftIsSuffix(s: string)
    ensures exists i | 0 <= i <= |s| :: TrimLeft(s) == s[i..] && forall k | 0 <= k < i :: IsSpace(s[k])
    decreases |s|
  {
    if s != [] && IsSpace(s[0]) {
      TrimLeftIsSuffix(s[1..]);
      var i :| 0 <= i <= |s[1..]| && TrimLeft(s[1..]) == s[1..][i..] && forall k | 0 <= k < i :: IsSpace(s[1..][k]);
      assert s[1..][i..] == s[i + 1..];
      assert forall k | 0 <= k < i + 1 :: IsSpace(s[k]) by {
        forall k | 0 <= k < i + 1 ensures IsSpace(s[k]) {
          if k > 0 { assert s[k] == s[1..][k - 1]; }
        }
      }
    } else {
      assert TrimLeft(s) == s[0..];
    }
  }

  /** Trimming the back removes a run of whitespace and nothing else. */
  lemma {:induction false} TrimRightIsPrefix(s: string)
    ensures exists j | 0 <= j <= |s| :: TrimRight(s) == s[..j] && forall k | j <= k < |s| :: IsSpace(s[k])
    decreases |s|
  {
    if s != [] && IsSpace(s[|s| - 1]) {
      var t := s[..|s| - 1];
      TrimRightIsPrefix(t);
      var j :| 0 <= j <= |t| && TrimRight(t) == t[..j] && forall k | j <= k < |t| :: IsSpace(t[k]);
      assert t[..j] == s[..j];
      assert forall k | j <= k < |s| :: IsSpace(s[k]) by {
        forall k | j <= k < |s| ensures IsSpace(s[k]) {
          if k < |s| - 1 { assert s[k] == t[k]; }
        }
      }
    } else {
      assert TrimRight(s) == s[..|s|];
    }
  }

  /** `strip` keeps a contiguous slice of its input and removes only whitespace, at the two ends. */
  lemma StripRemovesOnlyEdges(s: string)
    ensures exists i, j | 0 <= i <= j <= |s| ::
      && Strip(s) == s[i..j]
      && (forall k | 0 <= k < i :: IsSpace(s[k]))
      && (forall k | j <= k < |s| :: IsSpace(s[k]))
  {
    TrimRightIsPrefix(s);
    var j :| 0 <= j <= |s| && TrimRight(s) == s[..j] && forall k | j <= k < |s| :: IsSpace(s[k]);
    var t := s[..j];
    TrimLeftIsSuffix(t);
    var i :| 0 <= i <= |t| && TrimLeft(t) == t[i..] && forall k | 0 <= k < i :: IsSpace(t[k]);
    assert t[i..] == s[i..j];
    assert forall k | 0 <= k < i :: IsSpace(s[k]) by {
      forall k | 0 <= k < i ensures IsSpace(s[k]) { assert s[k] == t[k]; }
    }
  }

  /** Stripping a line read back with its terminating newline gives the text that was written. */
  lemma StripLine(x: string)
    requires NoEdgeSpace(x)
    ensures Strip(x + "\n") == x
  {
    assert (x + "\n")[..|x|] == x;
    assert TrimRight(x + "\n") == TrimRight(x);
  }
}
