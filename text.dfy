/** String helpers shared by the pipeline: Python's `str.lower()`, the
    substring test `k in s`, and decimal formatting of counts. */
module Text {

  /** `str.lower()` on one character, for the ASCII letters the keyword
      table uses; every other character is left as it is. */
  function LowerChar(c: char): char
  {
    if 'A' <= c <= 'Z' then (c as int + 32) as char else c
  }

  function Lower(s: string): string
  {
    seq(|s|, i requires 0 <= i < |s| => LowerChar(s[i]))
  }

  /** Lower-casing keeps the length, leaves no upper-case ASCII letter and
      is idempotent. */
  lemma LowerProperties(s: string)
    ensures |Lower(s)| == |s|
    ensures forall i :: 0 <= i < |s| ==> !('A' <= Lower(s)[i] <= 'Z')
    ensures Lower(Lower(s)) == Lower(s)
  {
    assert forall i :: 0 <= i < |s| ==> LowerChar(LowerChar(s[i])) == LowerChar(s[i]);
  }

  /** The meaning of Python's `k in s` on strings: k is a contiguous run of s. */
  ghost predicate Occurs(k: string, s: string)
  {
    exists i :: OccursAt(k, s, i)
  }

  /** k occurs in s starting at position i. */
  ghost predicate OccursAt(k: string, s: string, i: int)
  {
    0 <= i <= |s| - |k| && s[i..i + |k|] == k
  }

  predicate IsPrefix(k: string, s: string)
  {
    |k| <= |s| && s[..|k|] == k
  }

  /** Executable substring test: k starts at the front of s or somewhere in its tail. */
  function Contains(s: string, k: string): bool
    decreases |s|
  {
    IsPrefix(k, s) || (|s| > 0 && Contains(s[1..], k))
  }

  /** Contains computes exactly Python's `k in s`. */
  lemma ContainsIsOccurs(s: string, k: string)
    ensures Contains(s, k) <==> Occurs(k, s)
  {
    if Contains(s, k) {
      ContainsOccurs(s, k);
    }
    if Occurs(k, s) {
      var i :| OccursAt(k, s, i);
      OccursAtContains(s, k, i);
    }
  }

  lemma {:induction false} ContainsOccurs(s: string, k: string)
    requires Contains(s, k)
    ensures Occurs(k, s)
    decreases |s|
  {
    if IsPrefix(k, s) {
      assert OccursAt(k, s, 0);
    } else {
      ContainsOccurs(s[1..], k);
      var i :| OccursAt(k, s[1..], i);
      assert s[i + 1..i + 1 + |k|] == s[1..][i..i + |k|];
      assert OccursAt(k, s, i + 1);
    }
  }

  lemma {:induction false} OccursAtContains(s: string, k: string, i: int)
    requires OccursAt(k, s, i)
    ensures Contains(s, k)
    decreases i
  {
    if i == 0 {
      assert IsPrefix(k, s);
    } else {
      assert s[1..][i - 1..i - 1 + |k|] == s[i..i + |k|];
      OccursAtContains(s[1..], k, i - 1);
    }
  }

  /** A string placed between two others occurs in the concatenation. */
  lemma OccursBetween(a: string, b: string, c: string)
    ensures Occurs(b, a + b + c)
  {
    var s := a + b + c;
    assert s[|a|..|a| + |b|] == b;
    assert OccursAt(b, s, |a|);
  }

  function DigitChar(d: nat): char
    requires d < 10
  {
    "0123456789"[d]
  }

  /** Python's `str(n)` (equivalently an f-string field) for a non-negative int. */
  function NatToString(n: nat): (r: string)
    ensures |r| >= 1
    ensures forall i :: 0 <= i < |r| ==> '0' <= r[i] <= '9'
    decreases n
  {
    if n < 10 then [DigitChar(n)] else NatToString(n / 10) + [DigitChar(n % 10)]
  }
}

module Wrappers {
  datatype Option<T> = None | Some(value: T)
}
