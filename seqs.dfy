/** Generic facts about sequences, and the two list combinators the
    orchestrator is written with. The defect, matcher and report proofs
    call these on concrete lists. */
module Seqs {
  /** `[f(x) for x in s]`. */
  function MapSeq<A, B>(f: A -> B, s: seq<A>): (r: seq<B>)
    ensures |r| == |s|
  {
    seq(|s|, i requires 0 <= i < |s| => f(s[i]))
  }

  /** `list.extend` applied to each part in turn, starting from `[]`. */
  function Flatten<T>(parts: seq<seq<T>>): seq<T>
  {
    if parts == [] then [] else Flatten(parts[..|parts| - 1]) + parts[|parts| - 1]
  }

  // ---------------------------------------------------------------------
  // Prefixes and appends

  lemma TakeSnoc<T>(s: seq<T>, i: nat)
    requires i < |s|
    ensures s[..i + 1] == s[..i] + [s[i]]
  {
  }

  lemma AppendEmpty<T>(s: seq<T>, t: seq<T>)
    requires t == []
    ensures s + t == s
  {
  }

  lemma SnocSlice<T>(a: seq<T>, b: seq<T>, j: nat)
    requires j < |b|
    ensures a + b[..j + 1] == (a + b[..j]) + [b[j]]
  {
    assert b[..j + 1] == b[..j] + [b[j]];
  }

  // ---------------------------------------------------------------------
  // Concatenation shapes

  /** Appending `x` to one of three lists adds `x` to their combined
      multiset. */
  lemma SnocFirst<T>(a: seq<T>, b: seq<T>, c: seq<T>, x: T)
    ensures multiset(a + [x]) + multiset(b) + multiset(c) == multiset(a) + multiset(b) + multiset(c) + multiset{x}
  {
  }

  lemma SnocSecond<T>(a: seq<T>, b: seq<T>, c: seq<T>, x: T)
    ensures multiset(a) + multiset(b + [x]) + multiset(c) == multiset(a) + multiset(b) + multiset(c) + multiset{x}
  {
  }

  lemma SnocThird<T>(a: seq<T>, b: seq<T>, c: seq<T>, x: T)
    ensures multiset(a) + multiset(b) + multiset(c + [x]) == multiset(a) + multiset(b) + multiset(c) + multiset{x}
  {
  }

  /** Joining three lists of which two are empty gives the third, in any
      position. */
  lemma OnlyOne<T>(a: seq<T>, b: seq<T>, c: seq<T>)
    requires b == [] && c == []
    ensures a + b + c == a && b + a + c == a && b + c + a == a
  {
  }

  /** Appending `x` to the last non-empty list of three appends it to their
      concatenation. */
  lemma JoinSnocFirst<T>(a: seq<T>, b: seq<T>, c: seq<T>, x: T)
    requires b == [] && c == []
    ensures (a + [x]) + b + c == (a + b + c) + [x]
  {
  }

  lemma JoinSnocSecond<T>(a: seq<T>, b: seq<T>, c: seq<T>, x: T)
    requires c == []
    ensures a + (b + [x]) + c == (a + b + c) + [x]
  {
  }

  lemma JoinSnocThird<T>(a: seq<T>, b: seq<T>, c: seq<T>, x: T)
    ensures a + b + (c + [x]) == (a + b + c) + [x]
  {
  }

  // ---------------------------------------------------------------------
  // Map and flatten

  lemma MapSeqAppend<A, B>(f: A -> B, a: seq<A>, b: seq<A>)
    ensures MapSeq(f, a + b) == MapSeq(f, a) + MapSeq(f, b)
  {
    assert forall i :: 0 <= i < |a + b| ==> (a + b)[i] == if i < |a| then a[i] else b[i - |a|];
  }

  lemma {:induction false} FlattenAppend<T>(a: seq<seq<T>>, b: seq<seq<T>>)
    ensures Flatten(a + b) == Flatten(a) + Flatten(b)
    decreases |b|
  {
    if b == [] {
      assert a + b == a;
    } else {
      var b', x := b[..|b| - 1], b[|b| - 1];
      assert a + b == (a + b') + [x];
      FlattenAppend(a, b');
      calc {
        Flatten(a + b);
        Flatten((a + b') + [x]);
        Flatten(a + b') + x;
        Flatten(a) + Flatten(b') + x;
        Flatten(a) + Flatten(b);
      }
    }
  }

  lemma MapSeqSingle<A, B>(f: A -> B, x: A)
    ensures MapSeq(f, [x]) == [f(x)]
  {
  }

  lemma FlattenSingle<T>(x: seq<T>)
    ensures Flatten([x]) == x
  {
    assert [x][..0] == [];
  }
}
