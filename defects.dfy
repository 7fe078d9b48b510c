/** The defect record that `VisionAgent.analyze_image` produces and every
    later stage consumes, and the severity ordering the pipeline sorts by. */
module Defects {
  import opened Seqs

  datatype Severity = High | Medium | Low

  /** The sort key `severity_order` of `analyze_image`: High=0, Medium=1, Low=2. */
  function Rank(s: Severity): nat
  {
    match s
    case High => 0
    case Medium => 1
    case Low => 2
  }

  /** One defect dictionary. `confidence` is in whole hundredths (0.87 is 87),
      the precision `round(..., 2)` leaves it with. */
  datatype Defect = Defect(
    defectType: string,
    severity: Severity,
    location: string,
    confidence: nat,
    description: string,
    ircCode: string,
    estimatedCost: int,
    imageRef: string)

  /** `[d for d in defects if d["severity"] == s]`, in input order. */
  function OfSeverity(ds: seq<Defect>, s: Severity): (r: seq<Defect>)
    ensures |r| <= |ds|
    ensures forall i :: 0 <= i < |r| ==> r[i].severity == s
  {
    if ds == [] then []
    else OfSeverity(ds[..|ds| - 1], s) + (if ds[|ds| - 1].severity == s then [ds[|ds| - 1]] else [])
  }

  /** The result of Python's stable `list.sort` keyed by `Rank`: every High
      defect, then every Medium one, then every Low one, each group in its
      original order. */
  function SortBySeverity(ds: seq<Defect>): seq<Defect>
  {
    OfSeverity(ds, High) + OfSeverity(ds, Medium) + OfSeverity(ds, Low)
  }

  predicate SortedBySeverity(ds: seq<Defect>)
  {
    forall i, j :: 0 <= i < j < |ds| ==> Rank(ds[i].severity) <= Rank(ds[j].severity)
  }

  lemma {:induction false} OfSeverityAppend(a: seq<Defect>, b: seq<Defect>, s: Severity)
    ensures OfSeverity(a + b, s) == OfSeverity(a, s) + OfSeverity(b, s)
    decreases |b|
  {
    if b == [] {
      assert a + b == a;
    } else {
      var b' := b[..|b| - 1];
      assert (a + b)[..|a + b| - 1] == a + b';
      OfSeverityAppend(a, b', s);
    }
  }

  lemma {:induction false} OfSeverityOfUniform(ds: seq<Defect>, s: Severity, t: Severity)
    requires forall i :: 0 <= i < |ds| ==> ds[i].severity == s
    ensures OfSeverity(ds, t) == if s == t then ds else []
  {
    if ds != [] {
      OfSeverityOfUniform(ds[..|ds| - 1], s, t);
    }
  }

  /** The three severity groups partition the list: the sort keeps every
      defect exactly as often as it occurs. */
  lemma {:induction false} GroupsPartition(ds: seq<Defect>)
    ensures multiset(OfSeverity(ds, High)) + multiset(OfSeverity(ds, Medium)) + multiset(OfSeverity(ds, Low))
         == multiset(ds)
  {
    if ds != [] {
      var p, x := ds[..|ds| - 1], ds[|ds| - 1];
      GroupsPartition(p);
      assert ds == p + [x];
      OfSeveritySnoc(p, x, High);
      OfSeveritySnoc(p, x, Medium);
      OfSeveritySnoc(p, x, Low);
      var h, m, l := OfSeverity(p, High), OfSeverity(p, Medium), OfSeverity(p, Low);
      var hx, mx, lx := OfSeverity(ds, High), OfSeverity(ds, Medium), OfSeverity(ds, Low);
      assert multiset(ds) == multiset(p) + multiset{x};
      match x.severity
      case High =>
        assert hx == h + [x] && mx == m && lx == l;
        SnocFirst(h, m, l, x);
      case Medium =>
        assert hx == h && mx == m + [x] && lx == l;
        SnocSecond(h, m, l, x);
      case Low =>
        assert hx == h && mx == m && lx == l + [x];
        SnocThird(h, m, l, x);
    }
  }

  /** Every defect belongs to exactly one of the three severity groups, so
      the group sizes add up to the length of the list. */
  lemma SeverityCountsSum(ds: seq<Defect>)
    ensures |OfSeverity(ds, High)| + |OfSeverity(ds, Medium)| + |OfSeverity(ds, Low)| == |ds|
  {
    GroupsPartition(ds);
    assert |multiset(ds)| == |ds|;
  }

  /** The sort returns a permutation of its input. */
  lemma SortIsPermutation(ds: seq<Defect>)
    ensures multiset(SortBySeverity(ds)) == multiset(ds)
  {
    GroupsPartition(ds);
  }

  /** The sort's result is ordered by rank: High before Medium before Low. */
  lemma SortIsSorted(ds: seq<Defect>)
    ensures SortedBySeverity(SortBySeverity(ds))
  {
    var h, m, l := OfSeverity(ds, High), OfSeverity(ds, Medium), OfSeverity(ds, Low);
    var r := h + m + l;
    forall i | 0 <= i < |r|
      ensures Rank(r[i].severity) == if i < |h| then 0 else if i < |h| + |m| then 1 else 2
    {
      if i < |h| {
        assert r[i] == h[i];
      } else if i < |h| + |m| {
        assert r[i] == m[i - |h|];
      } else {
        assert r[i] == l[i - |h| - |m|];
      }
    }
  }

  /** The sort is stable: within one severity the original order is kept. */
  lemma SortIsStable(ds: seq<Defect>, s: Severity)
    ensures OfSeverity(SortBySeverity(ds), s) == OfSeverity(ds, s)
  {
    var h, m, l := OfSeverity(ds, High), OfSeverity(ds, Medium), OfSeverity(ds, Low);
    OfSeverityAppend(h + m, l, s);
    OfSeverityAppend(h, m, s);
    OfSeverityOfUniform(h, High, s);
    OfSeverityOfUniform(m, Medium, s);
    OfSeverityOfUniform(l, Low, s);
    var oh, om, ol := OfSeverity(h, s), OfSeverity(m, s), OfSeverity(l, s);
    assert OfSeverity(SortBySeverity(ds), s) == oh + om + ol;
    match s
    case High => OnlyOne(oh, om, ol);
    case Medium => OnlyOne(om, oh, ol);
    case Low => OnlyOne(ol, oh, om);
  }

  lemma OfSeveritySnoc(p: seq<Defect>, x: Defect, s: Severity)
    ensures OfSeverity(p + [x], s) == OfSeverity(p, s) + (if x.severity == s then [x] else [])
  {
    assert (p + [x])[..|p|] == p;
  }

  /** Appending a defect that ranks at least as high as every element
      appends it to the sorted list as well. */
  lemma SortSnoc(p: seq<Defect>, x: Defect)
    requires forall i :: 0 <= i < |p| ==> Rank(p[i].severity) <= Rank(x.severity)
    ensures SortBySeverity(p + [x]) == SortBySeverity(p) + [x]
  {
    OfSeveritySnoc(p, x, High);
    OfSeveritySnoc(p, x, Medium);
    OfSeveritySnoc(p, x, Low);
    var h, m, l := OfSeverity(p, High), OfSeverity(p, Medium), OfSeverity(p, Low);
    match x.severity
    case High =>
      OfSeverityOfUniform(p, High, Medium);
      OfSeverityOfUniform(p, High, Low);
      JoinSnocFirst(h, m, l, x);
    case Medium =>
      NoneOfSeverity(p, Low);
      JoinSnocSecond(h, m, l, x);
    case Low =>
      JoinSnocThird(h, m, l, x);
  }

  /** A list already ordered by rank is left unchanged by the sort. */
  lemma {:induction false} SortOfSorted(ds: seq<Defect>)
    requires SortedBySeverity(ds)
    ensures SortBySeverity(ds) == ds
  {
    if ds != [] {
      var p, x := ds[..|ds| - 1], ds[|ds| - 1];
      assert ds == p + [x];
      SortOfSorted(p);
      SortSnoc(p, x);
    }
  }

  lemma {:induction false} NoneOfSeverity(ds: seq<Defect>, s: Severity)
    requires forall i :: 0 <= i < |ds| ==> ds[i].severity != s
    ensures OfSeverity(ds, s) == []
  {
    if ds != [] {
      NoneOfSeverity(ds[..|ds| - 1], s);
    }
  }

  /** `SortBySeverity` is THE stable sort by rank: any list that is ordered by
      rank and keeps each severity group of `ds` in its original order equals
      `SortBySeverity(ds)`. */
  lemma StableSortIsUnique(ds: seq<Defect>, r: seq<Defect>)
    requires SortedBySeverity(r)
    requires forall s :: OfSeverity(r, s) == OfSeverity(ds, s)
    ensures r == SortBySeverity(ds)
  {
    SortOfSorted(r);
  }
}
