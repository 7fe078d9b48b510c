/** `IRCKnowledgeBase`: the building-code table, its exact-key lookup and the
    keyword retrieval matcher (`search_by_violation`). */
module Knowledge {
  import opened Seqs
  import opened Text
  import opened Wrappers

  /** One entry of the loaded `codes` dictionary. `title` and `description`
      are read with `[...]` by the matcher, so every entry carries them;
      `category` is read with `.get(..., "General")` and may be absent. */
  datatype CodeEntry = CodeEntry(title: string, description: string, category: Option<string>)

  /** What reading `irc_knowledge_base.json` yields: the file could not be
      opened or parsed, or it parsed and may or may not hold a `codes` field. */
  datatype KbSource = Unreadable | Parsed(codesField: Option<map<string, CodeEntry>>)

  /** The codes dictionary `load_knowledge_base` ends up with. */
  function Loaded(source: KbSource): map<string, CodeEntry>
  {
    match source
    case Unreadable => map[]
    case Parsed(None) => map[]
    case Parsed(Some(codes)) => codes
  }

  /** A load that fails leaves the knowledge base empty, and only a parsed
      `codes` field can make it non-empty. */
  lemma LoadFailureLeavesEmpty(source: KbSource)
    ensures Loaded(source) != map[] ==> source.Parsed? && source.codesField == Some(Loaded(source))
    ensures source == Unreadable ==> Loaded(source) == map[]
  {
  }

  /** `keyword_map` of `search_by_violation`, in its insertion order, which
      is the order the matcher scans it in. */
  function KeywordTable(): seq<(string, seq<string>)>
  {
    [
      ("crack", ["R302.1", "R403.1", "R602.10"]),
      ("water", ["R302.1", "R806.1", "P2903.2", "M1411.3"]),
      ("electrical", ["E3404.1", "E3605.1"]),
      ("foundation", ["R403.1"]),
      ("plumbing", ["P2903.2"]),
      ("leak", ["R806.1", "P2903.2", "M1411.3"]),
      ("structural", ["R403.1", "R602.10"]),
      ("paint", ["R703.1"]),
      ("window", ["R308.4"]),
      ("roof", ["R905.2", "R806.1"]),
      ("hvac", ["M1411.3"]),
      ("wall", ["R302.1", "R602.10", "R703.1"]),
      ("moisture", ["R806.1", "R302.1"]),
      ("damage", ["R302.1", "R806.1", "R403.1"]),
      ("ceiling", ["R806.1"])
    ]
  }

  /** The most results `search_by_violation` returns (`matched_codes[:2]`). */
  const MaxMatches := 2

  /** One entry of `matched_codes`. */
  datatype CodeMatch = CodeMatch(code: string, title: string, description: string, confidence: real)

  /** Every code listed under a keyword that occurs in `text`, keyword by
      keyword in table order and, under one keyword, in list order;
      repetitions and unknown codes included. */
  function CandidateCodes(table: seq<(string, seq<string>)>, text: string): seq<string>
  {
    if table == [] then []
    else
      var last := table[|table| - 1];
      CandidateCodes(table[..|table| - 1], text) + (if Contains(text, last.0) then last.1 else [])
  }

  /** The candidates that are keys of `codes`, each kept at its first
      occurrence only. */
  function FirstKnown(codes: map<string, CodeEntry>, cands: seq<string>): (r: seq<string>)
    ensures forall c :: c in r ==> c in codes
  {
    if cands == [] then []
    else
      var p := FirstKnown(codes, cands[..|cands| - 1]);
      var c := cands[|cands| - 1];
      if c in codes && c !in p then p + [c] else p
  }

  /** The codes `search_by_violation` appends to `matched_codes`, in order. */
  function MatchedCodeIds(codes: map<string, CodeEntry>, defectType: string): (r: seq<string>)
    ensures forall c :: c in r ==> c in codes
  {
    FirstKnown(codes, CandidateCodes(KeywordTable(), Lower(defectType)))
  }

  /** The dictionary appended for `code`, whose confidence draw is `u`. */
  function ToMatch(codes: map<string, CodeEntry>, code: string, u: real): CodeMatch
    requires code in codes
  {
    CodeMatch(code, codes[code].title, codes[code].description, 0.85 + u)
  }

  /** `matched_codes` once the scan is over, before the cut to two. */
  function Matches(codes: map<string, CodeEntry>, ids: seq<string>, draw: nat -> real): (r: seq<CodeMatch>)
    requires forall c :: c in ids ==> c in codes
    ensures |r| == |ids|
  {
    seq(|ids|, k requires 0 <= k < |ids| => ToMatch(codes, ids[k], draw(k)))
  }

  /** `search_by_violation(defect_type)`, where `draw(k)` is the value
      `random.uniform(0, 0.15)` returns for the k-th appended match. */
  function SearchResults(codes: map<string, CodeEntry>, defectType: string, draw: nat -> real): seq<CodeMatch>
  {
    TopMatches(codes, MatchedCodeIds(codes, defectType), draw)
  }

  /** `matched_codes[:2]`. */
  function TopMatches(codes: map<string, CodeEntry>, ids: seq<string>, draw: nat -> real): seq<CodeMatch>
    requires forall c :: c in ids ==> c in codes
  {
    var all := Matches(codes, ids, draw);
    all[..if |all| < MaxMatches then |all| else MaxMatches]
  }

  ghost predicate DrawsInRange(draw: nat -> real)
  {
    forall k: nat :: 0.0 <= draw(k) <= 0.15
  }

  function CodesOf(ms: seq<CodeMatch>): (r: seq<string>)
    ensures |r| == |ms|
    ensures forall k :: 0 <= k < |ms| ==> r[k] == ms[k].code
  {
    seq(|ms|, k requires 0 <= k < |ms| => ms[k].code)
  }

  /** Index of the first occurrence of x in s. */
  function FirstIndex(s: seq<string>, x: string): (i: nat)
    requires x in s
    ensures i < |s| && s[i] == x && x !in s[..i]
  {
    if s[0] == x then 0 else 1 + FirstIndex(s[1..], x)
  }

  // ---------------------------------------------------------------------
  // Properties of the matcher

  /** A code is a candidate exactly when it is listed under some keyword
      that occurs in the text. */
  lemma {:induction false} CandidateCodesFromKeyword(table: seq<(string, seq<string>)>, text: string, c: string)
    ensures c in CandidateCodes(table, text)
        <==> exists j :: 0 <= j < |table| && Contains(text, table[j].0) && c in table[j].1
  {
    if table != [] {
      var p := table[..|table| - 1];
      CandidateCodesFromKeyword(p, text, c);
      if exists j :: 0 <= j < |table| && Contains(text, table[j].0) && c in table[j].1 {
        var j :| 0 <= j < |table| && Contains(text, table[j].0) && c in table[j].1;
        if j < |p| {
          assert p[j] == table[j];
        }
      }
      if exists j :: 0 <= j < |p| && Contains(text, p[j].0) && c in p[j].1 {
        var j :| 0 <= j < |p| && Contains(text, p[j].0) && c in p[j].1;
        assert table[j] == p[j];
      }
    }
  }

  /** The matcher keeps a candidate exactly when the knowledge base has it. */
  lemma {:induction false} FirstKnownMembers(codes: map<string, CodeEntry>, cands: seq<string>, c: string)
    ensures c in FirstKnown(codes, cands) <==> c in codes && c in cands
  {
    if cands != [] {
      var p := cands[..|cands| - 1];
      FirstKnownMembers(codes, p, c);
      assert cands == p + [cands[|cands| - 1]];
    }
  }

  predicate NoDuplicates(s: seq<string>)
  {
    forall i, j :: 0 <= i < j < |s| ==> s[i] != s[j]
  }

  /** Every element of r is a candidate, and r lists them in the order of
      their first appearance among the candidates. */
  predicate InCandidateOrder(cands: seq<string>, r: seq<string>)
  {
    forall i, j :: 0 <= i < j < |r| ==> Before(cands, r[i], r[j])
  }

  /** a and b are both candidates, and a first appears before b does. */
  predicate Before(cands: seq<string>, a: string, b: string)
  {
    a in cands && b in cands && FirstIndex(cands, a) < FirstIndex(cands, b)
  }

  /** The matcher never returns a code twice. */
  lemma {:induction false} FirstKnownDistinct(codes: map<string, CodeEntry>, cands: seq<string>)
    ensures NoDuplicates(FirstKnown(codes, cands))
  {
    if cands != [] {
      var p, c := cands[..|cands| - 1], cands[|cands| - 1];
      FirstKnownDistinct(codes, p);
      var rp := FirstKnown(codes, p);
      if c in codes && c !in rp {
        var r := rp + [c];
        forall i, j | 0 <= i < j < |r| ensures r[i] != r[j] {
          assert r[i] == rp[i] && rp[i] in rp;
          if j < |rp| {
            assert r[j] == rp[j];
          } else {
            assert r[j] == c;
          }
        }
        assert FirstKnown(codes, cands) == r;
      }
    }
  }

  /** The matcher keeps candidate order: a code listed earlier (by its first
      appearance) comes earlier in the result. */
  lemma {:induction false} FirstKnownOrder(codes: map<string, CodeEntry>, cands: seq<string>)
    ensures InCandidateOrder(cands, FirstKnown(codes, cands))
  {
    if cands != [] {
      var p, c := cands[..|cands| - 1], cands[|cands| - 1];
      assert cands == p + [c];
      FirstKnownOrder(codes, p);
      var rp := FirstKnown(codes, p);
      forall x | x in p
        ensures FirstIndex(cands, x) == FirstIndex(p, x)
      {
        FirstIndexSnoc(p, c, x);
      }
      forall x | x in rp ensures x in p {
        FirstKnownMembers(codes, p, x);
      }
      if c in codes && c !in rp {
        FirstKnownMembers(codes, p, c);
        assert c !in p;
        FirstIndexSnoc(p, c, c);
        var r := rp + [c];
        forall i, j | 0 <= i < j < |r|
          ensures Before(cands, r[i], r[j])
        {
          assert r[i] == rp[i] && rp[i] in p;
          if j < |rp| {
            assert r[j] == rp[j] && rp[j] in p;
          } else {
            assert FirstIndex(p, rp[i]) < |p|;
          }
        }
        assert FirstKnown(codes, cands) == r;
      }
    }
  }

  lemma {:induction false} FirstIndexSnoc(p: seq<string>, c: string, x: string)
    requires x in p + [c]
    ensures x in p ==> FirstIndex(p + [c], x) == FirstIndex(p, x)
    ensures x !in p ==> FirstIndex(p + [c], x) == |p|
  {
    if p != [] && p[0] != x {
      assert (p + [c])[1..] == p[1..] + [c];
      FirstIndexSnoc(p[1..], c, x);
    }
  }

  /** What `search_by_violation` promises: at most two results; each is a
      known code, listed under a keyword that occurs in the lower-cased
      defect type, and carries that code's title and description; no code
      twice; results in keyword-table order, then code-list order; each
      confidence in [0.85, 1.0]. */
  lemma SearchResultsProperties(codes: map<string, CodeEntry>, defectType: string, draw: nat -> real)
    requires DrawsInRange(draw)
    ensures |SearchResults(codes, defectType, draw)| <= MaxMatches
    ensures forall m :: m in SearchResults(codes, defectType, draw) ==>
      && m.code in codes
      && m.title == codes[m.code].title
      && m.description == codes[m.code].description
      && (exists j :: 0 <= j < |KeywordTable()| && Contains(Lower(defectType), KeywordTable()[j].0) && m.code in KeywordTable()[j].1)
      && 0.85 <= m.confidence <= 1.0
    ensures NoDuplicates(CodesOf(SearchResults(codes, defectType, draw)))
    ensures InCandidateOrder(CandidateCodes(KeywordTable(), Lower(defectType)), CodesOf(SearchResults(codes, defectType, draw)))
  {
    TopMatchesProperties(codes, KeywordTable(), Lower(defectType), draw);
  }

  /** `SearchResultsProperties` for any keyword table and text. */
  lemma TopMatchesProperties(codes: map<string, CodeEntry>, table: seq<(string, seq<string>)>, text: string, draw: nat -> real)
    requires DrawsInRange(draw)
    ensures |TopMatches(codes, FirstKnown(codes, CandidateCodes(table, text)), draw)| <= MaxMatches
    ensures forall m :: m in TopMatches(codes, FirstKnown(codes, CandidateCodes(table, text)), draw) ==>
      && m.code in codes
      && m.title == codes[m.code].title
      && m.description == codes[m.code].description
      && (exists j :: 0 <= j < |table| && Contains(text, table[j].0) && m.code in table[j].1)
      && 0.85 <= m.confidence <= 1.0
    ensures NoDuplicates(CodesOf(TopMatches(codes, FirstKnown(codes, CandidateCodes(table, text)), draw)))
    ensures InCandidateOrder(CandidateCodes(table, text), CodesOf(TopMatches(codes, FirstKnown(codes, CandidateCodes(table, text)), draw)))
  {
    var cands := CandidateCodes(table, text);
    var ids := FirstKnown(codes, cands);
    var r := TopMatches(codes, ids, draw);
    FirstKnownDistinct(codes, cands);
    FirstKnownOrder(codes, cands);
    assert forall i :: 0 <= i < |r| ==> r[i] == ToMatch(codes, ids[i], draw(i));
    forall m | m in r
      ensures 0.85 <= m.confidence <= 1.0
      ensures exists j :: 0 <= j < |table| && Contains(text, table[j].0) && m.code in table[j].1
    {
      var i :| 0 <= i < |r| && r[i] == m;
      FirstKnownMembers(codes, cands, ids[i]);
      CandidateCodesFromKeyword(table, text, ids[i]);
    }
    assert CodesOf(r) == ids[..|r|];
    InCandidateOrderPrefix(cands, ids, |r|);
  }

  lemma TopMatchesNonEmpty(codes: map<string, CodeEntry>, ids: seq<string>, draw: nat -> real)
    requires forall c :: c in ids ==> c in codes
    ensures TopMatches(codes, ids, draw) != [] <==> ids != []
    ensures ids != [] ==> TopMatches(codes, ids, draw)[0] == ToMatch(codes, ids[0], draw(0))
  {
  }

  lemma InCandidateOrderPrefix(cands: seq<string>, r: seq<string>, n: nat)
    requires InCandidateOrder(cands, r) && n <= |r|
    ensures InCandidateOrder(cands, r[..n])
  {
  }

  /** The matcher finds something exactly when some code listed under a
      keyword occurring in the lower-cased defect type is in the knowledge
      base; the first result is then the first code `FirstKnown` keeps, the
      earliest known candidate. */
  lemma SearchFindsIffKnownCandidate(codes: map<string, CodeEntry>, defectType: string, draw: nat -> real)
    ensures var cands := CandidateCodes(KeywordTable(), Lower(defectType));
      SearchResults(codes, defectType, draw) != [] <==> exists c :: c in cands && c in codes
    ensures var cands := CandidateCodes(KeywordTable(), Lower(defectType));
      SearchResults(codes, defectType, draw) != [] ==>
        SearchResults(codes, defectType, draw)[0].code == FirstKnown(codes, cands)[0]
  {
    var cands := CandidateCodes(KeywordTable(), Lower(defectType));
    var ids := FirstKnown(codes, cands);
    if exists c :: c in cands && c in codes {
      var c :| c in cands && c in codes;
      FirstKnownMembers(codes, cands, c);
    }
    if ids != [] {
      FirstKnownMembers(codes, cands, ids[0]);
    }
    TopMatchesNonEmpty(codes, ids, draw);
  }

  lemma CandidateCodesStep(table: seq<(string, seq<string>)>, i: nat, text: string)
    requires i < |table|
    ensures CandidateCodes(table[..i + 1], text)
         == CandidateCodes(table[..i], text) + (if Contains(text, table[i].0) then table[i].1 else [])
  {
    assert table[..i + 1][..i] == table[..i];
  }

  lemma FirstKnownSnoc(codes: map<string, CodeEntry>, cands: seq<string>, c: string)
    ensures FirstKnown(codes, cands + [c])
         == var p := FirstKnown(codes, cands); if c in codes && c !in p then p + [c] else p
  {
    assert (cands + [c])[..|cands|] == cands;
  }

  lemma CodesOfMatches(codes: map<string, CodeEntry>, ids: seq<string>, draw: nat -> real)
    requires forall x :: x in ids ==> x in codes
    ensures CodesOf(Matches(codes, ids, draw)) == ids
  {
    var ms := Matches(codes, ids, draw);
    assert forall k :: 0 <= k < |ids| ==> ms[k] == ToMatch(codes, ids[k], draw(k));
  }

  lemma MatchesSnoc(codes: map<string, CodeEntry>, ids: seq<string>, c: string, draw: nat -> real)
    requires forall x :: x in ids ==> x in codes
    requires c in codes
    ensures Matches(codes, ids + [c], draw) == Matches(codes, ids, draw) + [ToMatch(codes, c, draw(|ids|))]
  {
  }

  // ---------------------------------------------------------------------

  class KnowledgeBase {
    /** `self.codes`: code id to entry. */
    var codes: map<string, CodeEntry>

    /** `IRCKnowledgeBase()`: start empty, then load. */
    constructor (source: KbSource)
      ensures codes == Loaded(source)
    {
      codes := map[];
      new;
      LoadKnowledgeBase(source);
    }

    /** `load_knowledge_base`: take the parsed `codes` field, or `{}` when the
        file cannot be read or has no such field. */
    method LoadKnowledgeBase(source: KbSource)
      modifies this
      ensures codes == Loaded(source)
    {
      match source {
        case Parsed(Some(parsed)) =>
          codes := parsed;
        case Parsed(None) =>
          codes := map[];
        case Unreadable =>
          codes := map[];
      }
    }

    /** `retrieve_code`: `self.codes.get(code_id, None)`. */
    function RetrieveCode(codeId: string): (r: Option<CodeEntry>)
      reads this
      ensures r.Some? <==> codeId in codes
      ensures r.Some? ==> r.value == codes[codeId]
    {
      if codeId in codes then Some(codes[codeId]) else None
    }

    /** The inner loop of `search_by_violation`: append each code of
        `codeList` that is known and not yet matched. */
    method AppendKnownCodes(codeList: seq<string>, ghost before: seq<string>, ghost ids0: seq<string>,
                            matched0: seq<CodeMatch>, draw: nat -> real)
      returns (matched: seq<CodeMatch>, ghost ids: seq<string>)
      requires ids0 == FirstKnown(codes, before)
      requires matched0 == Matches(codes, ids0, draw)
      ensures ids == FirstKnown(codes, before + codeList)
      ensures matched == Matches(codes, FirstKnown(codes, before + codeList), draw)
    {
      matched, ids := matched0, ids0;
      var j := 0;
      ghost var scanned := before;
      assert before + codeList[..0] == before;
      while j < |codeList|
        invariant 0 <= j <= |codeList|
        invariant scanned == before + codeList[..j]
        invariant ids == FirstKnown(codes, scanned)
        invariant matched == Matches(codes, ids, draw)
      {
        var code := codeList[j];
        SnocSlice(before, codeList, j);
        FirstKnownSnoc(codes, scanned, code);
        CodesOfMatches(codes, ids, draw);
        if code in codes && code !in CodesOf(matched) {
          MatchesSnoc(codes, ids, code, draw);
          matched := matched + [ToMatch(codes, code, draw(|matched|))];
          ids := ids + [code];
        }
        scanned := scanned + [code];
        j := j + 1;
      }
      assert codeList[..j] == codeList;
    }

    /** `search_by_violation`: scan the keyword table against the lower-cased
        defect type, append each known code not yet matched, return the first
        two. `draw(k)` is the `random.uniform(0, 0.15)` value of the k-th
        appended match. */
    method SearchByViolation(defectType: string, draw: nat -> real) returns (matches: seq<CodeMatch>)
      ensures matches == SearchResults(codes, defectType, draw)
    {
      var text := Lower(defectType);
      var matched: seq<CodeMatch> := [];
      ghost var ids: seq<string> := [];
      var i := 0;
      while i < |KeywordTable()|
        invariant 0 <= i <= |KeywordTable()|
        invariant ids == FirstKnown(codes, CandidateCodes(KeywordTable()[..i], text))
        invariant matched == Matches(codes, ids, draw)
      {
        var keyword, codeList := KeywordTable()[i].0, KeywordTable()[i].1;
        ghost var before := CandidateCodes(KeywordTable()[..i], text);
        CandidateCodesStep(KeywordTable(), i, text);
        if Contains(text, keyword) {
          matched, ids := AppendKnownCodes(codeList, before, ids, matched, draw);
        } else {
          assert before + [] == before;
        }
        i := i + 1;
      }
      assert KeywordTable()[..i] == KeywordTable();
      matches := matched[..if |matched| < MaxMatches then |matched| else MaxMatches];
    }
  }
}
