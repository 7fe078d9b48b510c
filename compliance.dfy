/** `ComplianceAgent.check_compliance`: maps each defect to at most one
    code-violation record, by exact code lookup first and by the keyword
    matcher as a fallback. */
module Compliance {
  import opened Wrappers
  import opened Text
  import opened Defects
  import opened Knowledge

  datatype Status = Violation | ReviewRequired

  /** One `violation_entry` dictionary. `rag_confidence` is present only on
      records found through the keyword fallback. */
  datatype ViolationRecord = ViolationRecord(
    defect: string,
    location: string,
    code: string,
    codeTitle: string,
    codeDescription: string,
    status: Status,
    severity: Severity,
    ragConfidence: Option<real>,
    category: string)

  /** The dictionary `check_compliance` returns. */
  datatype ComplianceResult = ComplianceResult(
    violations: seq<ViolationRecord>,
    ragReferences: seq<string>,
    totalViolations: nat,
    totalReviews: nat)

  /** The record for a defect whose `irc_code` is in the knowledge base. */
  function ExactRecord(d: Defect, entry: CodeEntry): ViolationRecord
  {
    ViolationRecord(
      d.defectType, d.location, d.ircCode, entry.title, entry.description,
      if d.severity == High then Violation else ReviewRequired,
      d.severity, None,
      if entry.category.Some? then entry.category.value else "General")
  }

  /** The record built from the first keyword match. */
  function FallbackRecord(d: Defect, m: CodeMatch): ViolationRecord
  {
    ViolationRecord(
      d.defectType, d.location, m.code, m.title, m.description,
      ReviewRequired, d.severity, Some(m.confidence), "Retrieved via RAG")
  }

  /** What one iteration of the loop appends to `violations`, if anything;
      `draw` supplies the matcher's confidence draws for this defect. */
  function RecordFor(codes: map<string, CodeEntry>, d: Defect, draw: nat -> real): Option<ViolationRecord>
  {
    if d.ircCode in codes then Some(ExactRecord(d, codes[d.ircCode]))
    else
      var matches := SearchResults(codes, d.defectType, draw);
      if matches != [] then Some(FallbackRecord(d, matches[0])) else None
  }

  /** The entry `rag_references` gains for an exact hit. */
  function Reference(code: string, entry: CodeEntry): string
  {
    code + ": " + entry.title
  }

  /** `violations` after the loop; `draws(i)` are the matcher's draws for
      the i-th defect. */
  function Violations(codes: map<string, CodeEntry>, ds: seq<Defect>, draws: nat -> nat -> real): seq<ViolationRecord>
  {
    if ds == [] then []
    else
      var n := |ds| - 1;
      Violations(codes, ds[..n], draws)
        + (match RecordFor(codes, ds[n], draws(n)) case Some(v) => [v] case None => [])
  }

  /** `rag_references` after the loop. */
  function References(codes: map<string, CodeEntry>, ds: seq<Defect>): seq<string>
  {
    if ds == [] then []
    else
      var n := |ds| - 1;
      References(codes, ds[..n])
        + (if ds[n].ircCode in codes then [Reference(ds[n].ircCode, codes[ds[n].ircCode])] else [])
  }

  /** `len([v for v in violations if v["status"] == status])`. */
  function CountStatus(vs: seq<ViolationRecord>, status: Status): nat
  {
    if vs == [] then 0
    else CountStatus(vs[..|vs| - 1], status) + (if vs[|vs| - 1].status == status then 1 else 0)
  }

  function ComplianceOf(codes: map<string, CodeEntry>, ds: seq<Defect>, draws: nat -> nat -> real): ComplianceResult
  {
    var vs := Violations(codes, ds, draws);
    ComplianceResult(vs, References(codes, ds), CountStatus(vs, Violation), CountStatus(vs, ReviewRequired))
  }

  // ---------------------------------------------------------------------
  // Properties

  /** A defect yields a record exactly when its code is in the knowledge
      base or the keyword matcher finds a known code for its type. */
  predicate Resolves(codes: map<string, CodeEntry>, d: Defect)
  {
    d.ircCode in codes || MatchedCodeIds(codes, d.defectType) != []
  }

  /** A record exists exactly when the exact lookup or the keyword matcher
      resolves the defect. */
  lemma RecordExists(codes: map<string, CodeEntry>, d: Defect, draw: nat -> real)
    ensures RecordFor(codes, d, draw).Some? <==> Resolves(codes, d)
  {
    TopMatchesNonEmpty(codes, MatchedCodeIds(codes, d.defectType), draw);
  }

  /** The status rule: a record says "Violation" exactly when the exact
      lookup succeeded and the defect is High; a fallback record is always
      "Review Required", cites the matcher's first code and carries its
      confidence, which lies in [0.85, 1.0]. Every record copies the
      defect's type, location and severity. */
  lemma RecordRules(codes: map<string, CodeEntry>, d: Defect, draw: nat -> real)
    requires DrawsInRange(draw)
    ensures RecordFor(codes, d, draw).Some? <==> Resolves(codes, d)
    ensures RecordFor(codes, d, draw).Some? ==>
      var v := RecordFor(codes, d, draw).value;
      && v.defect == d.defectType && v.location == d.location && v.severity == d.severity
      && (v.status == Violation <==> d.ircCode in codes && d.severity == High)
      && (d.ircCode in codes ==> v.code == d.ircCode && v.ragConfidence == None)
      && (d.ircCode !in codes ==>
            && v.status == ReviewRequired
            && v.code == MatchedCodeIds(codes, d.defectType)[0]
            && v.ragConfidence.Some?
            && 0.85 <= v.ragConfidence.value <= 1.0)
  {
    SearchResultsProperties(codes, d.defectType, draw);
    var ids := MatchedCodeIds(codes, d.defectType);
    var rs := SearchResults(codes, d.defectType, draw);
    assert ids != [] ==> rs != [] && rs[0] == ToMatch(codes, ids[0], draw(0));
    assert rs != [] ==> ids != [];
    if rs != [] {
      assert rs[0] in rs;
    }
  }

  /** The positions holding `true`, in increasing order. */
  function Positions(flags: seq<bool>): seq<nat>
  {
    if flags == [] then []
    else
      var n := |flags| - 1;
      Positions(flags[..n]) + (if flags[n] then [n] else [])
  }

  /** Which defects yield a record. */
  function ResolveFlags(codes: map<string, CodeEntry>, ds: seq<Defect>): (r: seq<bool>)
    ensures |r| == |ds|
    ensures forall i :: 0 <= i < |ds| ==> (r[i] <==> Resolves(codes, ds[i]))
  {
    seq(|ds|, i requires 0 <= i < |ds| => Resolves(codes, ds[i]))
  }

  /** The indices of the defects that yield a record, in increasing order. */
  function ResolvedIndices(codes: map<string, CodeEntry>, ds: seq<Defect>): seq<nat>
  {
    Positions(ResolveFlags(codes, ds))
  }

  predicate StrictlyIncreasing(s: seq<nat>)
  {
    forall i, j :: 0 <= i < j < |s| ==> s[i] < s[j]
  }

  lemma {:induction false} PositionsExact(flags: seq<bool>)
    ensures StrictlyIncreasing(Positions(flags))
    ensures forall j :: 0 <= j < |Positions(flags)| ==> Positions(flags)[j] < |flags|
    ensures forall i :: 0 <= i < |flags| ==> (i in Positions(flags) <==> flags[i])
  {
    if flags != [] {
      var n := |flags| - 1;
      var p := flags[..n];
      PositionsExact(p);
      assert n !in Positions(p);
      forall i | 0 <= i < n
        ensures i in Positions(flags) <==> flags[i]
      {
        assert flags[i] == p[i];
      }
    }
  }

  /** The resolving indices are increasing, in range, and are exactly the
      defects that resolve. */
  lemma ResolvedIndicesExact(codes: map<string, CodeEntry>, ds: seq<Defect>)
    ensures StrictlyIncreasing(ResolvedIndices(codes, ds))
    ensures forall j :: 0 <= j < |ResolvedIndices(codes, ds)| ==> ResolvedIndices(codes, ds)[j] < |ds|
    ensures forall i :: 0 <= i < |ds| ==> (i in ResolvedIndices(codes, ds) <==> Resolves(codes, ds[i]))
  {
    PositionsExact(ResolveFlags(codes, ds));
  }

  /** One more defect appends its index when it resolves. */
  lemma ResolvedIndicesSnoc(codes: map<string, CodeEntry>, ds: seq<Defect>)
    requires ds != []
    ensures ResolvedIndices(codes, ds)
         == ResolvedIndices(codes, ds[..|ds| - 1]) + (if Resolves(codes, ds[|ds| - 1]) then [|ds| - 1] else [])
  {
    assert ResolveFlags(codes, ds)[..|ds| - 1] == ResolveFlags(codes, ds[..|ds| - 1]);
  }

  /** The bookkeeping of one induction step of `ViolationsAlign`: appending
      the optional record `r` of position `n` to the records, and `n` to the
      indices when `r` is present, keeps the two lists aligned. */
  lemma AlignStep<V>(vp: seq<V>, ip: seq<nat>, r: Option<V>, n: nat, vs: seq<V>, ix: seq<nat>)
    requires |vp| == |ip| && forall j :: 0 <= j < |ip| ==> ip[j] < n
    requires vs == vp + (match r case Some(v) => [v] case None => [])
    requires ix == ip + (if r.Some? then [n] else [])
    ensures |vs| == |ix|
    ensures forall j :: 0 <= j < |ix| ==>
      if j < |ip| then ix[j] == ip[j] && vs[j] == vp[j] else ix[j] == n && r == Some(vs[j])
  {
  }

  /** At most one record per defect, in defect order: the j-th record is the
      one built for the j-th defect that resolves. Together with
      `ResolvedIndicesExact` this says every defect that resolves has its
      record and no other record exists. */
  lemma {:induction false} ViolationsAlign(codes: map<string, CodeEntry>, ds: seq<Defect>, draws: nat -> nat -> real)
    ensures |Violations(codes, ds, draws)| == |ResolvedIndices(codes, ds)| <= |ds|
    ensures forall j :: 0 <= j < |ResolvedIndices(codes, ds)| ==>
      var i := ResolvedIndices(codes, ds)[j];
      i < |ds| && RecordFor(codes, ds[i], draws(i)) == Some(Violations(codes, ds, draws)[j])
  {
    if ds != [] {
      var n := |ds| - 1;
      var p := ds[..n];
      ViolationsAlign(codes, p, draws);
      RecordExists(codes, ds[n], draws(n));
      ResolvedIndicesSnoc(codes, ds);
      var vs, ix := Violations(codes, ds, draws), ResolvedIndices(codes, ds);
      var vp, ip := Violations(codes, p, draws), ResolvedIndices(codes, p);
      AlignStep(vp, ip, RecordFor(codes, ds[n], draws(n)), n, vs, ix);
      forall j | 0 <= j < |ix|
        ensures ix[j] < |ds| && RecordFor(codes, ds[ix[j]], draws(ix[j])) == Some(vs[j])
      {
        if j < |ip| {
          assert ds[ip[j]] == p[ip[j]];
        }
      }
    }
  }

  /** Which defects the exact lookup resolves. */
  function ExactFlags(codes: map<string, CodeEntry>, ds: seq<Defect>): (r: seq<bool>)
    ensures |r| == |ds|
    ensures forall i :: 0 <= i < |ds| ==> (r[i] <==> ds[i].ircCode in codes)
  {
    seq(|ds|, i requires 0 <= i < |ds| => ds[i].ircCode in codes)
  }

  /** The indices of the defects whose code is in the knowledge base. */
  function ExactIndices(codes: map<string, CodeEntry>, ds: seq<Defect>): seq<nat>
  {
    Positions(ExactFlags(codes, ds))
  }

  /** One more defect appends its index when its code is known. */
  lemma ExactIndicesSnoc(codes: map<string, CodeEntry>, ds: seq<Defect>)
    requires ds != []
    ensures ExactIndices(codes, ds)
         == ExactIndices(codes, ds[..|ds| - 1]) + (if ds[|ds| - 1].ircCode in codes then [|ds| - 1] else [])
  {
    assert ExactFlags(codes, ds)[..|ds| - 1] == ExactFlags(codes, ds[..|ds| - 1]);
  }

  /** `rag_references` gains exactly one entry per exact-lookup hit, in
      defect order: the j-th reference is "<code>: <title>" of the j-th
      defect whose code is known, and the hit indices are increasing and
      are exactly the defects whose code is known. */
  lemma {:induction false} ReferencesPerExactHit(codes: map<string, CodeEntry>, ds: seq<Defect>)
    ensures StrictlyIncreasing(ExactIndices(codes, ds))
    ensures forall i :: 0 <= i < |ds| ==> (i in ExactIndices(codes, ds) <==> ds[i].ircCode in codes)
    ensures |References(codes, ds)| == |ExactIndices(codes, ds)|
    ensures forall j :: 0 <= j < |ExactIndices(codes, ds)| ==>
      var i := ExactIndices(codes, ds)[j];
      i < |ds| && ds[i].ircCode in codes
      && References(codes, ds)[j] == Reference(ds[i].ircCode, codes[ds[i].ircCode])
  {
    PositionsExact(ExactFlags(codes, ds));
    if ds != [] {
      var n := |ds| - 1;
      var p := ds[..n];
      ReferencesPerExactHit(codes, p);
      ExactIndicesSnoc(codes, ds);
      var rs, ix := References(codes, ds), ExactIndices(codes, ds);
      var rp, ip := References(codes, p), ExactIndices(codes, p);
      assert |rs| == |ix|;
      forall j | 0 <= j < |ix|
        ensures ix[j] < |ds| && ds[ix[j]].ircCode in codes
             && rs[j] == Reference(ds[ix[j]].ircCode, codes[ds[ix[j]].ircCode])
      {
        if j < |ip| {
          assert ix[j] == ip[j] && rs[j] == rp[j];
          assert ds[ip[j]] == p[ip[j]];
        }
      }
    }
  }

  /** Every record is either a violation or a review:
      `total_violations + total_reviews == len(violations)`. */
  lemma {:induction false} StatusCountsSum(vs: seq<ViolationRecord>)
    ensures CountStatus(vs, Violation) + CountStatus(vs, ReviewRequired) == |vs|
  {
    if vs != [] {
      StatusCountsSum(vs[..|vs| - 1]);
    }
  }

  /** The number of High defects whose code the exact lookup finds. */
  function CountExactHigh(codes: map<string, CodeEntry>, ds: seq<Defect>): nat
  {
    if ds == [] then 0
    else
      var d := ds[|ds| - 1];
      CountExactHigh(codes, ds[..|ds| - 1]) + (if d.ircCode in codes && d.severity == High then 1 else 0)
  }

  /** `total_violations` counts exactly the High defects resolved by exact
      lookup; keyword matches never raise a violation. */
  lemma {:induction false} ViolationsAreExactHigh(codes: map<string, CodeEntry>, ds: seq<Defect>, draws: nat -> nat -> real)
    requires forall i: nat :: DrawsInRange(draws(i))
    ensures CountStatus(Violations(codes, ds, draws), Violation) == CountExactHigh(codes, ds)
  {
    if ds != [] {
      var n := |ds| - 1;
      ViolationsAreExactHigh(codes, ds[..n], draws);
      RecordRules(codes, ds[n], draws(n));
      var vp := Violations(codes, ds[..n], draws);
      match RecordFor(codes, ds[n], draws(n)) {
        case Some(v) =>
          var vs := vp + [v];
          assert vs[..|vs| - 1] == vp;
        case None =>
          assert Violations(codes, ds, draws) == vp;
      }
    }
  }

  // ---------------------------------------------------------------------

  class ComplianceAgent {
    /** `self.knowledge_base`. */
    const knowledgeBase: KnowledgeBase

    /** `ComplianceAgent()`: builds and loads its own knowledge base. */
    constructor (source: KbSource)
      ensures fresh(knowledgeBase) && knowledgeBase.codes == Loaded(source)
    {
      knowledgeBase := new KnowledgeBase(source);
    }

    /** `check_compliance(defects)`; `draws(i)` are the keyword matcher's
        confidence draws while it handles the i-th defect. */
    method CheckCompliance(defects: seq<Defect>, draws: nat -> nat -> real) returns (result: ComplianceResult)
      ensures result == ComplianceOf(knowledgeBase.codes, defects, draws)
      ensures result.totalViolations + result.totalReviews == |result.violations|
    {
      var violations: seq<ViolationRecord> := [];
      var ragReferences: seq<string> := [];
      for i := 0 to |defects|
        invariant violations == Violations(knowledgeBase.codes, defects[..i], draws)
        invariant ragReferences == References(knowledgeBase.codes, defects[..i])
      {
        var defect := defects[i];
        assert defects[..i + 1][..i] == defects[..i];
        var codeInfo := knowledgeBase.RetrieveCode(defect.ircCode);
        if codeInfo.Some? {
          violations := violations + [ExactRecord(defect, codeInfo.value)];
          ragReferences := ragReferences + [Reference(defect.ircCode, codeInfo.value)];
        } else {
          var matchedCodes := knowledgeBase.SearchByViolation(defect.defectType, draws(i));
          if matchedCodes != [] {
            violations := violations + [FallbackRecord(defect, matchedCodes[0])];
          }
        }
      }
      assert defects[..|defects|] == defects;
      StatusCountsSum(violations);
      result := ComplianceResult(
        violations, ragReferences,
        CountStatus(violations, Violation), CountStatus(violations, ReviewRequired));
    }
  }
}
