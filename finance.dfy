/** `FinanceAgent`: totals, the risk score, the recommendation list and the
    report dictionary built from the defect list and the compliance result. */
module Finance {
  import opened Text
  import opened Defects
  import opened Compliance

  /** `sum(d["estimated_cost"] for d in defects)`. */
  function TotalCost(ds: seq<Defect>): int
  {
    if ds == [] then 0 else TotalCost(ds[..|ds| - 1]) + ds[|ds| - 1].estimatedCost
  }

  /** The total cost of two lists is the sum of their totals. */
  lemma {:induction false} TotalCostAppend(a: seq<Defect>, b: seq<Defect>)
    ensures TotalCost(a + b) == TotalCost(a) + TotalCost(b)
    decreases |b|
  {
    if b == [] {
      assert a + b == a;
    } else {
      var b' := b[..|b| - 1];
      assert (a + b)[..|a + b| - 1] == a + b';
      TotalCostAppend(a, b');
    }
  }

  /** Costs are never negative, so neither is their total, and no single
      defect costs more than the total. */
  lemma {:induction false} TotalCostBounds(ds: seq<Defect>)
    requires forall i :: 0 <= i < |ds| ==> ds[i].estimatedCost >= 0
    ensures TotalCost(ds) >= 0
    ensures forall i :: 0 <= i < |ds| ==> ds[i].estimatedCost <= TotalCost(ds)
  {
    if ds != [] {
      var p := ds[..|ds| - 1];
      TotalCostBounds(p);
      forall i | 0 <= i < |p| ensures ds[i].estimatedCost <= TotalCost(ds) {
        assert ds[i] == p[i];
      }
    }
  }

  /** `_calculate_risk_score`: 25 points per High, 12 per Medium and 5 per
      Low defect on top of a base of 15, capped at 100. */
  function RiskScore(ds: seq<Defect>): (r: nat)
    ensures 15 <= r <= 100
  {
    var score := |OfSeverity(ds, High)| * 25 + |OfSeverity(ds, Medium)| * 12 + |OfSeverity(ds, Low)| * 5 + 15;
    if score < 100 then score else 100
  }

  /** An inspection with no defects scores the base 15. */
  lemma RiskScoreOfEmpty()
    ensures RiskScore([]) == 15
  {
  }

  /** Adding defects never lowers the risk score. */
  lemma RiskScoreMonotone(a: seq<Defect>, b: seq<Defect>)
    ensures RiskScore(a) <= RiskScore(a + b)
  {
    OfSeverityAppend(a, b, High);
    OfSeverityAppend(a, b, Medium);
    OfSeverityAppend(a, b, Low);
  }

  /** Four High defects, or any list of at least 17 defects, saturate the
      score at 100; below the cap every defect raises it by at least 5. */
  lemma RiskScoreSaturates(ds: seq<Defect>)
    ensures |OfSeverity(ds, High)| >= 4 ==> RiskScore(ds) == 100
    ensures |ds| >= 17 ==> RiskScore(ds) == 100
    ensures RiskScore(ds) < 100 ==> RiskScore(ds) >= 15 + 5 * |ds|
  {
    SeverityCountsSum(ds);
  }

  // ---------------------------------------------------------------------
  // Recommendations

  /** One recommendation before it is formatted: an urgent line for one High
      defect, or a summary of how many Medium or Low defects there are. */
  datatype Recommendation = Urgent(defect: Defect) | ScheduleMedium(count: nat) | MonitorLow(count: nat)

  function Priority(r: Recommendation): nat
  {
    match r
    case Urgent(_) => 0
    case ScheduleMedium(_) => 1
    case MonitorLow(_) => 2
  }

  /** The f-string each recommendation is appended as. */
  function Line(r: Recommendation): string
  {
    match r
    case Urgent(d) => "\U{1F6A8} URGENT: Address " + d.defectType + " at " + d.location + " within 7 days"
    case ScheduleMedium(n) => "⚠️ Schedule repairs for " + NatToString(n) + " medium-priority issue(s) within 30 days"
    case MonitorLow(n) => "ℹ️ Monitor " + NatToString(n) + " low-priority issue(s) and address during routine maintenance"
  }

  /** `high_priority[:3]`. */
  function TopThree(high: seq<Defect>): (r: seq<Defect>)
    ensures |r| <= 3 && r <= high
    ensures |high| >= 3 ==> |r| == 3
    ensures |high| < 3 ==> r == high
  {
    if |high| < 3 then high else high[..3]
  }

  function UrgentPlan(top: seq<Defect>): seq<Recommendation>
  {
    seq(|top|, i requires 0 <= i < |top| => Urgent(top[i]))
  }

  function MediumPart(medium: nat): seq<Recommendation>
  {
    if medium > 0 then [ScheduleMedium(medium)] else []
  }

  function LowPart(low: nat): seq<Recommendation>
  {
    if low > 0 then [MonitorLow(low)] else []
  }

  function Summaries(medium: nat, low: nat): seq<Recommendation>
  {
    MediumPart(medium) + LowPart(low)
  }

  /** The plan for the given first High defects and Medium and Low counts,
      in the order the lines are appended. */
  function PlanOf(top: seq<Defect>, medium: nat, low: nat): seq<Recommendation>
  {
    UrgentPlan(top) + MediumPart(medium) + LowPart(low)
  }

  /** The recommendations `_generate_recommendations` appends, in order. */
  function Plan(ds: seq<Defect>): seq<Recommendation>
  {
    PlanOf(TopThree(OfSeverity(ds, High)), |OfSeverity(ds, Medium)|, |OfSeverity(ds, Low)|)
  }

  function Render(plan: seq<Recommendation>): seq<string>
  {
    seq(|plan|, i requires 0 <= i < |plan| => Line(plan[i]))
  }

  /** The list `_generate_recommendations` returns. */
  function Recommendations(ds: seq<Defect>): seq<string>
  {
    Render(Plan(ds))
  }

  /** A severity group is non-empty exactly when some defect has that severity. */
  lemma {:induction false} SeverityPresent(ds: seq<Defect>, s: Severity)
    ensures |OfSeverity(ds, s)| > 0 <==> exists d :: d in ds && d.severity == s
  {
    if ds != [] {
      var p := ds[..|ds| - 1];
      SeverityPresent(p, s);
      assert ds == p + [ds[|ds| - 1]];
      if exists d :: d in p && d.severity == s {
        var d :| d in p && d.severity == s;
        assert d in ds;
      }
    }
  }

  /** Positions in a plan: the urgent part first, then the summaries. */
  lemma PlanOfIndex(top: seq<Defect>, medium: nat, low: nat)
    ensures |PlanOf(top, medium, low)| == |top| + |Summaries(medium, low)|
    ensures forall i :: 0 <= i < |top| ==> PlanOf(top, medium, low)[i] == Urgent(top[i])
    ensures forall i :: |top| <= i < |PlanOf(top, medium, low)| ==>
      PlanOf(top, medium, low)[i] == Summaries(medium, low)[i - |top|]
  {
    assert PlanOf(top, medium, low) == UrgentPlan(top) + Summaries(medium, low);
  }

  /** The plan opens with one urgent line for each of the first (at most
      three) High defects, in input order, and has no other urgent line. */
  lemma PlanUrgentPrefix(ds: seq<Defect>)
    ensures forall i :: 0 <= i < |TopThree(OfSeverity(ds, High))| ==> Plan(ds)[i] == Urgent(OfSeverity(ds, High)[i])
    ensures forall i :: |TopThree(OfSeverity(ds, High))| <= i < |Plan(ds)| ==> !Plan(ds)[i].Urgent?
  {
    var top := TopThree(OfSeverity(ds, High));
    PlanOfIndex(top, |OfSeverity(ds, Medium)|, |OfSeverity(ds, Low)|);
  }

  /** A medium summary can only sit right after the urgent lines, and it
      reports its count; a low summary can only be the last line, and it
      reports its count. */
  lemma PlanOfSummaryPlaces(top: seq<Defect>, medium: nat, low: nat)
    ensures forall i :: 0 <= i < |PlanOf(top, medium, low)| && PlanOf(top, medium, low)[i].ScheduleMedium? ==>
      i == |top| && PlanOf(top, medium, low)[i].count == medium
    ensures forall i :: 0 <= i < |PlanOf(top, medium, low)| && PlanOf(top, medium, low)[i].MonitorLow? ==>
      i == |PlanOf(top, medium, low)| - 1 && PlanOf(top, medium, low)[i].count == low
  {
    PlanOfIndex(top, medium, low);
  }

  /** A summary is present exactly when its count is positive. */
  lemma PlanOfHasSummaries(top: seq<Defect>, medium: nat, low: nat)
    ensures (exists i :: 0 <= i < |PlanOf(top, medium, low)| && PlanOf(top, medium, low)[i].ScheduleMedium?) <==> medium > 0
    ensures (exists i :: 0 <= i < |PlanOf(top, medium, low)| && PlanOf(top, medium, low)[i].MonitorLow?) <==> low > 0
  {
    var p := PlanOf(top, medium, low);
    PlanOfIndex(top, medium, low);
    if medium > 0 {
      assert p[|top|].ScheduleMedium?;
    }
    if low > 0 {
      assert p[|p| - 1].MonitorLow?;
    }
  }

  /** A medium summary appears exactly when a Medium defect exists, only
      right after the urgent lines (so at most once), and reports the number
      of Medium defects. */
  lemma PlanMediumSummary(ds: seq<Defect>)
    ensures (exists i :: 0 <= i < |Plan(ds)| && Plan(ds)[i].ScheduleMedium?) <==> exists d :: d in ds && d.severity == Medium
    ensures forall i :: 0 <= i < |Plan(ds)| && Plan(ds)[i].ScheduleMedium? ==>
      i == |TopThree(OfSeverity(ds, High))| && Plan(ds)[i].count == |OfSeverity(ds, Medium)|
  {
    SeverityPresent(ds, Medium);
    var top, medium, low := TopThree(OfSeverity(ds, High)), |OfSeverity(ds, Medium)|, |OfSeverity(ds, Low)|;
    assert Plan(ds) == PlanOf(top, medium, low);
    PlanOfSummaryPlaces(top, medium, low);
    PlanOfHasSummaries(top, medium, low);
  }

  /** A low summary appears exactly when a Low defect exists, only as the
      last line (so at most once), and reports the number of Low defects. */
  lemma PlanLowSummary(ds: seq<Defect>)
    ensures (exists i :: 0 <= i < |Plan(ds)| && Plan(ds)[i].MonitorLow?) <==> exists d :: d in ds && d.severity == Low
    ensures forall i :: 0 <= i < |Plan(ds)| && Plan(ds)[i].MonitorLow? ==>
      i == |Plan(ds)| - 1 && Plan(ds)[i].count == |OfSeverity(ds, Low)|
  {
    SeverityPresent(ds, Low);
    var top, medium, low := TopThree(OfSeverity(ds, High)), |OfSeverity(ds, Medium)|, |OfSeverity(ds, Low)|;
    assert Plan(ds) == PlanOf(top, medium, low);
    PlanOfSummaryPlaces(top, medium, low);
    PlanOfHasSummaries(top, medium, low);
  }

  predicate InPriorityOrder(plan: seq<Recommendation>)
  {
    forall i, j :: 0 <= i < j < |plan| ==> Priority(plan[i]) < Priority(plan[j]) || (plan[i].Urgent? && plan[j].Urgent?)
  }

  lemma PlanOfOrder(top: seq<Defect>, medium: nat, low: nat)
    ensures InPriorityOrder(PlanOf(top, medium, low))
  {
    PlanOfIndex(top, medium, low);
  }

  /** Urgent lines, then the medium summary, then the low summary: at most 5
      lines in all. */
  lemma PlanOrder(ds: seq<Defect>)
    ensures |Plan(ds)| <= 5
    ensures InPriorityOrder(Plan(ds))
  {
    PlanOfOrder(TopThree(OfSeverity(ds, High)), |OfSeverity(ds, Medium)|, |OfSeverity(ds, Low)|);
  }

  lemma UrgentPlanSnoc(top: seq<Defect>, d: Defect)
    ensures UrgentPlan(top + [d]) == UrgentPlan(top) + [Urgent(d)]
  {
  }

  lemma RenderSnoc(plan: seq<Recommendation>, r: Recommendation)
    ensures Render(plan + [r]) == Render(plan) + [Line(r)]
  {
  }

  /** `_generate_recommendations(defects)`. */
  method GenerateRecommendations(defects: seq<Defect>) returns (recs: seq<string>)
    ensures recs == Recommendations(defects)
  {
    recs := [];
    ghost var plan: seq<Recommendation> := [];
    ghost var urgent: seq<Recommendation>;
    var highPriority := OfSeverity(defects, High);
    var top := TopThree(highPriority);
    for k := 0 to |top|
      invariant plan == UrgentPlan(top[..k])
      invariant recs == Render(plan)
    {
      assert top[..k + 1] == top[..k] + [top[k]];
      UrgentPlanSnoc(top[..k], top[k]);
      RenderSnoc(plan, Urgent(top[k]));
      recs := recs + [Line(Urgent(top[k]))];
      plan := plan + [Urgent(top[k])];
    }
    assert top[..|top|] == top;
    urgent := plan;
    var mediumPriority := OfSeverity(defects, Medium);
    if mediumPriority != [] {
      RenderSnoc(plan, ScheduleMedium(|mediumPriority|));
      recs := recs + [Line(ScheduleMedium(|mediumPriority|))];
      plan := plan + [ScheduleMedium(|mediumPriority|)];
    }
    assert plan == urgent + MediumPart(|mediumPriority|);
    var lowPriority := OfSeverity(defects, Low);
    if lowPriority != [] {
      RenderSnoc(plan, MonitorLow(|lowPriority|));
      recs := recs + [Line(MonitorLow(|lowPriority|))];
      plan := plan + [MonitorLow(|lowPriority|)];
    }
    assert plan == urgent + MediumPart(|mediumPriority|) + LowPart(|lowPriority|);
  }

  // ---------------------------------------------------------------------
  // Report

  /** The report dictionary, without its `timestamp`. */
  datatype Report = Report(
    totalCost: int,
    riskScore: nat,
    totalDefects: nat,
    highDefects: seq<Defect>,
    mediumDefects: seq<Defect>,
    lowDefects: seq<Defect>,
    highRisk: nat,
    mediumRisk: nat,
    lowRisk: nat,
    complianceViolations: nat,
    complianceReviews: nat,
    violations: seq<ViolationRecord>,
    ragReferences: seq<string>,
    recommendations: seq<string>,
    allDefects: seq<Defect>)

  /** `generate_report(defects, compliance_data)`. */
  function GenerateReport(defects: seq<Defect>, compliance: ComplianceResult): Report
  {
    var high, medium, low := OfSeverity(defects, High), OfSeverity(defects, Medium), OfSeverity(defects, Low);
    Report(
      TotalCost(defects), RiskScore(defects), |defects|,
      high, medium, low, |high|, |medium|, |low|,
      compliance.totalViolations, compliance.totalReviews,
      compliance.violations, compliance.ragReferences,
      Recommendations(defects), defects)
  }

  /** What the report promises: the severity buckets split the defect list
      (so the three tallies add up to the total), the score lies in
      [15, 100], there are at most five recommendations, the cost is the sum
      of the defect costs, and the compliance figures and references are
      passed through unchanged. */
  lemma ReportProperties(defects: seq<Defect>, compliance: ComplianceResult)
    ensures var r := GenerateReport(defects, compliance);
      && r.highRisk + r.mediumRisk + r.lowRisk == r.totalDefects == |defects|
      && multiset(r.highDefects) + multiset(r.mediumDefects) + multiset(r.lowDefects) == multiset(defects)
      && (forall d :: d in r.highDefects ==> d.severity == High)
      && (forall d :: d in r.mediumDefects ==> d.severity == Medium)
      && (forall d :: d in r.lowDefects ==> d.severity == Low)
      && 15 <= r.riskScore <= 100
      && |r.recommendations| <= 5
      && r.complianceViolations == compliance.totalViolations
      && r.complianceReviews == compliance.totalReviews
      && r.violations == compliance.violations
      && r.ragReferences == compliance.ragReferences
      && r.totalCost == TotalCost(defects)
      && r.allDefects == defects
  {
    SeverityCountsSum(defects);
    GroupsPartition(defects);
    PlanOrder(defects);
  }
}
