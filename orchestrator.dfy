/** `AgentOrchestrator.process_inspection`: runs the vision stage on every
    uploaded image in order, skipping any image whose processing raises,
    then the compliance stage on the combined defect list, then the report. */
module Orchestrator {
  import opened Wrappers
  import opened Seqs
  import opened Defects
  import opened Knowledge
  import opened Vision
  import opened Compliance
  import opened Finance

  /** What `analyze_image` draws for one readable image: the seed taken from
      its bytes, the templates `random.sample` picks, and the per-defect draws. */
  datatype ImageDraws = ImageDraws(seed: nat, picks: seq<nat>, draws: seq<DefectDraw>)

  /** Draws within the ranges the random library guarantees. */
  type ValidDraws = c: ImageDraws | ValidSample(c.seed, c.picks, c.draws)
    witness ImageDraws(0, [0, 1], [DefectDraw(0, 0, 1.0, 0, 75), DefectDraw(0, 0, 1.0, 0, 75)])

  /** One uploaded file. `content` is `None` when reading or encoding it
      raises, which the loop catches. */
  datatype Upload = Upload(name: string, content: Option<ValidDraws>)

  /** What one image adds to `all_defects`: its analysis, or nothing. */
  function ImageDefects(u: Upload): seq<Defect>
  {
    match u.content
    case Some(c) => AnalysisResult(c.seed, c.picks, c.draws, u.name)
    case None => []
  }

  /** `all_defects` after the loop: the per-image lists concatenated in
      upload order. */
  function AllDefects(images: seq<Upload>): seq<Defect>
  {
    Flatten(MapSeq(ImageDefects, images))
  }

  /** The number of uploads that can be read. */
  function Readable(images: seq<Upload>): nat
  {
    if images == [] then 0
    else Readable(images[..|images| - 1]) + (if images[|images| - 1].content.Some? then 1 else 0)
  }

  // ---------------------------------------------------------------------
  // Properties

  /** A single upload contributes exactly its own analysis. */
  lemma AllDefectsSingle(u: Upload)
    ensures AllDefects([u]) == ImageDefects(u)
  {
    MapSeqSingle(ImageDefects, u);
    FlattenSingle(ImageDefects(u));
  }

  /** Processing two batches one after the other gives the concatenation of
      their defect lists. */
  lemma AllDefectsAppend(a: seq<Upload>, b: seq<Upload>)
    ensures AllDefects(a + b) == AllDefects(a) + AllDefects(b)
  {
    MapSeqAppend(ImageDefects, a, b);
    FlattenAppend(MapSeq(ImageDefects, a), MapSeq(ImageDefects, b));
  }

  /** Appending one upload appends its analysis. */
  lemma AllDefectsSnoc(p: seq<Upload>, u: Upload)
    ensures AllDefects(p + [u]) == AllDefects(p) + ImageDefects(u)
  {
    AllDefectsAppend(p, [u]);
    AllDefectsSingle(u);
  }

  /** An image whose processing raises contributes nothing, and the images
      after it are still processed. */
  lemma FailedImageSkipped(a: seq<Upload>, u: Upload, b: seq<Upload>)
    requires u.content.None?
    ensures AllDefects(a + [u] + b) == AllDefects(a) + AllDefects(b)
  {
    AllDefectsAppend(a + [u], b);
    AllDefectsSnoc(a, u);
    AppendEmpty(AllDefects(a), ImageDefects(u));
  }

  /** Every readable image contributes between 2 and 5 defects. */
  lemma {:induction false} AllDefectsCount(images: seq<Upload>)
    ensures 2 * Readable(images) <= |AllDefects(images)| <= 5 * Readable(images)
  {
    if images != [] {
      var p := images[..|images| - 1];
      var u := images[|images| - 1];
      assert images == p + [u];
      AllDefectsCount(p);
      AllDefectsSnoc(p, u);
      if u.content.Some? {
        AnalysisResultProperties(u.content.value.seed, u.content.value.picks, u.content.value.draws, u.name);
      }
    }
  }

  /** The defects one image contributes come from catalogue templates and
      carry that image's name. */
  lemma ImageDefectsProvenance(u: Upload)
    ensures forall d :: d in ImageDefects(u) ==>
      && u.content.Some? && d.imageRef == u.name
      && (exists t :: 0 <= t < |DefectTemplates()| && FromTemplate(DefectTemplates()[t], d))
  {
    if u.content.Some? {
      AnalysisResultProperties(u.content.value.seed, u.content.value.picks, u.content.value.draws, u.name);
    }
  }

  /** Every defect in the combined list comes from a catalogue template and
      names a readable upload as its image. */
  lemma {:induction false} AllDefectsProvenance(images: seq<Upload>)
    ensures forall d :: d in AllDefects(images) ==>
      && (exists i :: 0 <= i < |images| && images[i].content.Some? && d.imageRef == images[i].name)
      && (exists t :: 0 <= t < |DefectTemplates()| && FromTemplate(DefectTemplates()[t], d))
  {
    if images != [] {
      var n := |images| - 1;
      var p := images[..n];
      var u := images[n];
      assert images == p + [u];
      AllDefectsProvenance(p);
      AllDefectsSnoc(p, u);
      ImageDefectsProvenance(u);
      forall d | d in AllDefects(images)
        ensures exists i :: 0 <= i < |images| && images[i].content.Some? && d.imageRef == images[i].name
      {
        if d in AllDefects(p) {
          var i :| 0 <= i < |p| && p[i].content.Some? && d.imageRef == p[i].name;
          assert images[i] == p[i];
        } else {
          assert images[n].content.Some? && d.imageRef == images[n].name;
        }
      }
    }
  }

  /** Every pick's drawn severity option is `s`. */
  predicate DrawnAs(c: ValidDraws, s: Severity)
  {
    forall k :: 0 <= k < |c.picks| ==>
      DefectTemplates()[c.picks[k]].severityOptions[c.draws[k].severityPick] == s
  }

  /** The generated defects carry the severities drawn for them. */
  lemma GeneratedDrawnAs(c: ValidDraws, name: string, s: Severity)
    requires DrawnAs(c, s)
    ensures forall k :: 0 <= k < |c.picks| ==> Generated(c.picks, c.draws, name)[k].severity == s
  {
  }

  /** An analysis whose severity draws all pick the same severity holds
      only defects of that severity. */
  lemma UniformAnalysis(c: ValidDraws, name: string, s: Severity)
    requires DrawnAs(c, s)
    ensures AnalysisResult(c.seed, c.picks, c.draws, name) != []
    ensures forall d :: d in AnalysisResult(c.seed, c.picks, c.draws, name) ==> d.severity == s
  {
    AnalysisResultProperties(c.seed, c.picks, c.draws, name);
    GeneratedDrawnAs(c, name, s);
    PermutationKeepsSeverity(AnalysisResult(c.seed, c.picks, c.draws, name), Generated(c.picks, c.draws, name), s);
  }

  lemma PermutationKeepsSeverity(r: seq<Defect>, g: seq<Defect>, s: Severity)
    requires multiset(r) == multiset(g)
    requires forall k :: 0 <= k < |g| ==> g[k].severity == s
    ensures forall d :: d in r ==> d.severity == s
  {
    forall d | d in r ensures d.severity == s {
      assert d in multiset(g);
      var k :| 0 <= k < |g| && g[k] == d;
    }
  }

  /** A list of Low defects followed by a list of High ones is not ordered
      by severity. */
  lemma LowThenHighUnsorted(x: seq<Defect>, y: seq<Defect>)
    requires x != [] && forall d :: d in x ==> d.severity == Low
    requires y != [] && forall d :: d in y ==> d.severity == High
    ensures !SortedBySeverity(x + y)
  {
    assert x[0] in x && y[0] in y;
    assert (x + y)[0] == x[0] && (x + y)[|x|] == y[0];
  }

  /** Two draws of Plumbing Leak and Paint Deterioration, both Low. */
  lemma LowSample() returns (c: ValidDraws)
    ensures DrawnAs(c, Low)
  {
    var draw := DefectDraw(1, 0, 1.0, 0, 80);
    c := ImageDraws(0, [3, 4], [draw, draw]);
  }

  /** Two draws of Structural Crack and Water Damage, both High. */
  lemma HighSample() returns (c: ValidDraws)
    ensures DrawnAs(c, High)
  {
    var draw := DefectDraw(0, 0, 1.0, 0, 80);
    c := ImageDraws(0, [0, 1], [draw, draw]);
  }

  /** A readable image whose severity draws all pick `s` contributes a
      non-empty list holding only `s`. */
  lemma UniformImage(u: Upload, s: Severity)
    requires u.content.Some? && DrawnAs(u.content.value, s)
    ensures ImageDefects(u) != [] && forall d :: d in ImageDefects(u) ==> d.severity == s
  {
    UniformAnalysis(u.content.value, u.name, s);
  }

  /** Two uploads contribute their lists one after the other. */
  lemma AllDefectsPair(a: Upload, b: Upload)
    ensures AllDefects([a, b]) == ImageDefects(a) + ImageDefects(b)
  {
    AllDefectsAppend([a], [b]);
    AllDefectsSingle(a);
    AllDefectsSingle(b);
    assert [a] + [b] == [a, b];
  }

  /** A Low-only image uploaded before a High-only one leaves its Low
      defects ahead of the High ones. */
  lemma LowBeforeHighUnsorted(a: Upload, b: Upload)
    requires a.content.Some? && DrawnAs(a.content.value, Low)
    requires b.content.Some? && DrawnAs(b.content.value, High)
    ensures !SortedBySeverity(AllDefects([a, b]))
  {
    UniformImage(a, Low);
    UniformImage(b, High);
    AllDefectsPair(a, b);
    LowThenHighUnsorted(ImageDefects(a), ImageDefects(b));
  }

  /** Each image's defects are sorted, but the combined list is not sorted
      by severity across images. */
  lemma CombinedListNotSorted()
    ensures exists images :: !SortedBySeverity(AllDefects(images))
  {
    var low := LowSample();
    var high := HighSample();
    LowBeforeHighUnsorted(Upload("a.jpg", Some(low)), Upload("b.jpg", Some(high)));
  }

  // ---------------------------------------------------------------------

  class AgentOrchestrator {
    /** `self.compliance_agent`; the vision and finance agents hold no
        state, so their operations are called directly. */
    const complianceAgent: ComplianceAgent

    constructor (source: KbSource)
      ensures fresh(complianceAgent) && complianceAgent.knowledgeBase.codes == Loaded(source)
    {
      complianceAgent := new ComplianceAgent(source);
    }

    /** `process_inspection(images, notes)`. `ragDraws(i)` are the keyword
        matcher's draws while the compliance stage handles the i-th defect. */
    method ProcessInspection(images: seq<Upload>, notes: string, ragDraws: nat -> nat -> real)
      returns (report: Report)
      ensures report == GenerateReport(
        AllDefects(images), ComplianceOf(complianceAgent.knowledgeBase.codes, AllDefects(images), ragDraws))
      ensures report.allDefects == AllDefects(images)
      ensures 2 * Readable(images) <= report.totalDefects <= 5 * Readable(images)
    {
      var allDefects: seq<Defect> := [];
      for idx := 0 to |images|
        invariant allDefects == AllDefects(images[..idx])
      {
        var img := images[idx];
        TakeSnoc(images, idx);
        AllDefectsSnoc(images[..idx], img);
        match img.content {
          case Some(c) =>
            var defects := AnalyzeImage(c.seed, c.picks, c.draws, notes, img.name);
            allDefects := allDefects + defects;
          case None =>
        }
      }
      assert images[..|images|] == images;
      AllDefectsCount(images);
      var complianceData := complianceAgent.CheckCompliance(allDefects, ragDraws);
      report := GenerateReport(allDefects, complianceData);
    }
  }
}
