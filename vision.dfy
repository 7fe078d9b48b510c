/** `VisionAgent`: synthesises 2 to 5 defects for one image from a fixed
    catalogue of ten templates, driven by a seed taken from the image, and
    returns them sorted by severity. Every pseudo-random value the source
    draws is an input here, constrained to the range the draw guarantees. */
module Vision {
  import opened Text
  import opened Seqs
  import opened Defects

  /** One entry of `self.defect_templates`. */
  datatype Template = Template(
    defectType: string,
    severityOptions: seq<Severity>,
    locations: seq<string>,
    baseCost: nat,
    ircPriority: seq<string>)

  function DefectTemplates(): seq<Template>
  {
    [
      Template("Structural Crack", [High, Medium],
        ["Foundation Wall", "Basement Wall", "Exterior Wall", "Interior Wall"], 50000,
        ["R403.1", "R302.1", "R602.10"]),
      Template("Water Damage", [High, Medium],
        ["Ceiling - Kitchen", "Ceiling - Bathroom", "Basement", "Attic"], 35000,
        ["R806.1", "R302.1"]),
      Template("Electrical Hazard", [High, Medium],
        ["Main Panel", "Outlet - Kitchen", "Exposed Wiring", "Junction Box"], 18000,
        ["E3404.1", "E3605.1"]),
      Template("Plumbing Leak", [Medium, Low],
        ["Under Sink", "Bathroom Fixture", "Water Heater", "Supply Line"], 8000,
        ["P2903.2"]),
      Template("Paint Deterioration", [Medium, Low],
        ["Exterior Wall", "Window Frame", "Door Frame", "Siding"], 12000,
        ["R703.1"]),
      Template("Roof Damage", [High, Medium],
        ["Shingles", "Flashing", "Roof Vent", "Gutter"], 45000,
        ["R905.2", "R806.1"]),
      Template("Window Damage", [Medium, Low],
        ["Living Room", "Bedroom", "Kitchen", "Bathroom"], 7000,
        ["R308.4"]),
      Template("HVAC Issue", [Medium, Low],
        ["Air Handler", "Condensate Line", "Ductwork", "Thermostat"], 15000,
        ["M1411.3"]),
      Template("Foundation Settlement", [High, Medium],
        ["Corner Foundation", "Front Foundation", "Rear Foundation", "Crawlspace"], 75000,
        ["R403.1"]),
      Template("Moisture Intrusion", [Medium, Low],
        ["Basement", "Crawlspace", "Attic", "Wall Cavity"], 22000,
        ["R302.1", "R806.1"])
    ]
  }

  /** The draws made for one selected template, in the order the loop makes
      them: `random.choice` of severity and of location (as indices),
      `random.uniform(0.8, 1.2)`, `random.choice` of the code (as an index),
      and the confidence `round(0.75 + random.uniform(0, 0.2), 2)` in
      hundredths. */
  datatype DefectDraw = DefectDraw(
    severityPick: nat,
    locationPick: nat,
    costVariation: real,
    codePick: nat,
    confidence: nat)

  /** The ranges the random library guarantees for these draws. */
  predicate DrawFits(t: Template, d: DefectDraw)
  {
    && d.severityPick < |t.severityOptions|
    && d.locationPick < |t.locations|
    && 0.8 <= d.costVariation <= 1.2
    && d.codePick < |t.ircPriority|
    && 75 <= d.confidence <= 95
  }

  /** `num_defects = 2 + (seed % 4)`. */
  function DefectCount(seed: nat): (n: nat)
  {
    2 + seed % 4
  }

  /** What `random.sample(self.defect_templates, num_defects)` and the loop's
      draws can be: `picks` are distinct catalogue indices, one per defect,
      and each draw fits its template. */
  predicate ValidSample(seed: nat, picks: seq<nat>, draws: seq<DefectDraw>)
  {
    && |picks| == DefectCount(seed)
    && |draws| == |picks|
    && (forall k :: 0 <= k < |picks| ==> picks[k] < |DefectTemplates()|)
    && (forall k, l :: 0 <= k < l < |picks| ==> picks[k] != picks[l])
    && (forall k :: 0 <= k < |picks| ==> DrawFits(DefectTemplates()[picks[k]], draws[k]))
  }

  /** `cost_multiplier`: 1.0, 0.6 or 0.3 for High, Medium, Low. */
  function CostMultiplier(s: Severity): real
  {
    match s
    case High => 1.0
    case Medium => 0.6
    case Low => 0.3
  }

  /** Python's `int()` on a number: truncation toward zero. */
  function Truncate(x: real): int
  {
    if x >= 0.0 then x.Floor else -((-x).Floor)
  }

  /** `int(template["base_cost"] * cost_multiplier * cost_variation)`. */
  function EstimatedCost(baseCost: nat, s: Severity, variation: real): int
  {
    Truncate(baseCost as real * CostMultiplier(s) * variation)
  }

  lemma MulMonotone(x: real, a: real, b: real)
    requires 0.0 <= x && a <= b
    ensures x * a <= x * b
  {
    assert x * b - x * a == x * (b - a);
  }

  lemma FloorMonotone(a: real, b: real)
    requires a <= b
    ensures a.Floor <= b.Floor
  {
    assert a.Floor as real <= a;
    assert (b.Floor + 1) as real > b;
  }

  /** The synthesised cost is never negative and lies between the template's
      base cost scaled by the severity multiplier and 0.8, and the same
      scaled by 1.2 (both truncated). */
  lemma CostBounds(baseCost: nat, s: Severity, variation: real)
    requires 0.8 <= variation <= 1.2
    ensures 0 <= (baseCost as real * CostMultiplier(s) * 0.8).Floor
                <= EstimatedCost(baseCost, s, variation)
                <= (baseCost as real * CostMultiplier(s) * 1.2).Floor
  {
    var x := baseCost as real * CostMultiplier(s);
    MulMonotone(baseCost as real, 0.0, CostMultiplier(s));
    ScaledBounds(x, variation);
  }

  lemma ScaledBounds(x: real, v: real)
    requires 0.0 <= x && 0.8 <= v <= 1.2
    ensures 0 <= (x * 0.8).Floor <= (x * v).Floor <= (x * 1.2).Floor
    ensures Truncate(x * v) == (x * v).Floor
  {
    FloorMonotone(0.0, x * 0.8);
    ScaledFloorMonotone(x, 0.8, v);
    ScaledFloorMonotone(x, v, 1.2);
  }

  lemma ScaledFloorMonotone(x: real, a: real, b: real)
    requires 0.0 <= x && a <= b
    ensures (x * a).Floor <= (x * b).Floor
  {
    MulMonotone(x, a, b);
    FloorMonotone(x * a, x * b);
  }

  /** The text around the location in each entry of the `descriptions`
      dictionary of `_generate_description`, and in its fallback. */
  function DescriptionFrame(defectType: string, severity: Severity): (string, string)
  {
    var high := severity == High;
    if defectType == "Structural Crack" then
      ((if high then "Significant" else "Visible") + " crack detected in ", ", requires structural assessment")
    else if defectType == "Water Damage" then
      ((if high then "Active" else "Historical") + " water damage observed at ", ", potential leak source")
    else if defectType == "Electrical Hazard" then
      ((if high then "Critical" else "Notable") + " electrical safety concern at ", "")
    else if defectType == "Plumbing Leak" then
      ("Plumbing leak detected at ", ", " + (if high then "immediate" else "timely") + " repair needed")
    else if defectType == "Paint Deterioration" then
      ("Paint deterioration on ", ", indicating potential exposure issues")
    else if defectType == "Roof Damage" then
      ("Roof damage at ", ", " + (if high then "urgent" else "scheduled") + " repair recommended")
    else if defectType == "Window Damage" then
      ("Window damage in ", ", impacts energy efficiency and security")
    else if defectType == "HVAC Issue" then
      ("HVAC system issue at ", ", affecting comfort and efficiency")
    else if defectType == "Foundation Settlement" then
      ("Foundation settlement near ", ", structural integrity concern")
    else if defectType == "Moisture Intrusion" then
      ("Moisture intrusion in ", ", risk of mold and material damage")
    else
      (defectType + " detected at ", "")
  }

  /** `_generate_description(defect_type, location, severity)`. */
  function Description(defectType: string, location: string, severity: Severity): string
  {
    var frame := DescriptionFrame(defectType, severity);
    frame.0 + location + frame.1
  }

  predicate IsCatalogueType(defectType: string)
  {
    exists t :: 0 <= t < |DefectTemplates()| && DefectTemplates()[t].defectType == defectType
  }

  /** The names of the catalogue's types, which select the dictionary's
      entries. */
  predicate NamesCatalogueEntry(defectType: string)
  {
    || defectType == "Structural Crack" || defectType == "Water Damage"
    || defectType == "Electrical Hazard" || defectType == "Plumbing Leak"
    || defectType == "Paint Deterioration" || defectType == "Roof Damage"
    || defectType == "Window Damage" || defectType == "HVAC Issue"
    || defectType == "Foundation Settlement" || defectType == "Moisture Intrusion"
  }

  lemma CatalogueEntryIsCatalogueType(defectType: string)
    requires NamesCatalogueEntry(defectType)
    ensures IsCatalogueType(defectType)
  {
    var names := seq(|DefectTemplates()|, t requires 0 <= t < |DefectTemplates()| => DefectTemplates()[t].defectType);
    assert names == ["Structural Crack", "Water Damage", "Electrical Hazard", "Plumbing Leak",
      "Paint Deterioration", "Roof Damage", "Window Damage", "HVAC Issue",
      "Foundation Settlement", "Moisture Intrusion"];
    assert defectType in names;
  }

  /** A type outside the catalogue gets the fallback text. */
  lemma FallbackDescription(defectType: string, location: string, severity: Severity)
    requires !NamesCatalogueEntry(defectType)
    ensures Description(defectType, location, severity) == [] + defectType + (" detected at " + location)
  {
    assert DescriptionFrame(defectType, severity) == (defectType + " detected at ", "");
    assert defectType + " detected at " + location + "" == [] + defectType + (" detected at " + location);
  }

  /** Every description names the location; one for a type outside the
      catalogue also names that type. */
  lemma DescriptionNamesLocation(defectType: string, location: string, severity: Severity)
    ensures Occurs(location, Description(defectType, location, severity))
    ensures !IsCatalogueType(defectType) ==> Occurs(defectType, Description(defectType, location, severity))
  {
    var frame := DescriptionFrame(defectType, severity);
    OccursBetween(frame.0, location, frame.1);
    if !IsCatalogueType(defectType) {
      if NamesCatalogueEntry(defectType) {
        CatalogueEntryIsCatalogueType(defectType);
      }
      FallbackDescription(defectType, location, severity);
      OccursBetween([], defectType, " detected at " + location);
    }
  }

  /** The defect dictionary built for template `t` from draw `d`. */
  function MakeDefect(t: Template, d: DefectDraw, imageName: string): Defect
    requires DrawFits(t, d)
  {
    var severity := t.severityOptions[d.severityPick];
    var location := t.locations[d.locationPick];
    Defect(
      t.defectType,
      severity,
      location,
      d.confidence,
      Description(t.defectType, location, severity),
      t.ircPriority[d.codePick],
      EstimatedCost(t.baseCost, severity, d.costVariation),
      imageName)
  }

  /** Everything a defect built from template `t` can be: its type, and a
      severity, location and code taken from the template's own lists; a
      confidence in [0.75, 0.95]; the description for those values; a cost
      within the template's bounds for that severity. */
  predicate FromTemplate(t: Template, d: Defect)
  {
    && d.defectType == t.defectType
    && d.severity in t.severityOptions
    && d.location in t.locations
    && d.ircCode in t.ircPriority
    && 75 <= d.confidence <= 95
    && d.description == Description(t.defectType, d.location, d.severity)
    && 0 <= (t.baseCost as real * CostMultiplier(d.severity) * 0.8).Floor <= d.estimatedCost
    && d.estimatedCost <= (t.baseCost as real * CostMultiplier(d.severity) * 1.2).Floor
  }

  lemma MakeDefectFromTemplate(t: Template, d: DefectDraw, imageName: string)
    requires DrawFits(t, d)
    ensures FromTemplate(t, MakeDefect(t, d, imageName))
    ensures MakeDefect(t, d, imageName).imageRef == imageName
  {
    CostBounds(t.baseCost, t.severityOptions[d.severityPick], d.costVariation);
  }

  /** `defects` before the sort: one defect per sampled template, in sample order. */
  function Generated(picks: seq<nat>, draws: seq<DefectDraw>, imageName: string): (r: seq<Defect>)
    requires |draws| == |picks|
    requires forall k :: 0 <= k < |picks| ==> picks[k] < |DefectTemplates()|
    requires forall k :: 0 <= k < |picks| ==> DrawFits(DefectTemplates()[picks[k]], draws[k])
    ensures |r| == |picks|
  {
    seq(|picks|, k requires 0 <= k < |picks| => MakeDefect(DefectTemplates()[picks[k]], draws[k], imageName))
  }

  /** The list `analyze_image` returns. */
  function AnalysisResult(seed: nat, picks: seq<nat>, draws: seq<DefectDraw>, imageName: string): seq<Defect>
    requires ValidSample(seed, picks, draws)
  {
    SortBySeverity(Generated(picks, draws, imageName))
  }

  /** No two templates of the catalogue share a defect type. */
  lemma CatalogueTypesDistinct()
    ensures forall a, b :: 0 <= a < b < |DefectTemplates()| ==>
      DefectTemplates()[a].defectType != DefectTemplates()[b].defectType
  {
  }

  /** `random.sample` draws without replacement, so the generated defects
      come from pairwise-distinct templates: no defect type repeats. */
  lemma GeneratedTypesDistinct(seed: nat, picks: seq<nat>, draws: seq<DefectDraw>, imageName: string)
    requires ValidSample(seed, picks, draws)
    ensures var g := Generated(picks, draws, imageName);
      forall i, j :: 0 <= i < j < |g| ==> g[i].defectType != g[j].defectType
  {
    CatalogueTypesDistinct();
    var g := Generated(picks, draws, imageName);
    forall i, j | 0 <= i < j < |g| ensures g[i].defectType != g[j].defectType {
      assert g[i].defectType == DefectTemplates()[picks[i]].defectType;
      assert g[j].defectType == DefectTemplates()[picks[j]].defectType;
      if picks[i] < picks[j] {
      } else {
        assert picks[j] < picks[i];
      }
    }
  }

  /** Each generated defect is built from the template picked for it and
      tagged with the image name. */
  lemma GeneratedFromTemplates(picks: seq<nat>, draws: seq<DefectDraw>, imageName: string)
    requires |draws| == |picks|
    requires forall k :: 0 <= k < |picks| ==> picks[k] < |DefectTemplates()|
    requires forall k :: 0 <= k < |picks| ==> DrawFits(DefectTemplates()[picks[k]], draws[k])
    ensures forall k :: 0 <= k < |picks| ==>
      Generated(picks, draws, imageName)[k].imageRef == imageName
      && FromTemplate(DefectTemplates()[picks[k]], Generated(picks, draws, imageName)[k])
  {
    forall k | 0 <= k < |picks|
      ensures Generated(picks, draws, imageName)[k].imageRef == imageName
      ensures FromTemplate(DefectTemplates()[picks[k]], Generated(picks, draws, imageName)[k])
    {
      MakeDefectFromTemplate(DefectTemplates()[picks[k]], draws[k], imageName);
    }
  }

  /** The sort's promises, gathered: a permutation, sorted, and stable
      within each severity. */
  lemma SortFacts(g: seq<Defect>)
    ensures |SortBySeverity(g)| == |g|
    ensures multiset(SortBySeverity(g)) == multiset(g)
    ensures SortedBySeverity(SortBySeverity(g))
    ensures forall s :: OfSeverity(SortBySeverity(g), s) == OfSeverity(g, s)
  {
    SortIsPermutation(g);
    SortIsSorted(g);
    forall s ensures OfSeverity(SortBySeverity(g), s) == OfSeverity(g, s) {
      SortIsStable(g, s);
    }
    assert |SortBySeverity(g)| == |multiset(SortBySeverity(g))| == |multiset(g)| == |g|;
  }

  /** A member of a permutation of `g` is an element of `g`. */
  lemma PermutationMember(r: seq<Defect>, g: seq<Defect>, d: Defect)
    requires multiset(r) == multiset(g) && d in r
    ensures exists k :: 0 <= k < |g| && g[k] == d
  {
    assert d in multiset(g);
  }

  /** What `analyze_image` promises about its result: between 2 and 5
      defects, exactly `2 + seed % 4`; a permutation of the generated ones,
      sorted High, Medium, Low and stable within one severity; each one
      built from a catalogue template and tagged with the image name. */
  lemma AnalysisResultProperties(seed: nat, picks: seq<nat>, draws: seq<DefectDraw>, imageName: string)
    requires ValidSample(seed, picks, draws)
    ensures |AnalysisResult(seed, picks, draws, imageName)| == DefectCount(seed)
    ensures 2 <= |AnalysisResult(seed, picks, draws, imageName)| <= 5
    ensures multiset(AnalysisResult(seed, picks, draws, imageName)) == multiset(Generated(picks, draws, imageName))
    ensures SortedBySeverity(AnalysisResult(seed, picks, draws, imageName))
    ensures forall s :: OfSeverity(AnalysisResult(seed, picks, draws, imageName), s)
                     == OfSeverity(Generated(picks, draws, imageName), s)
    ensures forall d :: d in AnalysisResult(seed, picks, draws, imageName) ==>
      d.imageRef == imageName && exists t :: 0 <= t < |DefectTemplates()| && FromTemplate(DefectTemplates()[t], d)
  {
    var g := Generated(picks, draws, imageName);
    var r := AnalysisResult(seed, picks, draws, imageName);
    SortFacts(g);
    GeneratedFromTemplates(picks, draws, imageName);
    forall d | d in r
      ensures d.imageRef == imageName && exists t :: 0 <= t < |DefectTemplates()| && FromTemplate(DefectTemplates()[t], d)
    {
      PermutationMember(r, g, d);
      var k :| 0 <= k < |g| && g[k] == d;
      assert FromTemplate(DefectTemplates()[picks[k]], d);
    }
  }

  /** `analyze_image(image_base64, notes, image_name)`. `seed` stands for
      `int(md5(image)[:8], 16)`; `picks` and `draws` for what the random
      generator seeded with it returns, so equal images give equal seeds,
      equal draws and an equal result. `notes` is accepted and not used. */
  method AnalyzeImage(seed: nat, picks: seq<nat>, draws: seq<DefectDraw>, notes: string, imageName: string)
    returns (defects: seq<Defect>)
    requires ValidSample(seed, picks, draws)
    ensures defects == AnalysisResult(seed, picks, draws, imageName)
    ensures |defects| == DefectCount(seed)
    ensures SortedBySeverity(defects)
  {
    ghost var g := Generated(picks, draws, imageName);
    defects := [];
    for k := 0 to |picks|
      invariant defects == g[..k]
    {
      var template := DefectTemplates()[picks[k]];
      var defect := MakeDefect(template, draws[k], imageName);
      TakeSnoc(g, k);
      defects := defects + [defect];
    }
    assert g[..|picks|] == g;
    defects := SortBySeverity(defects);
    AnalysisResultProperties(seed, picks, draws, imageName);
  }
}
