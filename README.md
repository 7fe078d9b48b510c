# Home-inspection pipeline: a verified Dafny model

This project models the inspection pipeline of `simplified_backend.py`:

- **Knowledge base (`Knowledge`).** The building-code knowledge base (`IRCKnowledgeBase`) is a class holding a `codes` map. It offers two look-ups:
  - an exact-key lookup;
  - a keyword retrieval matcher. The matcher scans a fixed, ordered keyword table against the lower-cased defect type, skips unknown and already matched codes, and keeps at most two results.
- **Vision agent (`Vision`).** `VisionAgent.analyze_image` synthesises 2 to 5 defects from a catalogue of ten templates, driven by a seed taken from the image, and sorts them by severity. `_generate_description` builds the text for each defect.
- **Compliance agent (`Compliance`).** `ComplianceAgent.check_compliance` maps each defect to at most one violation record, by exact lookup first and by the keyword matcher as a fallback.
- **Finance agent (`Finance`).** The report (`FinanceAgent.generate_report`) holds:
  - the cost total and the severity buckets;
  - the capped risk score (`_calculate_risk_score`);
  - the ordered recommendation lines (`_generate_recommendations`).
- **Orchestrator (`Orchestrator`).** `AgentOrchestrator.process_inspection` concatenates the per-image defect lists in upload order, skipping images that fail. It then feeds the combined list through compliance and into the report.

`Defects` holds the shared defect record and the stable sort by severity. `Text` holds `str.lower()`, Python's substring test and decimal formatting. `Seqs` holds the list combinators the orchestrator is written with (`[f(x) for x in s]` and repeated `extend`) and the generic sequence facts the proofs use.

**Randomness.** The pseudo-random values the source draws are inputs to the model, each constrained to the range the draw guarantees:

- the MD5-derived seed;
- the templates `random.sample` picks, and the indices `random.choice` picks;
- the `random.uniform` values.

The same inputs give the same result. This is the model's counterpart of "the same image gives the same defects".

**Modelling choices.**

- `Vision.DefectDraw` gathers the draws made for one template. `Vision.ValidSample` states their ranges.
- The matcher's confidence draws are a function `draw: nat -> real` (the k-th appended match draws `draw(k)`). The compliance stage receives one such function per defect.
- A defect's confidence is stored in whole hundredths (75..95), the precision `round(..., 2)` leaves.
- Costs are `int()` of a product of exact rationals: truncation toward zero, written out.

**Behaviour worth knowing.**

- The source sorts each image's defects by severity but never re-sorts the combined list. `CombinedListNotSorted` exhibits a batch whose combined list is out of severity order.
- Defect confidences have no lower cut-off, and the risk score has no random jitter: it is a fixed function of the severity counts.
- No upload is rejected because of its file type; an upload only drops out when reading or encoding it raises.
- The recommendation list has no overall-risk line: it holds only the urgent lines and the two summaries.

## Model

| member | source | states |
|---|---|---|
| Knowledge.Loaded | simplified_backend.py:17-26 | definition: the `codes` map loading leaves, `{}` when the file is unreadable or has no `codes` field; `LoadFailureLeavesEmpty` states its properties |
| Knowledge.LoadFailureLeavesEmpty | simplified_backend.py:17-26 | a non-empty knowledge base can only come from a parsed `codes` field; an unreadable file leaves it empty |
| Knowledge.KnowledgeBase.constructor | simplified_backend.py:13-15 | a new knowledge base holds exactly what loading its source yields |
| Knowledge.KnowledgeBase.LoadKnowledgeBase | simplified_backend.py:17-26 | `codes` becomes the parsed `codes` field, or empty when the file cannot be read or lacks that field |
| Knowledge.KnowledgeBase.RetrieveCode | simplified_backend.py:28-30 | the lookup finds an entry exactly when the code is a key, and then returns that key's entry |
| Knowledge.KnowledgeBase.AppendKnownCodes | simplified_backend.py:59-67 | the inner loop extends the matches by the codes of one keyword's list that are known and not yet matched, in list order |
| Knowledge.KnowledgeBase.SearchByViolation | simplified_backend.py:32-69 | the nested loop returns exactly the first two known, de-duplicated candidates of the keywords found in the lower-cased type, in table order |
| Knowledge.KeywordTable | simplified_backend.py:38-54 | definition: `keyword_map` verbatim, every keyword and code list in insertion order, the order the matcher scans it in |
| Knowledge.SearchResults | simplified_backend.py:32-69 | definition of what `search_by_violation` returns: `MatchedCodeIds` keeps the known candidates of the lower-cased type (`Text.Lower`, `Text.Contains`) at their first occurrence, `ToMatch` builds each match with confidence 0.85 plus its draw, and `TopMatches` cuts the list to two; `SearchByViolation` is proved to return it and `SearchResultsProperties` states its properties |
| Knowledge.SearchResultsProperties | simplified_backend.py:57-69 | at most 2 results; each is a known code with that code's title and description, listed under a keyword occurring in the lower-cased type, with confidence in [0.85, 1.0]; no code twice; results in table order, then list order |
| Knowledge.TopMatchesProperties | simplified_backend.py:57-69 | the same guarantees for any keyword table and any text |
| Knowledge.SearchFindsIffKnownCandidate | simplified_backend.py:57-69 | the matcher returns something exactly when some candidate code is a key of the knowledge base |
| Knowledge.CandidateCodesFromKeyword | simplified_backend.py:57-59 | a code is a candidate exactly when it is listed under a keyword that occurs in the text |
| Knowledge.FirstKnownMembers | simplified_backend.py:59-60 | a code is kept exactly when it is a candidate and a key of the knowledge base |
| Knowledge.FirstKnownDistinct | simplified_backend.py:60 | the kept codes contain no duplicate |
| Knowledge.FirstKnownOrder | simplified_backend.py:57-62 | the kept codes appear in the order of their first appearance among the candidates |
| Knowledge.TopMatchesNonEmpty | simplified_backend.py:69 | the cut to two is empty only when nothing matched, and otherwise starts with the first match |
| Text.ContainsIsOccurs | simplified_backend.py:58 | the substring test succeeds exactly when the keyword is a contiguous run of the text |
| Text.LowerProperties | simplified_backend.py:34 | lower-casing keeps the length, leaves no upper-case ASCII letter and is idempotent |
| Vision.DefectTemplates | simplified_backend.py:75-146 | definition: `self.defect_templates` verbatim, the ten templates with their types, severity options, locations, base costs and code lists, in order |
| Vision.DefectCount | simplified_backend.py:163 | definition: `num_defects = 2 + (seed % 4)` |
| Vision.EstimatedCost | simplified_backend.py:174-176 | definition: `int(base_cost * multiplier * variation)` with multipliers 1.0, 0.6 and 0.3 and truncation toward zero (`Truncate`); `CostBounds` states its bounds |
| Vision.CostBounds | simplified_backend.py:174-176 | the truncated cost is non-negative and lies between the base cost scaled by the multiplier and by 0.8, and the same scaled by 1.2 |
| Vision.Description | simplified_backend.py:199-213 | definition of `_generate_description`: the dictionary's f-string for a catalogue type, with its severity-dependent word, else `"<type> detected at <location>"`; `DescriptionNamesLocation` and `FallbackDescription` state its properties |
| Vision.DescriptionNamesLocation | simplified_backend.py:199-213 | every description names the location; a description for a type outside the catalogue also names the type |
| Vision.FallbackDescription | simplified_backend.py:213 | a type without a dictionary entry gets "<type> detected at <location>" |
| Vision.CatalogueEntryIsCatalogueType | simplified_backend.py:201-212 | every key of the description dictionary is a catalogue type |
| Vision.MakeDefect | simplified_backend.py:169-190 | definition of one defect built from a template and its draws; `MakeDefectFromTemplate` states what each field holds |
| Vision.MakeDefectFromTemplate | simplified_backend.py:169-190 | a defect takes its type from its template; its severity, location and code come from the template's lists; its confidence lies in [0.75, 0.95]; its description is the one for those values; its cost lies within the template's bounds; it carries the image name |
| Vision.Generated | simplified_backend.py:168-191 | definition of `defects` before the sort: one `MakeDefect` per sampled template, in sample order, each tagged with the image name; `GeneratedFromTemplates` and `GeneratedTypesDistinct` state its properties |
| Vision.GeneratedFromTemplates | simplified_backend.py:168-191 | the k-th generated defect is built from the k-th sampled template |
| Vision.CatalogueTypesDistinct | simplified_backend.py:75-146 | no two catalogue templates share a type |
| Vision.GeneratedTypesDistinct | simplified_backend.py:163-166 | sampling without replacement gives pairwise-distinct defect types |
| Vision.AnalysisResult | simplified_backend.py:154-197 | definition of what `analyze_image` returns: the generated defects sorted by severity; `AnalyzeImage` is proved to return it and `AnalysisResultProperties` states its properties |
| Vision.AnalysisResultProperties | simplified_backend.py:154-197 | exactly `2 + seed % 4` defects, so 2 to 5; a permutation of the generated ones; sorted High, Medium, Low; stable within a severity; each from a catalogue template and tagged with the image name |
| Vision.AnalyzeImage | simplified_backend.py:154-197 | the append loop followed by the sort returns exactly the specified analysis, with `2 + seed % 4` defects in severity order |
| Defects.OfSeverity | simplified_backend.py:284-286 | a severity filter is no longer than its input and holds only defects of that severity |
| Defects.GroupsPartition | simplified_backend.py:283-287 | the three severity buckets together hold every defect exactly as often as the list does |
| Defects.SeverityCountsSum | simplified_backend.py:294-296 | the three bucket sizes add up to the number of defects |
| Defects.SortBySeverity | simplified_backend.py:194-195 | definition: the High, then Medium, then Low bucket, each in input order, the rank order `Rank` gives; `SortIsPermutation`, `SortIsSorted`, `SortIsStable` and `StableSortIsUnique` show it is the stable sort `defects.sort` performs |
| Defects.SortIsPermutation | simplified_backend.py:194-195 | the sort returns a permutation of its input |
| Defects.SortIsSorted | simplified_backend.py:194-195 | the sort's result is ordered by rank High=0, Medium=1, Low=2 |
| Defects.SortIsStable | simplified_backend.py:194-195 | within one severity the sort keeps input order |
| Defects.SortOfSorted | simplified_backend.py:194-195 | a list already ordered by rank is left unchanged |
| Defects.StableSortIsUnique | simplified_backend.py:194-195 | any rank-ordered list that keeps each severity group of the input in order equals the sort's result |
| Compliance.RecordFor | simplified_backend.py:226-262 | definition of the record one defect yields: the exact-lookup record (`ExactRecord`), else one from the first keyword match (`FallbackRecord`), else none; `RecordExists` and `RecordRules` state its properties |
| Compliance.Violations | simplified_backend.py:223-262 | definition of `violations` after the loop; `ViolationsAlign` and `ResolvedIndicesExact` state which records it holds and in what order |
| Compliance.References | simplified_backend.py:224-244 | definition of `rag_references` after the loop, one `Reference` string per exact hit; `ReferencesPerExactHit` states its contents |
| Compliance.ComplianceOf | simplified_backend.py:264-269 | definition of the returned dictionary, the totals counted by `CountStatus`; `StatusCountsSum` and `ViolationsAreExactHigh` state its totals |
| Compliance.RecordExists | simplified_backend.py:229-262 | a defect yields a record exactly when its code is known or the keyword matcher finds a known code for its type |
| Compliance.RecordRules | simplified_backend.py:226-262 | records copy the defect's type, location and severity; "Violation" exactly when the exact lookup succeeded and the defect is High; a fallback record is "Review Required", cites the first match and has confidence in [0.85, 1.0] |
| Compliance.ResolvedIndicesExact | simplified_backend.py:226-262 | the indices of the defects that yield records are increasing, in range, and are exactly the defects that resolve |
| Compliance.ViolationsAlign | simplified_backend.py:226-262 | at most one record per defect, in defect order: the j-th record is the one for the j-th resolving defect |
| Compliance.ReferencesPerExactHit | simplified_backend.py:231-244 | `rag_references` has exactly one entry per exact-lookup hit, in defect order: the j-th entry is "<code>: <title>" of the j-th defect whose code is a key, and those indices are exactly the defects whose code is a key |
| Compliance.StatusCountsSum | simplified_backend.py:264-269 | `total_violations + total_reviews == len(violations)` |
| Compliance.ViolationsAreExactHigh | simplified_backend.py:238-267 | `total_violations` counts exactly the High defects whose code the exact lookup finds |
| Compliance.ComplianceAgent.constructor | simplified_backend.py:218-219 | the agent owns a fresh knowledge base loaded from the source |
| Compliance.ComplianceAgent.CheckCompliance | simplified_backend.py:221-269 | the loop returns exactly the specified records, references and totals, and the totals add up to the number of records |
| Finance.TotalCost | simplified_backend.py:277 | definition of `sum(d["estimated_cost"] for d in defects)`; `TotalCostAppend` and `TotalCostBounds` state its properties |
| Finance.TotalCostAppend | simplified_backend.py:277 | the cost total of two lists is the sum of their totals |
| Finance.TotalCostBounds | simplified_backend.py:277 | with non-negative costs the total is non-negative and at least every single cost |
| Finance.RiskScore | simplified_backend.py:308-316 | the score lies in [15, 100] |
| Finance.RiskScoreOfEmpty | simplified_backend.py:308-316 | no defects score 15 |
| Finance.RiskScoreMonotone | simplified_backend.py:308-316 | adding defects never lowers the score |
| Finance.RiskScoreSaturates | simplified_backend.py:315-316 | four High defects or 17 defects reach the cap of 100; below the cap the score is at least 15 plus 5 per defect |
| Finance.Line | simplified_backend.py:324-332 | definition: the f-string each kind of recommendation is appended as, the counts written by `Text.NatToString` |
| Finance.Recommendations | simplified_backend.py:318-334 | definition: the rendered `Plan` (urgent lines for the first three High defects, then the medium and low summaries); `GenerateRecommendations` proves the append sequence returns it and the plan lemmas state its shape |
| Finance.TopThree | simplified_backend.py:323 | `high_priority[:3]` is a prefix of at most three, all of them when there are fewer |
| Finance.SeverityPresent | simplified_backend.py:326-331 | a severity bucket is non-empty exactly when some defect has that severity |
| Finance.PlanUrgentPrefix | simplified_backend.py:322-324 | the list opens with one urgent line for each of the first (at most three) High defects, in input order, and has no other urgent line |
| Finance.PlanMediumSummary | simplified_backend.py:326-328 | a medium summary appears exactly when a Medium defect exists, only right after the urgent lines, with the number of Medium defects |
| Finance.PlanLowSummary | simplified_backend.py:330-332 | a low summary appears exactly when a Low defect exists, only as the last line, with the number of Low defects |
| Finance.PlanOrder | simplified_backend.py:318-334 | urgent lines, then the medium summary, then the low summary: at most 5 lines |
| Finance.GenerateRecommendations | simplified_backend.py:318-334 | the append sequence returns exactly the rendered plan |
| Finance.GenerateReport | simplified_backend.py:274-306 | definition of the report dictionary without its timestamp; `ReportProperties` states its properties |
| Finance.ReportProperties | simplified_backend.py:274-306 | the buckets partition the defects and hold only their severity; the tallies add up to the total; the score is in [15, 100]; at most five recommendations; `total_cost` is the sum of the defect costs; the compliance totals, violations, references and the defect list pass through unchanged |
| Orchestrator.AllDefects | simplified_backend.py:349-358 | definition of `all_defects` after the loop, built from `ImageDefects` of each upload: the per-image lists concatenated in upload order, a failed image contributing nothing; the lemmas below state its properties |
| Orchestrator.AllDefectsAppend | simplified_backend.py:349-356 | processing two batches of images gives the concatenation of their defect lists |
| Orchestrator.AllDefectsSnoc | simplified_backend.py:355-356 | one more image extends the list by that image's analysis |
| Orchestrator.FailedImageSkipped | simplified_backend.py:350-358 | an image whose processing raises contributes nothing, and the images after it are still processed |
| Orchestrator.AllDefectsCount | simplified_backend.py:349-358 | the combined list holds between 2 and 5 defects per readable image |
| Orchestrator.ImageDefectsProvenance | simplified_backend.py:351-356 | an image's defects come from catalogue templates and carry its name |
| Orchestrator.AllDefectsProvenance | simplified_backend.py:349-358 | every combined defect comes from a catalogue template and names a readable upload |
| Orchestrator.UniformAnalysis | simplified_backend.py:166-195 | an analysis whose draws all pick severity s is non-empty and holds only defects of severity s |
| Orchestrator.LowBeforeHighUnsorted | simplified_backend.py:349-356 | a Low-only image before a High-only one gives a combined list that is not severity-ordered |
| Orchestrator.CombinedListNotSorted | simplified_backend.py:349-356 | some batch of uploads gives a combined list that is not sorted by severity |
| Orchestrator.AgentOrchestrator.constructor | simplified_backend.py:340-343 | the orchestrator's compliance agent holds the knowledge base loaded from the source |
| Orchestrator.AgentOrchestrator.ProcessInspection | simplified_backend.py:345-366 | the report is the one for the concatenated defect list and its compliance result; it lists every combined defect, 2 to 5 per readable image |

## Left out

- Reading `irc_knowledge_base.json` is file I/O. The model takes the outcome as an input (`KbSource`): unreadable, parsed without `codes`, or parsed with a `codes` map.
- Malformed knowledge-base entries are not modelled. Every entry carries a title and a description, which the matcher reads with `[...]`, so an entry is never an empty, falsy dictionary.
- MD5 hashing and base64 encoding are foreign. The seed is an input, and an image that cannot be read or encoded is an upload without content.
- Python's Mersenne-Twister generator is not modelled. Every draw is an input constrained to its documented range, so the model does not capture:
  - which concrete values a seed produces;
  - that `random.seed` also fixes the draws of the later keyword matcher, because the generator state is global.
- The 32-bit width of the seed (`int(hash[:8], 16)`) is not modelled; only `seed % 4` matters.
- Floating point is not modelled. Costs are exact rationals truncated toward zero, and `round(..., 2)` on the defect confidence is replaced by an input in whole hundredths.
- Text.LowerChar: only ASCII letters are lower-cased, because the keyword table is ASCII. Python's `str.lower()` also folds other scripts.
- The constant `"rag_retrieved": True` field of the violation records is left out, and so is the report's `timestamp` (`datetime.now()`).
- `print` logging and `_generate_image_hash` are not modelled. The `notes` argument is kept: `Vision.AnalyzeImage` and `Orchestrator.AgentOrchestrator.ProcessInspection` take it and ignore it, as the source does.
- `app.py` and its chat agent are not part of this model.
- Severity labels other than High, Medium and Low cannot be expressed, because severity is a datatype with exactly three values. So the tallies add up to the total unconditionally.
