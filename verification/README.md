# CMC regulatory chatbot — answer pipeline model

A Dafny model of the deterministic answer pipeline of the CGT regulatory
chatbot (`app.py`). A question is routed to an intent by keyword matching
(`route_intent`). `answer` then builds an ordered list of `(title, body)`
sections: an intent-specific head, the product and phase fundamentals, an
optional region note and a fixed disclaimer. Finally it renders each section
as a `### title` line, its body and an empty line, joined by a separator.

Modules, one per component of the pipeline:

- `Text` (text.dfy): ASCII lower-casing, substring containment (Python's
  `k in s`), `sep.join`, and the bullet prefix.
- `Markdown` (markdown.dfy): the `Section` pair and the formatting loop.
- `Router` (router.dfy): the intent router and its priority table.
- `Knowledge` (knowledge.dfy): the `kb_*` guidance entries and the general
  blocks, with the phase branching.
- `Region` (region.dfy): `region_note` and `regionize_blocks`.
- `Answer` (answer.dfy): the head, the section list and `answer` itself.

Modelling decisions:

- Product, phase and region stay strings, as the selectors deliver them. Each
  is compared with the source's constants, so the "anything else" branches are
  modelled too. Any phase other than "Phase 1" or "Phase 2/3 (Pivotal)" takes
  the BLA/MAA branch (`Knowledge.Branch`).
- The guidance prose is not modelled. Every summary, bullet point and fixed
  body is a distinct tag string, such as `"potency/phase1/look_for/2"`. Each
  list has the same number of items as in the source. Section and block titles
  are kept verbatim, including the U+2011 hyphen, U+03B3 and U+2014 characters.
- The separator is `Text.Sep`. The source writes the Python literal `"\\n"`,
  which is a backslash followed by `n`. The constant is kept as written.
- Lower-casing is modelled as ASCII lower-casing (`Text.Lower`). Every keyword
  is lower-case ASCII.
- The head is split into `Answer.HeadFor(intent, ifn, product, phase)` and
  `Answer.Head(q, …) = HeadFor(RouteIntent(q), MentionsIfn(q), …)`. This keeps
  the routing proofs separate from the branching proofs. Likewise the rest of
  the answer is `Answer.Assemble(head, bs, region)`, whose layout lemmas hold
  for any head without a reserved title and any block sections of the shape
  `Answer.BlocksShape`; `Answer.GeneralSectionsShape` proves that the general
  blocks of every product and phase have that shape.
- `Router.ModuleThreeStarterRoutesToPotency` records a consequence of the
  first-match priority. The "Module 3 mapping" quick starter mentions
  "potency", so it is answered as a potency question.

## Model

| member | source | states |
|---|---|---|
| Text.LowerChar | app.py:252 | the lower-cased character is never an upper-case ASCII letter; upper-case letters move by 32 and every other character is kept |
| Text.Lower | app.py:252 | lower-casing keeps the length, leaves no upper-case letter, keeps every non-upper-case character and lowers every upper-case one |
| Text.LowerIdempotent | app.py:252 | lower-casing twice is the same as lower-casing once |
| Text.LowerFixedIff | app.py:252 | a string is its own lower-case form exactly when it has no upper-case letter |
| Text.ContainsIff | app.py:253 | the left-to-right scan answers `k in s` exactly when `k` occurs at some position of `s` |
| Text.ContainsAt | app.py:253 | an occurrence at a known position makes the containment test succeed |
| Text.JoinAppend | app.py:360 | joining one more piece appends the separator and that piece |
| Text.JoinStartsWith | app.py:360 | a join of pieces begins with the first piece |
| Text.JoinEndsWithSep | app.py:360 | a join of two or more pieces whose last piece is empty ends with the separator |
| Text.Contains | app.py:253 | no contract; see Text.ContainsIff, which equates the scan with an occurrence at some position |
| Text.Join | app.py:360 | joining no pieces gives the empty string, as `sep.join([])` does; the non-empty cases are stated by Text.JoinAppend, Text.JoinStartsWith and Text.JoinEndsWithSep |
| Text.Bullets | app.py:283 | each bullet line starts with the bullet mark, and removing the mark gives back the item, in order |
| Text.BulletBody | app.py:283 | no contract; the bullet lines of Text.Bullets joined by the separator |
| Markdown.Heading | app.py:357 | no contract; see Markdown.PiecesAt, which places it at each section's first line, and Markdown.UnpiecesPieces, whose read-back strips it again |
| Markdown.Pieces | app.py:355-359 | the formatter produces exactly three lines per section |
| Markdown.PiecesAt | app.py:356-359 | section `i` owns lines `3i`, `3i+1` and `3i+2`: its `### ` heading, its body and an empty line |
| Markdown.PiecesSnoc | app.py:356-359 | formatting one more section appends exactly its three lines after the earlier ones |
| Markdown.UnpiecesPieces | app.py:355-359 | the formatter loses nothing: reading its lines back three at a time recovers the sections |
| Markdown.FormatMarkdown | app.py:355-360 | the loop's output is the separator-join of the three-lines-per-section list |
| Markdown.FormattedStart | app.py:355-360 | the formatted text of a non-empty section list starts with the first section's heading |
| Markdown.FormattedEnd | app.py:355-360 | the formatted text of a non-empty section list ends with the separator |
| Markdown.EndsWithLastSection | app.py:355-360 | the rendered text ends with the last section's heading, its body and a final separator |
| Router.Label | app.py:253-271 | every intent has a non-empty label |
| Router.LabelInjective | app.py:253-271 | the ten labels are pairwise different |
| Router.RouteIntent | app.py:251-271 | no contract; see Router.RouteIntentIsFirstMatch, Router.RoutePriority and Router.RouteGeneralIff |
| Router.AnyIn | app.py:253-269 | no contract; see Router.RoutePriority and Router.RouteGeneralIff, which state routing as "a keyword of the list occurs in the lower-cased query"; the same test is Answer.MentionsIfn at app.py:286 |
| Router.FirstMatchPicksFirst | app.py:253-271 | in a priority table, a rule that matches when no earlier rule matches decides the intent |
| Router.FirstMatchNone | app.py:271 | in a priority table where no rule matches, the answer is "general" |
| Router.FirstMatchStep | app.py:253-271 | over any suffix of the table, the first remaining rule decides when it matches and otherwise the rules after it decide |
| Router.RouteIntentIsFirstMatch | app.py:251-271 | the router's nine branches are the priority table potency, report_results, spec_just, ppq, module3, stability, container, replication, comparability, applied to the lower-cased query |
| Router.RulesDistinct | app.py:253-270 | no rule selects "general" and no intent has two rules |
| Router.RoutePriority | app.py:253-271 | the intent of rule `i` is returned exactly when one of its keywords occurs in the lower-cased query and no keyword of an earlier rule does |
| Router.RouteGeneralIff | app.py:271 | "general" is returned exactly when no keyword of any list occurs in the lower-cased query |
| Router.RouteCaseInsensitive | app.py:252 | queries equal after lower-casing are routed to the same intent |
| Router.RouteOfLower | app.py:252 | routing the lower-cased query gives the same intent as routing the query |
| Router.LowerKeepsOccurrence | app.py:252-253 | a lower-case keyword occurring in the query occurs at the same position in the lower-cased query |
| Router.PotencyWins | app.py:253-254 | a query containing "potency" routes to potency, whatever other keywords it contains |
| Router.IfnTermRoutesToPotency | app.py:253-254 | a query containing "ifn", "ifng" or "interferon" routes to potency |
| Router.ModuleThreeStarterMentionsPotency | app.py:379 | the "Module 3 mapping" quick-starter question contains "potency" at index 21 |
| Router.ModuleThreeStarterRoutesToPotency | app.py:379 | the "Module 3 mapping" quick-starter question routes to potency, not to module3 |
| Knowledge.IsCellProduct | app.py:213 | no contract; the `product in ["CAR-T","TCR-T"]` guard, also at app.py:280; see Knowledge.GeneralBlocks, Answer.HeadFallsThrough and Answer.HeadIfnNote |
| Knowledge.IsVectorProduct | app.py:204 | no contract; the `product in ["AAV Vector","LVV Vector"]` guard, also at app.py:326; see Knowledge.GeneralBlocks, Answer.HeadFallsThrough and Answer.HeadSize |
| Knowledge.FundamentalsTitle | app.py:204-229 | no contract; the three fundamentals titles; see Knowledge.GeneralBlocks and Answer.FundamentalsNotReserved |
| Knowledge.Branch | app.py:53-86 | no contract; see Knowledge.FilingIsTheDefault |
| Knowledge.FilingIsTheDefault | app.py:231-245 | every phase value other than "Phase 1" and "Phase 2/3 (Pivotal)" takes the BLA/MAA branch |
| Knowledge.KbPotencyCell | app.py:52-99 | the look-for, pitfalls and next-step lists have 3/2/2 items in Phase 1, 2/2/2 at pivotal and 2/1/1 otherwise |
| Knowledge.KbReportResults | app.py:101-129 | the lists have 2/1/1 items in Phase 1 and 1/1/1 otherwise |
| Knowledge.KbSpecJustification | app.py:131-163 | the lists have 2/1/2 items in Phase 1, 2/1/1 at pivotal and 1/1/1 otherwise |
| Knowledge.KbPpqTiming | app.py:165-186 | every branch has one item in each list |
| Knowledge.KbModule3Mapping | app.py:188-200 | the map has three locations and two next steps |
| Knowledge.KbPotencyCellByBranch | app.py:53-86 | two phase values get the same potency entry exactly when they fall into the same branch |
| Knowledge.KbReportResultsByBranch | app.py:102-123 | two phase values get the same report-results entry exactly when they fall into the same branch |
| Knowledge.KbSpecJustificationByBranch | app.py:132-157 | two phase values get the same specification entry exactly when they fall into the same branch |
| Knowledge.KbPpqTimingByBranch | app.py:165-180 | the PPQ entry depends only on the phase branch and never on the product |
| Knowledge.KbSummariesByBranch | app.py:52-163 | two phase values get the same potency, report-results or specification summary exactly when they fall into the same branch |
| Knowledge.KbPpqSummaryByBranch | app.py:165-180 | two phase values get the same PPQ summary exactly when they fall into the same branch |
| Knowledge.PhaseContext | app.py:231-245 | the phase-context block is titled "Phase context" and has two points |
| Knowledge.GeneralBlocks | app.py:202-246 | there are one or two blocks. The last is the only "Phase context" block and has two points. There are two blocks exactly when the product is one of the five known products, and then the first is the fundamentals block of that product's family |
| Knowledge.GeneralBlocksByBranch | app.py:231-245 | for a fixed product, two phase values give the same blocks exactly when they fall into the same branch |
| Region.RegionNote | app.py:28-41 | the note has two points for the US and EU values and one point for any other value |
| Region.RegionNoteClasses | app.py:28-41 | two region values get the same note exactly when they are equal or both are neither US nor EU; any other value gets the global note |
| Region.RegionSection | app.py:46 | no contract; see Region.RegionizeBlocks, which states its title and body |
| Region.RegionizeBlocks | app.py:43-47 | an empty region leaves the sections unchanged. A non-empty one keeps them as a prefix and appends exactly one "Region context" section, whose body is the bulleted note |
| Answer.EntrySections | app.py:281-285 | a guidance entry becomes four sections carrying the given titles in order, whose bodies are the summary and then the bulleted look-for, pitfalls and next-step lists |
| Answer.PotencyHead | app.py:280-288 | the cell-therapy potency head presents the potency entry of the given phase under the four potency titles, and has a fifth section, the IFN note, exactly when the query mentions an IFN term |
| Answer.Module3Head | app.py:311-315 | the Module 3 head has three sections carrying the three Module 3 titles in order, whose bodies are the map's summary, its bulleted locations and its bulleted next steps |
| Answer.ReplicationHead | app.py:326-333 | the replication head is one section: RCL for "LVV Vector", RCA for any other product that reaches it |
| Answer.HeadFor | app.py:276-342 | the intent-specific head has between one and five sections; its content is stated by Answer.HeadContent |
| Answer.Head | app.py:277-342 | no contract; the head of Answer.HeadFor for the routed intent and the query's IFN mention |
| Answer.HeadSize | app.py:280-342 | head sizes: 4 or 5 for potency with a cell product (5 exactly with an IFN mention), 4 for report_results, spec_just and ppq, 3 for module3, 1 for the rest. For a vector product, replication gives one section, RCL exactly for LVV and RCA exactly for AAV |
| Answer.HeadContent | app.py:280-342 | each intent's head: potency with a cell product presents the potency entry at the phase, report_results, spec_just and ppq present their own entries at the phase under their own titles, module3 is the Module 3 head, stability, container and comparability are one section under their own title, and a failed guard or "general" gives "General framing" |
| Answer.HeadByBranch | app.py:280-338 | for potency with a cell product, report_results, spec_just and ppq, two phases give the same head exactly when they fall into the same branch; every other head ignores the phase |
| Answer.PpqHeadIgnoresProduct | app.py:304-309 | the ppq head depends neither on the product nor on an IFN mention |
| Answer.HeadTitlesOrdinary | app.py:280-342 | none of the fixed head titles is "Phase context", "Region context" or "Disclaimer", none other than the IFN note's own equals the IFN note's title, and the IFN note's title is not reserved either |
| Answer.HeadTitlesNotReserved | app.py:280-342 | no head section is titled "Phase context", "Region context" or "Disclaimer" |
| Answer.HeadFallsThrough | app.py:280-342 | the head is the single "General framing" section exactly when the intent is general, is potency with a product outside CAR-T/TCR-T, or is replication with a product outside AAV/LVV |
| Answer.HeadIfnNote | app.py:280-288 | the IFN note is in the head exactly in the potency branch with an IFN mention, and then it is the fifth section |
| Answer.MentionsIfn | app.py:286 | no contract; see Answer.IfnNoteIff |
| Answer.IfnNoteIff | app.py:280-288 | the IFN note appears exactly when the product is CAR-T or TCR-T and the lower-cased query contains "ifn", "ifng" or "interferon", and then it is the fifth and last head section |
| Answer.BlockSections | app.py:345-346 | each general block becomes a section with the same title whose body is its bulleted points |
| Answer.FundamentalsNotReserved | app.py:204-229 | no fundamentals block is titled "Phase context", "Region context" or "Disclaimer" |
| Answer.TailTitlesDistinct | app.py:46 | "Disclaimer", "Region context" and "Phase context" are three different titles |
| Answer.GeneralSectionsShape | app.py:202-246 | for every product and phase, the general blocks as sections end with the only "Phase context" section and carry no "Region context" or "Disclaimer" title |
| Answer.Assemble | app.py:344-352 | the answer has the head's sections, plus the block sections, plus one for a non-empty region, plus the disclaimer |
| Answer.AssembleParts | app.py:344-352 | the sections after a head split into the block sections, then the region section exactly when the region is non-empty, then the disclaimer |
| Answer.AssembleLayout | app.py:344-352 | after any head and block sections, the head is a prefix, the block sections follow it, the disclaimer is last and, for a non-empty region, the region section is second to last |
| Answer.AssembleDisclaimer | app.py:349-352 | after a head without reserved titles and general-block sections, "Disclaimer" is the last section and no other section has that title |
| Answer.AssembleRegion | app.py:347 | after a head without reserved titles and general-block sections, a "Region context" section exists exactly when the region is non-empty, and then it is immediately before the disclaimer |
| Answer.AssemblePhaseContext | app.py:345-346 | after a head without reserved titles and general-block sections, exactly one section is "Phase context": the last block section |
| Answer.Sections | app.py:277-352 | no contract; see Answer.SectionsLayout and the Answer.Assemble lemmas |
| Answer.SectionsLayout | app.py:277-352 | the answer's sections are the head, then the general blocks, then the region section when the region is non-empty, then the disclaimer |
| Answer.DisclaimerLastAndOnly | app.py:349-352 | "Disclaimer" is the last section and no other section has that title |
| Answer.RegionContextIff | app.py:347 | a "Region context" section exists exactly when the region is non-empty, and then it is immediately before the disclaimer |
| Answer.PhaseContextOnce | app.py:345-346 | exactly one section is "Phase context": the last of the general blocks |
| Answer.SectionsCaseInsensitive | app.py:277 | queries equal after lower-casing produce the same sections |
| Answer.AnswerText | app.py:276-360 | the answer is the join of the formatted section lines; it opens with the first head section's heading and closes with the disclaimer's heading, its body and a final separator |

## Left out

- Streamlit page setup, selectors, buttons, session state, rendering and the transcript download (app.py:2-23, 362-429) are UI and I/O, not logic. The one exception is the "Module 3 mapping" quick-starter question (app.py:379), kept only as an input to the router.
- The `datetime.utcnow` timestamp of each transcript entry (app.py:398) is a clock read outside the answer pipeline.
- The wording of the guidance prose is replaced by distinct tag strings. The model checks which section, branch and item count appear, not the text.
- Text.Lower: models Python's `str.lower` on ASCII letters only. Unicode case mappings, some of which change the length of a string, are not modelled. Only two non-ASCII characters lower-case to something containing an ASCII letter: U+212A KELVIN SIGN becomes "k", and U+0130 becomes "i" followed by a combining dot. No keyword ends in "i", so `cytokine` is the one keyword this can affect. A query spelled "CYTO\u212AINE" becomes "cytokine" at app.py:252 and routes to potency at app.py:253, but the model leaves that character unchanged and does not route the query to potency.
- app.py contains no fallback resolver, block merger, chunker, retrieval index, diversity selector or confidence gate, so the model has none.
