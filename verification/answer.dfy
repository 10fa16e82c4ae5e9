/**
 The answer assembler: an intent-specific head, the general blocks for the
 product and phase, the region note and a fixed disclaimer, rendered as
 markdown by the formatter.
 */
module Answer {
  import opened Text
  import opened Markdown
  import opened Router
  import opened Knowledge
  import opened Region

  /** Terms that add the IFN note to a potency answer. */
  const IfnTerms: seq<string> := ["ifn", "ifng", "interferon"]

  predicate MentionsIfn(q: string) {
    AnyIn(Lower(q), IfnTerms)
  }

  // Section titles, as the source writes them.
  const GuidanceSummaryTitle: string := "Guidance Summary"
  const IfnNoteTitle: string := "Note on IFN\U{2011}\U{03B3}/secretion"
  const RclTitle: string := "Replication\U{2011}Competent Lentivirus (RCL)"
  const RcaTitle: string := "Replication\U{2011}Competent Adenovirus (RCA)"
  const GeneralFramingTitle: string := "General framing"
  const DisclaimerTitle: string := "Disclaimer"

  const StabilityTitle: string := "Stability expectations"
  const ContainerTitle: string := "Container/closure & shipping"
  const ComparabilityTitle: string := "Comparability & changes"

  // Titles of the sections built from each guidance entry, in order.
  const PotencyTitles: seq<string> :=
    [GuidanceSummaryTitle, "What reviewers look for", "Common pitfalls", "Suggested next steps"]
  const ReportResultsTitles: seq<string> :=
    [GuidanceSummaryTitle, "What to document", "Pitfalls", "Path forward"]
  const SpecJustTitles: seq<string> :=
    ["Specification justification \U{2014} Summary", "Build a justification package", "Common pitfalls", "Next steps"]
  const PpqTitles: seq<string> :=
    ["PPQ / Process Validation \U{2014} Summary", "What to prepare", "Pitfalls", "Next steps"]
  const Module3Titles: seq<string> :=
    ["Module 3 mapping \U{2014} Summary", "Where content typically lives", "Next steps"]

  /** Titles reserved for the tail of the answer. */
  predicate Reserved(title: string) {
    title == PhaseContextTitle || title == RegionContextTitle || title == DisclaimerTitle
  }

  const IfnNote: Section := Section(IfnNoteTitle, "ifn_note")
  const GeneralFraming: Section := Section(GeneralFramingTitle, "general_framing")
  const Disclaimer: Section := Section(DisclaimerTitle, "disclaimer")

  /** No section carries a title reserved for the tail of the answer. */
  predicate NoReservedTitle(sections: seq<Section>) {
    forall i :: 0 <= i < |sections| ==> !Reserved(sections[i].title)
  }

  /** `r` presents the entry `kb` under the four `titles`: the summary first, then
      the bulleted look-for, pitfalls and next-step lists, in that order. */
  predicate Presents(r: seq<Section>, titles: seq<string>, kb: Entry) {
    && |r| == 4 && |titles| == 4
    && (forall i :: 0 <= i < 4 ==> r[i].title == titles[i])
    && r[0].body == kb.summary
    && r[1].body == BulletBody(kb.lookFor)
    && r[2].body == BulletBody(kb.pitfalls)
    && r[3].body == BulletBody(kb.next)
  }

  /** The four sections built from a guidance entry: its summary and its three
      bullet lists, under the given titles. */
  function EntrySections(titles: seq<string>, kb: Entry): (r: seq<Section>)
    requires |titles| == 4
    ensures Presents(r, titles, kb)
  {
    [Section(titles[0], kb.summary),
     Section(titles[1], BulletBody(kb.lookFor)),
     Section(titles[2], BulletBody(kb.pitfalls)),
     Section(titles[3], BulletBody(kb.next))]
  }

  /** The potency head for a cell-therapy product: the four entry sections, then
      the IFN note when the query mentions an IFN term. */
  function PotencyHead(ifn: bool, phase: string): (r: seq<Section>)
    ensures |r| == if ifn then 5 else 4
    ensures Presents(r[..4], PotencyTitles, KbPotencyCell(phase))
    ensures ifn ==> r[4] == IfnNote
  {
    EntrySections(PotencyTitles, KbPotencyCell(phase)) + (if ifn then [IfnNote] else [])
  }

  /** The Module 3 head: the summary and the two bullet lists of the map. */
  function Module3Head(): (r: seq<Section>)
    ensures |r| == 3
    ensures forall i :: 0 <= i < 3 ==> r[i].title == Module3Titles[i]
    ensures r[0].body == KbModule3Mapping().summary
    ensures r[1].body == BulletBody(KbModule3Mapping().locations)
    ensures r[2].body == BulletBody(KbModule3Mapping().next)
  {
    var kb := KbModule3Mapping();
    [Section(Module3Titles[0], kb.summary),
     Section(Module3Titles[1], BulletBody(kb.locations)),
     Section(Module3Titles[2], BulletBody(kb.next))]
  }

  /** The replication head for a vector product: RCL for LVV, RCA otherwise. */
  function ReplicationHead(product: string): (r: seq<Section>)
    ensures |r| == 1
    ensures r[0].title == if product == LvvVector then RclTitle else RcaTitle
  {
    if product == LvvVector then [Section(RclTitle, "replication/rcl")]
    else [Section(RcaTitle, "replication/rca")]
  }

  /** The head falls through to "General framing" for the "general" intent and
      when the potency or replication guard rejects the product. */
  predicate FallsThrough(intent: Intent, product: string) {
    || intent == General
    || (intent == Potency && !IsCellProduct(product))
    || (intent == Replication && !IsVectorProduct(product))
  }

  /** The intent-specific head of the answer, for a routed intent and whether the
      query mentions an IFN term. */
  function HeadFor(intent: Intent, ifn: bool, product: string, phase: string): (r: seq<Section>)
    ensures 1 <= |r| <= 5
  {
    if intent == Potency && IsCellProduct(product) then PotencyHead(ifn, phase)
    else if intent == ReportResults then EntrySections(ReportResultsTitles, KbReportResults(phase))
    else if intent == SpecJust then EntrySections(SpecJustTitles, KbSpecJustification(phase))
    else if intent == Ppq then EntrySections(PpqTitles, KbPpqTiming(product, phase))
    else if intent == Module3 then Module3Head()
    else if intent == Stability then [Section(StabilityTitle, "stability")]
    else if intent == Container then [Section(ContainerTitle, "container")]
    else if intent == Replication && IsVectorProduct(product) then ReplicationHead(product)
    else if intent == Comparability then [Section(ComparabilityTitle, "comparability")]
    else [GeneralFraming]
  }

  /** The head for a query: its routed intent and its IFN mention decide it. */
  function Head(q: string, product: string, phase: string): seq<Section> {
    HeadFor(RouteIntent(q), MentionsIfn(q), product, phase)
  }

  /** The number of head sections for each intent. */
  lemma HeadSize(intent: Intent, ifn: bool, product: string, phase: string)
    ensures var r := HeadFor(intent, ifn, product, phase);
            && (intent == Potency && IsCellProduct(product) ==> |r| == (if ifn then 5 else 4))
            && (intent in {ReportResults, SpecJust, Ppq} ==> |r| == 4)
            && (intent == Module3 ==> |r| == 3)
            && (intent in {Stability, Container, Comparability, General} ==> |r| == 1)
            && (intent == Replication && IsVectorProduct(product) ==>
                  |r| == 1 && (r[0].title == RclTitle <==> product == LvvVector) && (r[0].title == RcaTitle <==> product == AavVector))
  {
  }

  /** What each intent's head holds: the titles it carries and, for the
      entry-based heads, which entry at `phase` supplies the bodies. */
  lemma HeadContent(intent: Intent, ifn: bool, product: string, phase: string)
    ensures var r := HeadFor(intent, ifn, product, phase);
            && (intent == Potency && IsCellProduct(product) ==>
                  |r| >= 4 && Presents(r[..4], PotencyTitles, KbPotencyCell(phase)))
            && (intent == ReportResults ==> Presents(r, ReportResultsTitles, KbReportResults(phase)))
            && (intent == SpecJust ==> Presents(r, SpecJustTitles, KbSpecJustification(phase)))
            && (intent == Ppq ==> Presents(r, PpqTitles, KbPpqTiming(product, phase)))
            && (intent == Module3 ==> r == Module3Head())
            && (intent == Stability ==> |r| == 1 && r[0].title == StabilityTitle)
            && (intent == Container ==> |r| == 1 && r[0].title == ContainerTitle)
            && (intent == Comparability ==> |r| == 1 && r[0].title == ComparabilityTitle)
            && (FallsThrough(intent, product) ==> r == [GeneralFraming])
  {
  }

  /** The intents whose head depends on the phase. */
  predicate PhaseDependent(intent: Intent, product: string) {
    || (intent == Potency && IsCellProduct(product))
    || intent == ReportResults || intent == SpecJust || intent == Ppq
  }

  /** For potency with a cell product, report_results, spec_just and ppq, two
      phases give the same head exactly when they fall into the same branch; every
      other head does not depend on the phase at all. */
  lemma HeadByBranch(intent: Intent, ifn: bool, product: string, p1: string, p2: string)
    ensures PhaseDependent(intent, product) ==>
              (HeadFor(intent, ifn, product, p1) == HeadFor(intent, ifn, product, p2) <==> Branch(p1) == Branch(p2))
    ensures !PhaseDependent(intent, product) ==>
              HeadFor(intent, ifn, product, p1) == HeadFor(intent, ifn, product, p2)
  {
    var r1 := HeadFor(intent, ifn, product, p1);
    var r2 := HeadFor(intent, ifn, product, p2);
    HeadContent(intent, ifn, product, p1);
    HeadContent(intent, ifn, product, p2);
    KbSummariesByBranch(p1, p2);
    KbPotencyCellByBranch(p1, p2);
    KbReportResultsByBranch(p1, p2);
    KbSpecJustificationByBranch(p1, p2);
    KbPpqTimingByBranch(product, p1, product, p2);
    if r1 == r2 && intent == Ppq {
      assert r1[0].body == r2[0].body;
      KbPpqSummaryByBranch(product, p1, p2);
    } else if r1 == r2 && PhaseDependent(intent, product) {
      assert r1[0].body == r2[0].body;
    }
  }

  /** The ppq head never depends on the product or on an IFN mention. */
  lemma PpqHeadIgnoresProduct(ifn1: bool, product1: string, ifn2: bool, product2: string, phase: string)
    ensures HeadFor(Ppq, ifn1, product1, phase) == HeadFor(Ppq, ifn2, product2, phase)
  {
    KbPpqTimingByBranch(product1, phase, product2, phase);
  }

  /** A head title that is neither reserved for the tail nor the IFN note's. */
  predicate Ordinary(title: string) {
    !Reserved(title) && title != IfnNoteTitle
  }

  /** Every fixed title of the head other than the IFN note's is ordinary. */
  lemma HeadTitlesOrdinary()
    ensures forall i :: 0 <= i < 4 ==> Ordinary(PotencyTitles[i]) && Ordinary(ReportResultsTitles[i])
    ensures forall i :: 0 <= i < 4 ==> Ordinary(SpecJustTitles[i]) && Ordinary(PpqTitles[i])
    ensures forall i :: 0 <= i < 3 ==> Ordinary(Module3Titles[i])
    ensures Ordinary(StabilityTitle) && Ordinary(ContainerTitle) && Ordinary(ComparabilityTitle)
    ensures Ordinary(RclTitle) && Ordinary(RcaTitle) && Ordinary(GeneralFramingTitle)
    ensures !Reserved(IfnNoteTitle)
  {
  }

  /** Head sections never use the titles reserved for the tail of the answer. */
  lemma HeadTitlesNotReserved(intent: Intent, ifn: bool, product: string, phase: string)
    ensures NoReservedTitle(HeadFor(intent, ifn, product, phase))
  {
    HeadTitlesOrdinary();
  }

  /** Guard fallthrough: the head is the single "General framing" section exactly
      when the intent is "general" or its product guard fails. */
  lemma HeadFallsThrough(intent: Intent, ifn: bool, product: string, phase: string)
    ensures HeadFor(intent, ifn, product, phase) == [GeneralFraming] <==> FallsThrough(intent, product)
  {
  }

  /** Within the head, the IFN note is present exactly in the potency branch with an
      IFN mention, and then it is the fifth section. */
  lemma HeadIfnNote(intent: Intent, ifn: bool, product: string, phase: string)
    ensures var r := HeadFor(intent, ifn, product, phase);
            (exists i :: 0 <= i < |r| && r[i].title == IfnNoteTitle) <==> intent == Potency && IsCellProduct(product) && ifn
    ensures intent == Potency && IsCellProduct(product) && ifn ==> |HeadFor(intent, ifn, product, phase)| == 5 && HeadFor(intent, ifn, product, phase)[4] == IfnNote
  {
    var r := HeadFor(intent, ifn, product, phase);
    if intent == Potency && IsCellProduct(product) && ifn {
      assert r[4].title == IfnNoteTitle;
    } else {
      forall i | 0 <= i < |r|
        ensures r[i].title != IfnNoteTitle
      {
      }
    }
  }

  /** The IFN note appears exactly for a cell-therapy product and a query that
      mentions "ifn", "ifng" or "interferon" (such a query always routes to
      potency), and then it is the fifth and last head section. */
  lemma IfnNoteIff(q: string, product: string, phase: string)
    ensures var h := Head(q, product, phase);
            (exists i :: 0 <= i < |h| && h[i].title == IfnNoteTitle) <==> IsCellProduct(product) && MentionsIfn(q)
    ensures IsCellProduct(product) && MentionsIfn(q) ==> |Head(q, product, phase)| == 5 && Head(q, product, phase)[4] == IfnNote
  {
    HeadIfnNote(RouteIntent(q), MentionsIfn(q), product, phase);
    if MentionsIfn(q) {
      var j :| 0 <= j < |IfnTerms| && Contains(Lower(q), IfnTerms[j]);
      IfnTermRoutesToPotency(q, IfnTerms[j]);
    }
  }

  /** The general blocks as sections: each block's points become a bullet body. */
  function BlockSections(blocks: seq<Block>): (r: seq<Section>)
    ensures |r| == |blocks|
    ensures forall i :: 0 <= i < |blocks| ==> r[i].title == blocks[i].title
    ensures forall i :: 0 <= i < |blocks| ==> r[i].body == Join(Sep, Bullets(blocks[i].points))
  {
    seq(|blocks|, i requires 0 <= i < |blocks| => Section(blocks[i].title, BulletBody(blocks[i].points)))
  }

  /** No fundamentals title is reserved for the tail of the answer. */
  lemma FundamentalsNotReserved()
    ensures forall t :: FundamentalsTitle(t) ==> !Reserved(t)
  {
  }

  /** The three titles of the answer's tail differ from one another. */
  lemma TailTitlesDistinct()
    ensures DisclaimerTitle != RegionContextTitle && DisclaimerTitle != PhaseContextTitle
    ensures RegionContextTitle != PhaseContextTitle
  {
  }

  /** The shape of the general-block sections: "Phase context" last and nowhere
      else, and no "Region context" or "Disclaimer" section. */
  ghost predicate BlocksShape(bs: seq<Section>) {
    && |bs| > 0 && bs[|bs| - 1].title == PhaseContextTitle
    && TitleAbsent(bs[..|bs| - 1], PhaseContextTitle)
    && TitleAbsent(bs, RegionContextTitle) && TitleAbsent(bs, DisclaimerTitle)
  }

  /** The general blocks of every product and phase, as sections, have that shape. */
  lemma GeneralSectionsShape(product: string, phase: string)
    ensures BlocksShape(BlockSections(GeneralBlocks(product, phase)))
  {
    var blocks := GeneralBlocks(product, phase);
    var bs := BlockSections(blocks);
    FundamentalsNotReserved();
    TailTitlesDistinct();
    forall i | 0 <= i < |bs|
      ensures bs[i].title != RegionContextTitle && bs[i].title != DisclaimerTitle
      ensures i < |bs| - 1 ==> bs[i].title != PhaseContextTitle
    {
      assert bs[i].title == blocks[i].title;
    }
  }

  /** The sections after a head: the block sections, then the region section when
      a region is set (`regionize_blocks`), then the disclaimer. */
  function Assemble(head: seq<Section>, bs: seq<Section>, region: string): (s: seq<Section>)
    ensures |s| == |head| + |bs| + (if region == "" then 1 else 2)
  {
    RegionizeBlocks(head + bs, region) + [Disclaimer]
  }

  /** Every section of the answer, in order. */
  function Sections(q: string, product: string, phase: string, region: string): seq<Section> {
    Assemble(Head(q, product, phase), BlockSections(GeneralBlocks(product, phase)), region)
  }

  /** The assembled sections cut where the blocks end and where the tail begins:
      the head, the block sections, the optional region section and the
      disclaimer. */
  lemma AssembleParts(head: seq<Section>, bs: seq<Section>, region: string) returns (rs: seq<Section>)
    ensures Assemble(head, bs, region) == head + bs + rs + [Disclaimer]
    ensures rs == if region == "" then [] else [RegionSection(region)]
    ensures TitleAbsent(rs, PhaseContextTitle) && TitleAbsent(rs, DisclaimerTitle)
    ensures |rs| <= 1 && (|rs| == 1 <==> region != "") && (|rs| == 1 ==> rs[0].title == RegionContextTitle)
  {
    rs := if region == "" then [] else [RegionSection(region)];
    TailTitlesDistinct();
  }

  /** The layout after any head: the head first, then the block sections, then the
      region section when a region is set, and the disclaimer last. */
  lemma AssembleLayout(head: seq<Section>, bs: seq<Section>, region: string)
    ensures var s := Assemble(head, bs, region);
            && |s| == |head| + |bs| + (if region == "" then 1 else 2)
            && s[..|head|] == head
            && s[|head|..|head| + |bs|] == bs
            && s[|s| - 1] == Disclaimer
            && (region != "" ==> s[|s| - 2] == RegionSection(region))
  {
    var rs := AssembleParts(head, bs, region);
    ConcatParts(head, bs, rs, Disclaimer);
  }

  /** After a head without reserved titles and general-block sections,
      "Disclaimer" is the last section and no other section has that title. */
  lemma AssembleDisclaimer(head: seq<Section>, bs: seq<Section>, region: string)
    requires NoReservedTitle(head) && BlocksShape(bs)
    ensures var s := Assemble(head, bs, region);
            s[|s| - 1].title == DisclaimerTitle && forall i :: 0 <= i < |s| - 1 ==> s[i].title != DisclaimerTitle
  {
    var rs := AssembleParts(head, bs, region);
    assert TitleAbsent(head, DisclaimerTitle);
    LastTitleOnly(head, bs, rs, Disclaimer, DisclaimerTitle);
  }

  /** After a head without reserved titles and general-block sections, a "Region
      context" section is present exactly when the region is non-empty, and then
      it sits immediately before the disclaimer. */
  lemma AssembleRegion(head: seq<Section>, bs: seq<Section>, region: string)
    requires NoReservedTitle(head) && BlocksShape(bs)
    ensures var s := Assemble(head, bs, region);
            (exists i :: 0 <= i < |s| && s[i].title == RegionContextTitle) <==> region != ""
    ensures var s := Assemble(head, bs, region);
            region != "" ==> s[|s| - 2].title == RegionContextTitle && s[|s| - 1].title == DisclaimerTitle
  {
    var rs := AssembleParts(head, bs, region);
    assert TitleAbsent(head, RegionContextTitle);
    TailTitlesDistinct();
    OptionalTitle(head, bs, rs, Disclaimer, RegionContextTitle);
  }

  /** After a head without reserved titles and general-block sections, exactly one
      section is "Phase context": the last block section. */
  lemma AssemblePhaseContext(head: seq<Section>, bs: seq<Section>, region: string)
    requires NoReservedTitle(head) && BlocksShape(bs)
    ensures var s := Assemble(head, bs, region);
            var k := |head| + |bs| - 1;
            0 <= k < |s| && forall i :: 0 <= i < |s| ==> (s[i].title == PhaseContextTitle <==> i == k)
  {
    var rs := AssembleParts(head, bs, region);
    assert TitleAbsent(head, PhaseContextTitle);
    TailTitlesDistinct();
    LastOfBlocksOnly(head, bs, rs, Disclaimer, PhaseContextTitle);
  }

  /** The layout of the answer: the head first, then the general blocks, then the
      region section when a region is set, and the disclaimer last. */
  lemma SectionsLayout(q: string, product: string, phase: string, region: string)
    ensures var s := Sections(q, product, phase, region);
            var h := Head(q, product, phase);
            var b := BlockSections(GeneralBlocks(product, phase));
            && |s| == |h| + |b| + (if region == "" then 1 else 2)
            && s[..|h|] == h
            && s[|h|..|h| + |b|] == b
            && s[|s| - 1] == Disclaimer
            && (region != "" ==> s[|s| - 2] == RegionSection(region))
  {
    AssembleLayout(Head(q, product, phase), BlockSections(GeneralBlocks(product, phase)), region);
  }

  /** "Disclaimer" is the last section of every answer and no other section has
      that title. */
  lemma DisclaimerLastAndOnly(q: string, product: string, phase: string, region: string)
    ensures var s := Sections(q, product, phase, region);
            s[|s| - 1].title == DisclaimerTitle && forall i :: 0 <= i < |s| - 1 ==> s[i].title != DisclaimerTitle
  {
    HeadTitlesNotReserved(RouteIntent(q), MentionsIfn(q), product, phase);
    GeneralSectionsShape(product, phase);
    AssembleDisclaimer(Head(q, product, phase), BlockSections(GeneralBlocks(product, phase)), region);
  }

  /** An answer has a "Region context" section exactly when the region is
      non-empty, and then it sits immediately before the disclaimer. */
  lemma RegionContextIff(q: string, product: string, phase: string, region: string)
    ensures var s := Sections(q, product, phase, region);
            (exists i :: 0 <= i < |s| && s[i].title == RegionContextTitle) <==> region != ""
    ensures var s := Sections(q, product, phase, region);
            region != "" ==> s[|s| - 2].title == RegionContextTitle && s[|s| - 1].title == DisclaimerTitle
  {
    HeadTitlesNotReserved(RouteIntent(q), MentionsIfn(q), product, phase);
    GeneralSectionsShape(product, phase);
    AssembleRegion(Head(q, product, phase), BlockSections(GeneralBlocks(product, phase)), region);
  }

  /** Every answer has exactly one "Phase context" section, the last of the
      general blocks. */
  lemma PhaseContextOnce(q: string, product: string, phase: string, region: string)
    ensures var s := Sections(q, product, phase, region);
            var k := |Head(q, product, phase)| + |GeneralBlocks(product, phase)| - 1;
            0 <= k < |s| && forall i :: 0 <= i < |s| ==> (s[i].title == PhaseContextTitle <==> i == k)
  {
    HeadTitlesNotReserved(RouteIntent(q), MentionsIfn(q), product, phase);
    GeneralSectionsShape(product, phase);
    AssemblePhaseContext(Head(q, product, phase), BlockSections(GeneralBlocks(product, phase)), region);
  }

  /** Case-insensitivity: queries equal after lower-casing get the same sections. */
  lemma SectionsCaseInsensitive(q1: string, q2: string, product: string, phase: string, region: string)
    requires Lower(q1) == Lower(q2)
    ensures Sections(q1, product, phase, region) == Sections(q2, product, phase, region)
  {
    RouteCaseInsensitive(q1, q2);
    assert MentionsIfn(q1) == MentionsIfn(q2);
    assert Head(q1, product, phase) == Head(q2, product, phase);
  }

  /** `answer(q, product, phase, region)`: the sections rendered as markdown. The
      text opens with the heading of the first head section and closes with the
      disclaimer followed by the separator. */
  method AnswerText(q: string, product: string, phase: string, region: string) returns (text: string)
    ensures text == Join(Sep, Pieces(Sections(q, product, phase, region)))
    ensures Heading(Head(q, product, phase)[0].title) <= text
    ensures EndsWith(text, Sep + Heading(DisclaimerTitle) + Sep + Disclaimer.body + Sep)
  {
    var sections := Sections(q, product, phase, region);
    text := FormatMarkdown(sections);
    SectionsLayout(q, product, phase, region);
    assert sections[0] == sections[..|Head(q, product, phase)|][0];
    FormattedStart(sections);
    EndsWithLastSection(sections);
  }
}
