/**
 The knowledge blocks: phase-dependent guidance entries for potency, report
 results, specification justification and PPQ timing, the Module 3 map, and
 the general fundamentals blocks chosen by product and phase.

 The guidance prose is not modelled: every summary and bullet point is a
 distinct tag string such as "potency/phase1/look_for/2". Section and block
 titles are kept as the source writes them.
 */
module Knowledge {

  // Product selector values.
  const CarT: string := "CAR-T"
  const TcrT: string := "TCR-T"
  const AavVector: string := "AAV Vector"
  const LvvVector: string := "LVV Vector"
  const MAb: string := "Monoclonal Antibody (mAb)"

  predicate IsCellProduct(product: string) {
    product == CarT || product == TcrT
  }

  predicate IsVectorProduct(product: string) {
    product == AavVector || product == LvvVector
  }

  predicate IsKnownProduct(product: string) {
    IsCellProduct(product) || IsVectorProduct(product) || product == MAb
  }

  // Development-stage selector values.
  const Phase1: string := "Phase 1"
  const Phase23: string := "Phase 2/3 (Pivotal)"
  const BlaMaa: string := "BLA/MAA"

  /** The three branches every phase-dependent block takes. */
  datatype PhaseBranch = EarlyPhase | PivotalPhase | FilingPhase

  /** Reference classification of a phase value: "Phase 1", "Phase 2/3 (Pivotal)",
      and everything else, which is treated as the BLA/MAA stage. */
  function Branch(phase: string): PhaseBranch {
    if phase == Phase1 then EarlyPhase
    else if phase == Phase23 then PivotalPhase
    else FilingPhase
  }

  /** Every value other than the two named phases, including the empty string and
      misspellings, falls into the BLA/MAA branch. */
  lemma FilingIsTheDefault(phase: string)
    ensures Branch(phase) == FilingPhase <==> phase != Phase1 && phase != Phase23
    ensures Branch(BlaMaa) == FilingPhase
  {
  }

  /** A guidance entry: a summary and three bullet lists. */
  datatype Entry = Entry(summary: string, lookFor: seq<string>, pitfalls: seq<string>, next: seq<string>)
  {
    /** The number of items in the three lists. */
    function Shape(): (int, int, int) {
      (|lookFor|, |pitfalls|, |next|)
    }
  }

  /** The Module 3 entry: a summary, a list of locations and a list of next steps. */
  datatype MapEntry = MapEntry(summary: string, locations: seq<string>, next: seq<string>)

  function KbPotencyCell(phase: string): (r: Entry)
    ensures Branch(phase) == EarlyPhase ==> r.Shape() == (3, 2, 2)
    ensures Branch(phase) == PivotalPhase ==> r.Shape() == (2, 2, 2)
    ensures Branch(phase) == FilingPhase ==> r.Shape() == (2, 1, 1)
  {
    if phase == Phase1 then
      Entry("potency/phase1/summary",
            ["potency/phase1/look_for/1", "potency/phase1/look_for/2", "potency/phase1/look_for/3"],
            ["potency/phase1/pitfalls/1", "potency/phase1/pitfalls/2"],
            ["potency/phase1/next/1", "potency/phase1/next/2"])
    else if phase == Phase23 then
      Entry("potency/pivotal/summary",
            ["potency/pivotal/look_for/1", "potency/pivotal/look_for/2"],
            ["potency/pivotal/pitfalls/1", "potency/pivotal/pitfalls/2"],
            ["potency/pivotal/next/1", "potency/pivotal/next/2"])
    else
      Entry("potency/bla/summary",
            ["potency/bla/look_for/1", "potency/bla/look_for/2"],
            ["potency/bla/pitfalls/1"],
            ["potency/bla/next/1"])
  }

  function KbReportResults(phase: string): (r: Entry)
    ensures Branch(phase) == EarlyPhase ==> r.Shape() == (2, 1, 1)
    ensures Branch(phase) != EarlyPhase ==> r.Shape() == (1, 1, 1)
  {
    if phase == Phase1 then
      Entry("report_results/phase1/summary",
            ["report_results/phase1/look_for/1", "report_results/phase1/look_for/2"],
            ["report_results/phase1/pitfalls/1"],
            ["report_results/phase1/next/1"])
    else if phase == Phase23 then
      Entry("report_results/pivotal/summary",
            ["report_results/pivotal/look_for/1"],
            ["report_results/pivotal/pitfalls/1"],
            ["report_results/pivotal/next/1"])
    else
      Entry("report_results/bla/summary",
            ["report_results/bla/look_for/1"],
            ["report_results/bla/pitfalls/1"],
            ["report_results/bla/next/1"])
  }

  function KbSpecJustification(phase: string): (r: Entry)
    ensures Branch(phase) == EarlyPhase ==> r.Shape() == (2, 1, 2)
    ensures Branch(phase) == PivotalPhase ==> r.Shape() == (2, 1, 1)
    ensures Branch(phase) == FilingPhase ==> r.Shape() == (1, 1, 1)
  {
    if phase == Phase1 then
      Entry("spec_just/phase1/summary",
            ["spec_just/phase1/look_for/1", "spec_just/phase1/look_for/2"],
            ["spec_just/phase1/pitfalls/1"],
            ["spec_just/phase1/next/1", "spec_just/phase1/next/2"])
    else if phase == Phase23 then
      Entry("spec_just/pivotal/summary",
            ["spec_just/pivotal/look_for/1", "spec_just/pivotal/look_for/2"],
            ["spec_just/pivotal/pitfalls/1"],
            ["spec_just/pivotal/next/1"])
    else
      Entry("spec_just/bla/summary",
            ["spec_just/bla/look_for/1"],
            ["spec_just/bla/pitfalls/1"],
            ["spec_just/bla/next/1"])
  }

  /** PPQ timing; the product is accepted but not consulted. */
  function KbPpqTiming(product: string, phase: string): (r: Entry)
    ensures r.Shape() == (1, 1, 1)
  {
    if phase == Phase1 then
      Entry("ppq/phase1/summary", ["ppq/phase1/look_for/1"], ["ppq/phase1/pitfalls/1"], ["ppq/phase1/next/1"])
    else if phase == Phase23 then
      Entry("ppq/pivotal/summary", ["ppq/pivotal/look_for/1"], ["ppq/pivotal/pitfalls/1"], ["ppq/pivotal/next/1"])
    else
      Entry("ppq/bla/summary", ["ppq/bla/look_for/1"], ["ppq/bla/pitfalls/1"], ["ppq/bla/next/1"])
  }

  function KbModule3Mapping(): (r: MapEntry)
    ensures |r.locations| == 3 && |r.next| == 2
  {
    MapEntry("module3/summary",
             ["module3/map/1", "module3/map/2", "module3/map/3"],
             ["module3/next/1", "module3/next/2"])
  }

  /** Each potency entry belongs to exactly one phase branch: two phase values get
      the same entry exactly when they fall into the same branch. */
  lemma KbPotencyCellByBranch(p1: string, p2: string)
    ensures KbPotencyCell(p1) == KbPotencyCell(p2) <==> Branch(p1) == Branch(p2)
  {
  }

  lemma KbReportResultsByBranch(p1: string, p2: string)
    ensures KbReportResults(p1) == KbReportResults(p2) <==> Branch(p1) == Branch(p2)
  {
  }

  lemma KbSpecJustificationByBranch(p1: string, p2: string)
    ensures KbSpecJustification(p1) == KbSpecJustification(p2) <==> Branch(p1) == Branch(p2)
  {
  }

  /** The PPQ entry depends on the phase branch only, never on the product. */
  lemma KbPpqTimingByBranch(product1: string, p1: string, product2: string, p2: string)
    ensures KbPpqTiming(product1, p1) == KbPpqTiming(product2, p2) <==> Branch(p1) == Branch(p2)
  {
  }

  /** The summaries alone already tell the branches apart. */
  lemma KbSummariesByBranch(p1: string, p2: string)
    ensures KbPotencyCell(p1).summary == KbPotencyCell(p2).summary <==> Branch(p1) == Branch(p2)
    ensures KbReportResults(p1).summary == KbReportResults(p2).summary <==> Branch(p1) == Branch(p2)
    ensures KbSpecJustification(p1).summary == KbSpecJustification(p2).summary <==> Branch(p1) == Branch(p2)
  {
  }

  /** The PPQ summaries tell the branches apart, whatever the product. */
  lemma KbPpqSummaryByBranch(product: string, p1: string, p2: string)
    ensures KbPpqTiming(product, p1).summary == KbPpqTiming(product, p2).summary <==> Branch(p1) == Branch(p2)
  {
  }

  /** A general block: a title and its bullet points. */
  datatype Block = Block(title: string, points: seq<string>)

  const VectorFundamentalsTitle: string := "Viral vector fundamentals"
  const CellFundamentalsTitle: string := "Cell therapy fundamentals"
  const MabFundamentalsTitle: string := "mAb fundamentals"
  const PhaseContextTitle: string := "Phase context"

  /** The title of one of the three product-family fundamentals blocks. */
  predicate FundamentalsTitle(title: string) {
    title == VectorFundamentalsTitle || title == CellFundamentalsTitle || title == MabFundamentalsTitle
  }

  const VectorFundamentals: Block :=
    Block(VectorFundamentalsTitle, ["vector/points/1", "vector/points/2", "vector/points/3"])
  const CellFundamentals: Block :=
    Block(CellFundamentalsTitle, ["cell/points/1", "cell/points/2", "cell/points/3"])
  const MabFundamentals: Block :=
    Block(MabFundamentalsTitle, ["mab/points/1", "mab/points/2", "mab/points/3"])

  /** The phase-context block: two points, chosen by the phase branch. */
  function PhaseContext(phase: string): (r: Block)
    ensures r.title == PhaseContextTitle && |r.points| == 2
  {
    if phase == Phase1 then
      Block(PhaseContextTitle, ["phase_context/phase1/1", "phase_context/phase1/2"])
    else if phase == Phase23 then
      Block(PhaseContextTitle, ["phase_context/pivotal/1", "phase_context/pivotal/2"])
    else
      Block(PhaseContextTitle, ["phase_context/bla/1", "phase_context/bla/2"])
  }

  /** The general blocks: the fundamentals block of the product's family, if any,
      then the phase-context block. */
  function GeneralBlocks(product: string, phase: string): (r: seq<Block>)
    ensures 1 <= |r| <= 2
    ensures r[|r| - 1].title == PhaseContextTitle && |r[|r| - 1].points| == 2
    ensures forall i :: 0 <= i < |r| - 1 ==> FundamentalsTitle(r[i].title)
    ensures |r| == 2 <==> IsKnownProduct(product)
    ensures IsVectorProduct(product) ==> r[0] == VectorFundamentals
    ensures IsCellProduct(product) ==> r[0] == CellFundamentals
    ensures product == MAb ==> r[0] == MabFundamentals
  {
    var vector := if product in [AavVector, LvvVector] then [VectorFundamentals] else [];
    var cell := if product in [CarT, TcrT] then [CellFundamentals] else [];
    var mab := if product == MAb then [MabFundamentals] else [];
    vector + cell + mab + [PhaseContext(phase)]
  }

  /** The blocks depend on the phase only through its branch, and each branch has
      its own phase-context block. */
  lemma GeneralBlocksByBranch(product: string, p1: string, p2: string)
    ensures GeneralBlocks(product, p1) == GeneralBlocks(product, p2) <==> Branch(p1) == Branch(p2)
  {
    var b1 := GeneralBlocks(product, p1);
    var b2 := GeneralBlocks(product, p2);
    if b1 == b2 {
      assert b1[|b1| - 1] == PhaseContext(p1);
      assert b2[|b2| - 1] == PhaseContext(p2);
    }
  }
}
