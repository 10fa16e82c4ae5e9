/**
 The region note: a short bullet list chosen by the region selector and
 appended to the answer as a "Region context" section when a region is set.
 */
module Region {
  import opened Text
  import opened Markdown

  // Region selector values; the hyphen in the US and EU values is U+2011.
  const GlobalRegion: string := "Global (general)"
  const UsRegion: string := "US (FDA\U{2011}centric)"
  const EuRegion: string := "EU (EMA\U{2011}centric)"

  const RegionContextTitle: string := "Region context"

  const UsNote: seq<string> := ["region/us/1", "region/us/2"]
  const EuNote: seq<string> := ["region/eu/1", "region/eu/2"]
  const GeneralNote: seq<string> := ["region/general/1"]

  /** The region-specific points: two for the US and EU values, one for anything else. */
  function RegionNote(region: string): (r: seq<string>)
    ensures region == UsRegion || region == EuRegion ==> |r| == 2
    ensures region != UsRegion && region != EuRegion ==> |r| == 1
  {
    if region == UsRegion then UsNote
    else if region == EuRegion then EuNote
    else GeneralNote
  }

  /** The note has three classes: US, EU, and every other value, which gets the
      same generic note as the global selector. */
  lemma RegionNoteClasses(r1: string, r2: string)
    ensures RegionNote(r1) == RegionNote(r2) <==>
              r1 == r2 || (r1 !in {UsRegion, EuRegion} && r2 !in {UsRegion, EuRegion})
    ensures r1 !in {UsRegion, EuRegion} ==> RegionNote(r1) == RegionNote(GlobalRegion)
  {
  }

  /** The section appended for a region. */
  function RegionSection(region: string): Section {
    Section(RegionContextTitle, BulletBody(RegionNote(region)))
  }

  /** Appends one "Region context" section when the region is non-empty; an empty
      region leaves the sections unchanged. */
  function RegionizeBlocks(blocks: seq<Section>, region: string): (r: seq<Section>)
    ensures region == "" ==> r == blocks
    ensures region != "" ==> |r| == |blocks| + 1 && r[..|blocks|] == blocks
    ensures region != "" ==> r[|blocks|].title == RegionContextTitle
    ensures region != "" ==> r[|blocks|].body == Join(Sep, Bullets(RegionNote(region)))
  {
    if region != "" then blocks + [RegionSection(region)] else blocks
  }
}
