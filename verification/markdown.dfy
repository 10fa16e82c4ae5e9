/**
 The answer's sections and the markdown formatter that renders them: each
 section becomes a `### title` line, its body and an empty line, and all
 lines are joined by the separator.
 */
module Markdown {
  import opened Text

  /** One `(title, body)` pair of the answer. */
  datatype Section = Section(title: string, body: string)

  const HeadingMark: string := "### "

  function Heading(title: string): string {
    HeadingMark + title
  }

  /** Inverse of `Heading` on heading lines; other lines are left alone. */
  function StripHeading(line: string): string {
    if HeadingMark <= line then line[|HeadingMark|..] else line
  }

  /** No section of `sections` carries `title`. */
  ghost predicate TitleAbsent(sections: seq<Section>, title: string) {
    forall i :: 0 <= i < |sections| ==> sections[i].title != title
  }

  /** A title absent from two section lists is absent from their concatenation. */
  lemma TitleAbsentConcat(a: seq<Section>, b: seq<Section>, title: string)
    requires TitleAbsent(a, title) && TitleAbsent(b, title)
    ensures TitleAbsent(a + b, title)
  {
    forall i | 0 <= i < |a + b|
      ensures (a + b)[i].title != title
    {
      if i >= |a| {
        assert (a + b)[i] == b[i - |a|];
      }
    }
  }

  /** The positions of the parts of `h + bs + rs + [d]`. */
  lemma ConcatParts<T>(h: seq<T>, bs: seq<T>, rs: seq<T>, d: T)
    ensures var s := h + bs + rs + [d];
            && |s| == |h| + |bs| + |rs| + 1
            && s[..|h|] == h
            && s[|h|..|h| + |bs|] == bs
            && s[..|s| - 1] == h + bs + rs
            && s[|s| - 1] == d
            && (|rs| == 1 ==> s[|s| - 2] == rs[0])
  {
    var s := h + bs + rs + [d];
    assert s == h + (bs + (rs + [d]));
    assert s[|h|..] == bs + (rs + [d]);
  }

  /** Regrouping `h + bs + rs + [d]` around the last element of `bs`. */
  lemma Regroup<T>(h: seq<T>, bs: seq<T>, rs: seq<T>, d: T)
    requires |bs| > 0
    ensures h + bs + rs + [d] == (h + bs[..|bs| - 1]) + [bs[|bs| - 1]] + (rs + [d])
  {
    assert bs == bs[..|bs| - 1] + [bs[|bs| - 1]];
  }

  /** A title carried by one section and absent around it occurs exactly there. */
  lemma TitleOnlyAt(before: seq<Section>, x: Section, after: seq<Section>, title: string)
    requires TitleAbsent(before, title) && TitleAbsent(after, title) && x.title == title
    ensures var s := before + [x] + after;
            forall i :: 0 <= i < |s| ==> (s[i].title == title <==> i == |before|)
  {
    var s := before + [x] + after;
    forall i | 0 <= i < |s|
      ensures s[i].title == title <==> i == |before|
    {
      if i < |before| {
        assert s[i] == before[i];
      } else if i > |before| {
        assert s[i] == after[i - |before| - 1];
      }
    }
  }

  /** In `h + bs + rs + [d]`, a title carried by `d` alone is last and nowhere else. */
  lemma LastTitleOnly(h: seq<Section>, bs: seq<Section>, rs: seq<Section>, d: Section, t: string)
    requires TitleAbsent(h, t) && TitleAbsent(bs, t) && TitleAbsent(rs, t) && d.title == t
    ensures var s := h + bs + rs + [d];
            s[|s| - 1].title == t && forall i :: 0 <= i < |s| - 1 ==> s[i].title != t
  {
    TitleAbsentConcat(h, bs, t);
    TitleAbsentConcat(h + bs, rs, t);
    TitleOnlyAt(h + bs + rs, d, [], t);
    assert h + bs + rs + [d] == h + bs + rs + [d] + [];
  }

  /** In `h + bs + rs + [d]`, where at most one optional section `rs` can carry a
      title and nothing else does, the title occurs exactly when that section is
      present, and then it is second to last. */
  lemma OptionalTitle(h: seq<Section>, bs: seq<Section>, rs: seq<Section>, d: Section, t: string)
    requires TitleAbsent(h, t) && TitleAbsent(bs, t) && d.title != t
    requires |rs| <= 1 && (|rs| == 1 ==> rs[0].title == t)
    ensures var s := h + bs + rs + [d];
            (exists i :: 0 <= i < |s| && s[i].title == t) <==> |rs| == 1
    ensures var s := h + bs + rs + [d];
            |rs| == 1 ==> s[|s| - 2].title == t && s[|s| - 1] == d
  {
    var s := h + bs + rs + [d];
    ConcatParts(h, bs, rs, d);
    TitleAbsentConcat(h, bs, t);
    if |rs| == 0 {
      TitleAbsentConcat(h + bs, [d], t);
      assert s == (h + bs) + [d];
    } else {
      assert s[|s| - 2].title == t;
    }
  }

  /** In `h + bs + rs + [d]`, a title carried only by the last section of `bs`
      occurs exactly at that position. */
  lemma LastOfBlocksOnly(h: seq<Section>, bs: seq<Section>, rs: seq<Section>, d: Section, t: string)
    requires |bs| > 0 && bs[|bs| - 1].title == t
    requires TitleAbsent(h, t) && TitleAbsent(bs[..|bs| - 1], t) && TitleAbsent(rs, t) && d.title != t
    ensures var s := h + bs + rs + [d];
            forall i :: 0 <= i < |s| ==> (s[i].title == t <==> i == |h| + |bs| - 1)
  {
    TitleAbsentConcat(h, bs[..|bs| - 1], t);
    TitleAbsentConcat(rs, [d], t);
    Regroup(h, bs, rs, d);
    TitleOnlyAt(h + bs[..|bs| - 1], bs[|bs| - 1], rs + [d], t);
  }

  /** The lines the formatter produces, three per section, in section order. */
  function Pieces(sections: seq<Section>): (r: seq<string>)
    ensures |r| == 3 * |sections|
    decreases |sections|
  {
    if |sections| == 0 then []
    else [Heading(sections[0].title), sections[0].body, ""] + Pieces(sections[1..])
  }

  /** Section `i` owns lines `3i`, `3i+1` and `3i+2`: its heading, its body and an empty line. */
  lemma {:induction false} PiecesAt(sections: seq<Section>, i: int)
    requires 0 <= i < |sections|
    ensures var p := Pieces(sections);
            p[3 * i] == Heading(sections[i].title) && p[3 * i + 1] == sections[i].body && p[3 * i + 2] == ""
    decreases i
  {
    if i > 0 {
      PiecesAt(sections[1..], i - 1);
      assert Pieces(sections)[3..] == Pieces(sections[1..]);
    }
  }

  /** Reads the lines back into sections, three at a time. */
  function Unpieces(lines: seq<string>): seq<Section>
    decreases |lines|
  {
    if |lines| < 3 then []
    else [Section(StripHeading(lines[0]), lines[1])] + Unpieces(lines[3..])
  }

  /** The formatter loses nothing: the sections can be read back from its lines. */
  lemma {:induction false} UnpiecesPieces(sections: seq<Section>)
    ensures Unpieces(Pieces(sections)) == sections
    decreases |sections|
  {
    if |sections| > 0 {
      var p := Pieces(sections);
      assert p[3..] == Pieces(sections[1..]);
      assert StripHeading(Heading(sections[0].title)) == sections[0].title;
      UnpiecesPieces(sections[1..]);
      assert sections == [sections[0]] + sections[1..];
    }
  }

  /** Formatting one more section appends its three lines. */
  lemma {:induction false} PiecesSnoc(sections: seq<Section>, s: Section)
    ensures Pieces(sections + [s]) == Pieces(sections) + [Heading(s.title), s.body, ""]
    decreases |sections|
  {
    if |sections| > 0 {
      assert (sections + [s])[1..] == sections[1..] + [s];
      PiecesSnoc(sections[1..], s);
    } else {
      assert sections + [s] == [s];
    }
  }

  /** The formatting loop: three lines per section, joined by the separator. */
  method FormatMarkdown(sections: seq<Section>) returns (md: string)
    ensures md == Join(Sep, Pieces(sections))
  {
    var lines: seq<string> := [];
    var i := 0;
    while i < |sections|
      invariant 0 <= i <= |sections|
      invariant lines == Pieces(sections[..i])
    {
      PiecesSnoc(sections[..i], sections[i]);
      assert sections[..i + 1] == sections[..i] + [sections[i]];
      lines := lines + [Heading(sections[i].title), sections[i].body, ""];
      i := i + 1;
    }
    assert sections[..i] == sections;
    md := Join(Sep, lines);
  }

  /** Formatted text opens with the first section's heading. */
  lemma FormattedStart(sections: seq<Section>)
    requires |sections| > 0
    ensures Heading(sections[0].title) <= Join(Sep, Pieces(sections))
  {
    var lines := Pieces(sections);
    PiecesAt(sections, 0);
    assert lines[0] == Heading(sections[0].title);
    JoinStartsWith(Sep, lines);
  }

  /** Formatted text of at least one section ends with the separator. */
  lemma FormattedEnd(sections: seq<Section>)
    requires |sections| > 0
    ensures EndsWith(Join(Sep, Pieces(sections)), Sep)
  {
    var lines := Pieces(sections);
    PiecesAt(sections, |sections| - 1);
    assert |lines| >= 3 && lines[|lines| - 1] == "";
    JoinEndsWithSep(Sep, lines);
  }

  /** The text ends with the last section: its heading, its body and a final separator. */
  lemma EndsWithLastSection(sections: seq<Section>)
    requires |sections| >= 2
    ensures var s := sections[|sections| - 1];
            EndsWith(Join(Sep, Pieces(sections)), Sep + Heading(s.title) + Sep + s.body + Sep)
  {
    var n := |sections|;
    var s := sections[n - 1];
    var front := sections[..n - 1];
    SplitLast(sections);
    PiecesSnoc(front, s);
    var p := Pieces(front);
    var h := Heading(s.title);
    AppendThree(p, h, s.body, "");
    JoinAppend(Sep, p, h);
    JoinAppend(Sep, p + [h], s.body);
    JoinAppend(Sep, p + [h] + [s.body], "");
    var j := Join(Sep, p);
    EndsWithSuffix(j, Sep);
    EndsWithAppend(j + Sep, Sep, h);
    EndsWithAppend(j + Sep + h, Sep + h, Sep);
    EndsWithAppend(j + Sep + h + Sep, Sep + h + Sep, s.body);
    EndsWithAppend(j + Sep + h + Sep + s.body, Sep + h + Sep + s.body, Sep);
    assert j + Sep + h + Sep + s.body + Sep + "" == j + Sep + h + Sep + s.body + Sep;
  }
}
