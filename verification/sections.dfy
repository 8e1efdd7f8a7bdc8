/** The section splitter: a scan over the lines of all pages that opens a new
    section at every numbered heading line. */
module Sections {
  import opened Chars
  import opened Lines

  datatype Section = Section(heading: string, text: string)

  /** Heading of the section that holds the text before the first heading line. */
  const Introduction: string := "Introduction"

  /** `re.match(r"^\d+\.\s[A-Z]", line)`: one or more digits, `.`, one
      whitespace character, an uppercase letter, and anything after. */
  predicate IsHeading(line: string) {
    var n := DigitRun(line);
    1 <= n && n + 2 < |line| && line[n] == '.' && IsSpace(line[n + 1]) && IsUpper(line[n + 2])
  }

  /** The pattern's shape, with the length `k` of the digit prefix chosen freely. */
  ghost predicate HeadingShape(line: string) {
    exists k :: 1 <= k && k + 2 < |line| && AllDigits(line[..k]) && line[k] == '.'
                && IsSpace(line[k + 1]) && IsUpper(line[k + 2])
  }

  /** The scan accepts exactly the lines of the pattern's shape. */
  lemma IsHeadingIffShape(line: string)
    ensures IsHeading(line) <==> HeadingShape(line)
  {
    if HeadingShape(line) {
      var k :| 1 <= k && k + 2 < |line| && AllDigits(line[..k]) && line[k] == '.'
               && IsSpace(line[k + 1]) && IsUpper(line[k + 2]);
      DigitRunUnique(line, k);
    }
  }

  /** The splitter's loop state: the sections already appended to the result
      list, and the section being filled. */
  datatype Scan = Scan(closed: seq<Section>, current: Section) {
    /** The list the splitter returns if the scan ends here. */
    function Finish(): seq<Section> {
      closed + [current]
    }
  }

  const Start: Scan := Scan([], Section(Introduction, ""))

  /** One line of the inner loop: a heading line closes the current section and
      opens a new one headed by the line; any other line is appended to the
      current section's text followed by one space. */
  function Feed(s: Scan, line: string): Scan {
    if IsHeading(line) then Scan(s.closed + [s.current], Section(line, ""))
    else Scan(s.closed, s.current.(text := s.current.text + line + " "))
  }

  /** The inner loop over the lines of one page. */
  function FeedLines(s: Scan, lines: seq<string>): Scan
    decreases |lines|
  {
    if |lines| == 0 then s else FeedLines(Feed(s, lines[0]), lines[1..])
  }

  /** The outer loop over the pages. */
  function FeedPages(s: Scan, pages: seq<string>): Scan
    decreases |pages|
  {
    if |pages| == 0 then s else FeedPages(FeedLines(s, SplitLines(pages[0])), pages[1..])
  }

  /** `split_sections`. */
  function SplitSections(pages: seq<string>): (r: seq<Section>)
    ensures r == Segments(AllLines(pages))
    ensures |r| >= 1 && r[0].heading == Introduction
    ensures pages == [] ==> r == [Section(Introduction, "")]
  {
    FeedPagesIsFeedLines(Start, pages);
    FinishIsSegments(AllLines(pages));
    FeedPages(Start, pages).Finish()
  }

  // ---------------------------------------------------------------------
  // Page boundaries

  lemma {:induction false} FeedLinesAppend(s: Scan, a: seq<string>, b: seq<string>)
    ensures FeedLines(s, a + b) == FeedLines(FeedLines(s, a), b)
    decreases |a|
  {
    if |a| == 0 {
      assert a + b == b;
    } else {
      assert (a + b)[0] == a[0];
      assert (a + b)[1..] == a[1..] + b;
      FeedLinesAppend(Feed(s, a[0]), a[1..], b);
    }
  }

  /** Page boundaries do not close a section: the page loop is the line loop
      run over all lines of all pages. */
  lemma {:induction false} FeedPagesIsFeedLines(s: Scan, pages: seq<string>)
    ensures FeedPages(s, pages) == FeedLines(s, AllLines(pages))
    decreases |pages|
  {
    if |pages| > 0 {
      FeedPagesIsFeedLines(FeedLines(s, SplitLines(pages[0])), pages[1..]);
      FeedLinesAppend(s, SplitLines(pages[0]), AllLines(pages[1..]));
    }
  }

  /** Splitting two pages gives what splitting their lines as one stream gives. */
  lemma TwoPages(p1: string, p2: string)
    ensures SplitSections([p1, p2]) == Segments(SplitLines(p1) + SplitLines(p2))
  {
    assert AllLines([p2]) == SplitLines(p2) by {
      assert [p2][1..] == [];
      assert SplitLines(p2) + [] == SplitLines(p2);
    }
    assert [p1, p2][1..] == [p2];
  }

  // ---------------------------------------------------------------------
  // The sections, described without the scan

  /** Positions of the heading lines in `lines`, in increasing order. */
  function HeadingIndices(lines: seq<string>): (h: seq<nat>)
    ensures Increasing(h, |lines|)
    decreases |lines|
  {
    if |lines| == 0 then []
    else
      var h := HeadingIndices(lines[..|lines| - 1]);
      if IsHeading(lines[|lines| - 1]) then h + [|lines| - 1] else h
  }

  /** The listed positions are exactly those of the heading lines. */
  lemma {:induction false} HeadingIndicesExact(lines: seq<string>)
    ensures var h := HeadingIndices(lines);
            && (forall k :: 0 <= k < |h| ==> IsHeading(lines[h[k]]))
            && (forall j :: 0 <= j < |lines| ==> (IsHeading(lines[j]) <==> j in h))
    decreases |lines|
  {
    if |lines| > 0 {
      var init := lines[..|lines| - 1];
      var x := lines[|lines| - 1];
      var hi := HeadingIndices(init);
      var h := HeadingIndices(lines);
      HeadingIndicesExact(init);
      assert forall k :: 0 <= k < |hi| ==> lines[hi[k]] == init[hi[k]];
      assert |lines| - 1 !in hi;
      forall j | 0 <= j < |lines|
        ensures IsHeading(lines[j]) <==> j in h
      {
        if j < |lines| - 1 {
          assert lines[j] == init[j];
        }
      }
    }
  }

  /** Each line followed by one space, concatenated in order. */
  function Spaced(lines: seq<string>): string
    decreases |lines|
  {
    if |lines| == 0 then "" else Spaced(lines[..|lines| - 1]) + lines[|lines| - 1] + " "
  }

  /** `h` lists increasing positions below `n`. */
  predicate Increasing(h: seq<nat>, n: nat) {
    && (forall k :: 0 <= k < |h| ==> h[k] < n)
    && (forall k, m :: 0 <= k < m < |h| ==> h[k] < h[m])
  }

  /** Section `i` starts after the `i`-th heading line (the first at the start). */
  function SegStart(h: seq<nat>, i: nat): nat
    requires i <= |h|
  {
    if i == 0 then 0 else h[i - 1] + 1
  }

  /** Section `i` ends before the next heading line, or at the end. */
  function SegEnd(h: seq<nat>, n: nat, i: nat): nat
    requires i <= |h|
  {
    if i < |h| then h[i] else n
  }

  lemma SegBounds(h: seq<nat>, n: nat, i: nat)
    requires Increasing(h, n) && i <= |h|
    ensures SegStart(h, i) <= SegEnd(h, n, i) <= n
  {
    if 0 < i < |h| {
      assert h[i - 1] < h[i];
    }
  }

  /** Section `i` of `lines` when its heading lines sit at the positions `h`:
      headed by its heading line, verbatim, and holding the run of lines up to
      the next heading line, each followed by a space. */
  function SegmentAt(lines: seq<string>, h: seq<nat>, i: nat): Section
    requires Increasing(h, |lines|) && i <= |h|
  {
    SegBounds(h, |lines|, i);
    var heading := if i == 0 then Introduction else lines[h[i - 1]];
    Section(heading, Spaced(lines[SegStart(h, i)..SegEnd(h, |lines|, i)]))
  }

  /** The sections of a line stream: one per heading line plus the leading one. */
  function Segments(lines: seq<string>): (r: seq<Section>)
    ensures |r| == |HeadingIndices(lines)| + 1
    ensures r[0].heading == Introduction
    ensures forall i :: 0 <= i < |r| ==> r[i] == SegmentAt(lines, HeadingIndices(lines), i)
  {
    var h := HeadingIndices(lines);
    seq(|h| + 1, i requires 0 <= i <= |h| => SegmentAt(lines, h, i))
  }

  /** Appending a line leaves every section that ends before it unchanged. */
  lemma {:induction false} SegmentAtExtend(lines: seq<string>, x: string, h: seq<nat>, h': seq<nat>, i: nat)
    requires Increasing(h, |lines|) && Increasing(h', |lines| + 1)
    requires h' == h || h' == h + [|lines|]
    requires i < |h| || (i == |h| && h' != h)
    ensures SegmentAt(lines + [x], h', i) == SegmentAt(lines, h, i)
  {
    var l := lines + [x];
    SegBounds(h, |lines|, i);
    assert SegStart(h', i) == SegStart(h, i);
    assert SegEnd(h', |l|, i) == SegEnd(h, |lines|, i);
    assert l[SegStart(h, i)..SegEnd(h, |lines|, i)] == lines[SegStart(h, i)..SegEnd(h, |lines|, i)];
    if i > 0 {
      assert h'[i - 1] == h[i - 1];
    }
  }

  lemma {:induction false} SegmentsHeadingLine(lines: seq<string>, x: string)
    requires IsHeading(x)
    ensures Segments(lines + [x]) == Segments(lines) + [Section(x, "")]
  {
    var l := lines + [x];
    assert l[..|l| - 1] == lines;
    var h := HeadingIndices(lines);
    var h' := HeadingIndices(l);
    assert h' == h + [|lines|];
    var r := Segments(lines);
    var r' := Segments(l);
    forall i | 0 <= i <= |h|
      ensures r'[i] == r[i]
    {
      SegmentAtExtend(lines, x, h, h', i);
    }
    assert l[|l|..|l|] == [];
    assert r'[|h| + 1] == Section(x, "");
  }

  /** Appending a text line extends the text of the last section. */
  lemma {:induction false} LastSegmentExtend(lines: seq<string>, x: string, h: seq<nat>)
    requires Increasing(h, |lines|) && Increasing(h, |lines| + 1)
    ensures var s := SegmentAt(lines, h, |h|);
            SegmentAt(lines + [x], h, |h|) == s.(text := s.text + x + " ")
  {
    var l := lines + [x];
    var st := SegStart(h, |h|);
    SegBounds(h, |lines|, |h|);
    var seg := lines[st..|lines|];
    assert l[st..|l|] == seg + [x];
    assert (seg + [x])[..|seg|] == seg;
    if |h| > 0 {
      assert l[h[|h| - 1]] == lines[h[|h| - 1]];
    }
  }

  lemma {:induction false} SegmentsTextLine(lines: seq<string>, x: string)
    requires !IsHeading(x)
    ensures var r := Segments(lines);
            Segments(lines + [x]) == r[..|r| - 1] + [r[|r| - 1].(text := r[|r| - 1].text + x + " ")]
  {
    var l := lines + [x];
    assert l[..|l| - 1] == lines;
    var h := HeadingIndices(lines);
    assert HeadingIndices(l) == h;
    var r := Segments(lines);
    var r' := Segments(l);
    var want := r[..|r| - 1] + [r[|r| - 1].(text := r[|r| - 1].text + x + " ")];
    assert |r'| == |want|;
    forall i | 0 <= i < |h|
      ensures r'[i] == want[i]
    {
      SegmentAtExtend(lines, x, h, h, i);
    }
    LastSegmentExtend(lines, x, h);
    assert r'[|h|] == want[|h|];
  }

  /** The scan computes the sections: what it returns after any prefix of the
      line stream is `Segments` of that prefix. */
  lemma {:induction false} FinishIsSegments(lines: seq<string>)
    ensures FeedLines(Start, lines).Finish() == Segments(lines)
    decreases |lines|
  {
    if |lines| == 0 {
      assert Segments(lines) == [Section(Introduction, "")];
    } else {
      var init := lines[..|lines| - 1];
      var x := lines[|lines| - 1];
      assert init + [x] == lines;
      FeedLinesAppend(Start, init, [x]);
      assert FeedLines(Feed(FeedLines(Start, init), x), []) == Feed(FeedLines(Start, init), x);
      FinishIsSegments(init);
      if IsHeading(x) {
        SegmentsHeadingLine(init, x);
      } else {
        SegmentsTextLine(init, x);
      }
    }
  }

  // ---------------------------------------------------------------------
  // Consequences

  /** No listed position falls inside a segment. */
  lemma {:induction false} SegmentAvoidsIndices(h: seq<nat>, n: nat, i: nat, j: nat)
    requires Increasing(h, n) && i <= |h|
    requires SegStart(h, i) <= j < SegEnd(h, n, i)
    ensures j !in h
  {
    forall k | 0 <= k < |h|
      ensures h[k] != j
    {
      if k < i - 1 {
        assert h[k] < h[i - 1];
      } else if k > i {
        assert h[i] < h[k];
      }
    }
  }

  /** The lines of section `i` lie strictly between two heading lines (or
      the ends of the stream) and none of them is a heading line. */
  lemma {:induction false} SegmentBetweenHeadings(lines: seq<string>, i: nat)
    requires i <= |HeadingIndices(lines)|
    ensures var h := HeadingIndices(lines);
            var a := SegStart(h, i);
            var b := SegEnd(h, |lines|, i);
            && a <= b <= |lines|
            && (i > 0 ==> IsHeading(lines[a - 1]))
            && (b < |lines| ==> IsHeading(lines[b]))
            && (forall j :: a <= j < b ==> !IsHeading(lines[j]))
  {
    var h := HeadingIndices(lines);
    HeadingIndicesExact(lines);
    SegBounds(h, |lines|, i);
    forall j | SegStart(h, i) <= j < SegEnd(h, |lines|, i)
      ensures !IsHeading(lines[j])
    {
      SegmentAvoidsIndices(h, |lines|, i, j);
    }
  }

  /** Section `i` holds the lines strictly between its heading line (the start
      of the stream for the first section) and the next heading line (the end
      of the stream for the last one): none of them is a heading line, and each
      appears in the text once, in order, followed by one space. */
  lemma {:induction false} SplitSectionsSegment(pages: seq<string>, i: nat)
    requires i < |SplitSections(pages)|
    ensures var lines := AllLines(pages);
            var h := HeadingIndices(lines);
            var a := SegStart(h, i);
            var b := SegEnd(h, |lines|, i);
            && a <= b <= |lines|
            && (i == 0 ==> a == 0 && SplitSections(pages)[i].heading == Introduction)
            && (i > 0 ==> IsHeading(lines[a - 1]) && SplitSections(pages)[i].heading == lines[a - 1])
            && (b < |lines| ==> IsHeading(lines[b]))
            && (forall j :: a <= j < b ==> !IsHeading(lines[j]))
            && SplitSections(pages)[i].text == Spaced(lines[a..b])
  {
    var lines := AllLines(pages);
    var h := HeadingIndices(lines);
    SegmentBetweenHeadings(lines, i);
    var r := SplitSections(pages);
    assert r == Segments(lines);
    assert r[i] == SegmentAt(lines, h, i);
  }

  /** A page made of a heading line and one text line: the leading section
      stays empty and the text goes to the heading's section. */
  lemma HeadingThenText(heading: string, body: string)
    requires IsHeading(heading) && !IsHeading(body)
    requires '\n' !in heading && '\n' !in body
    ensures SplitSections([heading + "\n" + body])
            == [Section(Introduction, ""), Section(heading, body + " ")]
  {
    var page := heading + "\n" + body;
    var lines := [heading, body];
    assert lines[1..] == [body];
    assert JoinLines(lines) == page;
    SplitJoin(lines);
    assert AllLines([page]) == lines by {
      assert [page][1..] == [];
      assert lines + [] == lines;
    }
    assert FeedLines(Start, lines) == Scan([Section(Introduction, "")], Section(heading, body + " ")) by {
      var s1 := Feed(Start, heading);
      assert s1 == Scan([Section(Introduction, "")], Section(heading, ""));
      var s2 := Feed(s1, body);
      assert "" + body + " " == body + " ";
      assert s2 == Scan([Section(Introduction, "")], Section(heading, body + " "));
      assert [body][1..] == [];
      assert FeedLines(s2, []) == s2;
      assert FeedLines(s1, [body]) == s2;
    }
    FeedPagesIsFeedLines(Start, [page]);
  }

  /** A heading pattern that does not start the line opens no section. */
  lemma HeadingMustStartLine()
    ensures !IsHeading("abc 2. Results")
  {
  }

  function Headings(r: seq<Section>): (hs: seq<string>)
    ensures |hs| == |r|
    ensures forall i :: 0 <= i < |r| ==> hs[i] == r[i].heading
  {
    seq(|r|, i requires 0 <= i < |r| => r[i].heading)
  }

  /** The lines that pass the heading test, verbatim and in order. */
  function HeadingLines(lines: seq<string>): seq<string>
    decreases |lines|
  {
    if |lines| == 0 then []
    else if IsHeading(lines[0]) then [lines[0]] + HeadingLines(lines[1..])
    else HeadingLines(lines[1..])
  }

  lemma {:induction false} HeadingLinesSnoc(lines: seq<string>, x: string)
    ensures HeadingLines(lines + [x]) == HeadingLines(lines) + (if IsHeading(x) then [x] else [])
    decreases |lines|
  {
    if |lines| == 0 {
      assert lines + [x] == [x];
      assert [x][1..] == [];
    } else {
      assert (lines + [x])[0] == lines[0];
      assert (lines + [x])[1..] == lines[1..] + [x];
      HeadingLinesSnoc(lines[1..], x);
    }
  }

  lemma {:induction false} HeadingLinesAreIndexed(lines: seq<string>)
    ensures var h := HeadingIndices(lines);
            HeadingLines(lines) == seq(|h|, k requires 0 <= k < |h| => lines[h[k]])
    decreases |lines|
  {
    if |lines| > 0 {
      var init := lines[..|lines| - 1];
      var x := lines[|lines| - 1];
      assert init + [x] == lines;
      HeadingLinesAreIndexed(init);
      HeadingLinesSnoc(init, x);
    }
  }

  /** The headings are `"Introduction"` followed by the heading lines of all
      pages, verbatim and in input order; so there is one section more than
      there are heading lines. */
  lemma {:induction false} SplitSectionsHeadings(pages: seq<string>)
    ensures Headings(SplitSections(pages)) == [Introduction] + HeadingLines(AllLines(pages))
    ensures |SplitSections(pages)| == 1 + |HeadingLines(AllLines(pages))|
  {
    var lines := AllLines(pages);
    HeadingLinesAreIndexed(lines);
    var h := HeadingIndices(lines);
    var r := SplitSections(pages);
    assert forall i :: 1 <= i < |r| ==> r[i].heading == lines[h[i - 1]];
  }

  /** The text of the sections read back in order, each heading followed by a
      space, as the splitter saw the lines. */
  function Render(r: seq<Section>): string
    requires |r| >= 1
    decreases |r|
  {
    if |r| == 1 then r[0].text
    else Render(r[..|r| - 1]) + r[|r| - 1].heading + " " + r[|r| - 1].text
  }

  lemma {:induction false} RenderFeedLines(lines: seq<string>)
    ensures Render(FeedLines(Start, lines).Finish()) == Spaced(lines)
    decreases |lines|
  {
    if |lines| > 0 {
      var init := lines[..|lines| - 1];
      var x := lines[|lines| - 1];
      assert init + [x] == lines;
      FeedLinesAppend(Start, init, [x]);
      assert FeedLines(Feed(FeedLines(Start, init), x), []) == Feed(FeedLines(Start, init), x);
      RenderFeedLines(init);
      var s := FeedLines(Start, init);
      var f := Feed(s, x).Finish();
      if IsHeading(x) {
        assert f[..|f| - 1] == s.Finish();
      } else {
        assert f[..|f| - 1] == s.closed;
        if |s.closed| > 0 {
          assert s.Finish()[..|s.Finish()| - 1] == s.closed;
        }
      }
    }
  }

  /** No line is dropped, trimmed or reordered: reading the sections back gives
      every line of every page, in order, each followed by one space. */
  lemma {:induction false} SplitSectionsKeepsEveryLine(pages: seq<string>)
    ensures Render(SplitSections(pages)) == Spaced(AllLines(pages))
  {
    FeedPagesIsFeedLines(Start, pages);
    RenderFeedLines(AllLines(pages));
  }
}
