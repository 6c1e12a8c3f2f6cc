/**
 * A worked example of the first-page redaction: two recognized lines, the
 * anchors they give and the rows that get painted.
 */
module WorkedExample {
  import opened Wrappers
  import opened Coordinates
  import opened Raster
  import opened AnchorLocator
  import opened Pipeline

  /**
   * A worked first page: "UGI/Party ID: 123" at y 100 to 120 above
   * "GCMS/S: X" at y 300 to 320, in document units.
   */
  const WorkedPage: seq<Line> := [
    Line("UGI/Party ID: 123", [Point(0.0, 100.0), Point(50.0, 100.0), Point(50.0, 120.0), Point(0.0, 120.0)]),
    Line("GCMS/S: X", [Point(0.0, 300.0), Point(50.0, 300.0), Point(50.0, 320.0), Point(0.0, 320.0)])]

  lemma UgiLineMentions()
    ensures Contains("UGI/Party ID: 123", PartyIdMarker)
  {
    assert OccursAt("UGI/Party ID: 123", PartyIdMarker, 0);
  }

  lemma UgiLineLacksGcms()
    ensures !Contains("UGI/Party ID: 123", GcmsMarker)
  {
    // "GCMS/S" has a 'C', which "UGI/Party ID: 123" lacks.
    assert GcmsMarker[1] == 'C';
    assert 'C' !in "UGI/Party ID: 123";
    if Contains("UGI/Party ID: 123", GcmsMarker) {
      ContainsChar("UGI/Party ID: 123", GcmsMarker, 1);
    }
  }

  lemma GcmsLineMentions()
    ensures Contains("GCMS/S: X", GcmsMarker)
  {
    assert OccursAt("GCMS/S: X", GcmsMarker, 0);
  }

  /** Each worked line mentions its own marker and not the other one. */
  lemma WorkedPageMentions()
    ensures Mentions(WorkedPage[0], PartyIdMarker) && !Mentions(WorkedPage[0], GcmsMarker)
    ensures Mentions(WorkedPage[1], GcmsMarker) && !Mentions(WorkedPage[1], PartyIdMarker)
  {
    UgiLineMentions();
    UgiLineLacksGcms();
    GcmsLineMentions();
  }

  /** The tops of the two worked lines. */
  lemma WorkedPageTops()
    ensures MinY(WorkedPage[0].polygon) == 100.0 && MinY(WorkedPage[1].polygon) == 300.0
  {
  }

  /** On the worked page the band runs from the top of the first line to the top of the second. */
  lemma WorkedPageAnchors()
    ensures FirstPageAnchors(WorkedPage) == Success(Anchors(Some(100.0), Some(300.0)))
  {
    WorkedPageMentions();
    WorkedPageTops();
    assert WorkedPage == [WorkedPage[0], WorkedPage[1]];
    FirstPageTwoLines(WorkedPage[0], WorkedPage[1]);
  }

  /**
   * Rendered 1000 pixels high from a page 500 units high, that band maps to
   * rows 200 and 600 and paints rows 200 to 600, both included.
   */
  lemma WorkedPageRows()
    ensures PixelRows(Span(100.0, 300.0), 1000, 500.0) == (200, 600)
    ensures forall y :: RowFilled(1000, 200, 600, y) <==> 200 <= y <= 600
  {
    RoundInteger(200);
    RoundInteger(600);
    YToPxUnfold(100.0, 1000, Some(500.0));
    YToPxUnfold(300.0, 1000, Some(500.0));
  }
}
