/**
 * Locating the redaction anchors among the lines the text recognizer returns
 * for a page. Each line is its text and the polygon around it; the vertical
 * coordinate of an anchor is the least (top) or greatest (bottom) y of the
 * polygon of the line that mentions a marker.
 */
module AnchorLocator {
  import opened Wrappers

  /** A polygon vertex, in the page's document units. */
  datatype Point = Point(x: real, y: real)

  /** One recognized line: its text and its bounding polygon. */
  datatype Line = Line(content: string, polygon: seq<Point>)

  /**
   * The two coordinates one page scan produces (y_1 and y_2 on the first
   * page, y_3 and y_4 on the second); a coordinate no line set is None.
   */
  datatype Anchors = Anchors(bandStart: Option<real>, bandEnd: Option<real>)

  /** `min` or `max` over the polygon of line `line` found it empty and raised. */
  datatype ScanError = EmptyPolygon(line: nat)

  const PartyIdMarker: string := "UGI/Party ID"
  const GcmsMarker: string := "GCMS/S"
  const RequestDateMarker: string := "Request Date"
  const PartyDetailsMarker: string := "PARTY DETAILS"

  /** Python's `sub in s` on strings: sub occurs in s as a contiguous, case-sensitive substring. */
  function Contains(s: string, sub: string): (b: bool)
    ensures b <==> exists i :: OccursAt(s, sub, i)
    decreases |s|
  {
    if |sub| > |s| then false
    else if s[..|sub|] == sub then
      assert OccursAt(s, sub, 0);
      true
    else
      var rest := Contains(s[1..], sub);
      assert forall i :: OccursAt(s[1..], sub, i) ==> OccursAt(s, sub, i + 1) by {
        forall i | OccursAt(s[1..], sub, i) ensures OccursAt(s, sub, i + 1) {
          assert s[i + 1..i + 1 + |sub|] == s[1..][i..i + |sub|];
        }
      }
      assert forall i :: OccursAt(s, sub, i) ==> OccursAt(s[1..], sub, i - 1) by {
        forall i | OccursAt(s, sub, i) ensures OccursAt(s[1..], sub, i - 1) {
          assert i != 0;
          assert s[1..][i - 1..i - 1 + |sub|] == s[i..i + |sub|];
        }
      }
      rest
  }

  /** sub occurs in s starting at offset i. */
  predicate OccursAt(s: string, sub: string, i: int)
  {
    0 <= i && i + |sub| <= |s| && s[i..i + |sub|] == sub
  }

  /** Every character of a contained string occurs in the containing one. */
  lemma ContainsChar(s: string, sub: string, k: nat)
    requires Contains(s, sub) && k < |sub|
    ensures sub[k] in s
  {
    var i :| OccursAt(s, sub, i);
    assert s[i..i + |sub|][k] == s[i + k];
  }

  predicate Mentions(line: Line, marker: string)
  {
    Contains(line.content, marker)
  }

  /** `min(point['y'] for point in polygon)`. */
  function MinY(polygon: seq<Point>): (m: real)
    requires |polygon| > 0
    ensures exists i :: 0 <= i < |polygon| && polygon[i].y == m
    ensures forall i :: 0 <= i < |polygon| ==> m <= polygon[i].y
  {
    if |polygon| == 1 then polygon[0].y
    else
      var rest := MinY(polygon[1..]);
      assert forall i :: 1 <= i < |polygon| ==> polygon[1..][i - 1] == polygon[i];
      if polygon[0].y <= rest then polygon[0].y else rest
  }

  /** `max(point['y'] for point in polygon)`. */
  function MaxY(polygon: seq<Point>): (m: real)
    requires |polygon| > 0
    ensures exists i :: 0 <= i < |polygon| && polygon[i].y == m
    ensures forall i :: 0 <= i < |polygon| ==> polygon[i].y <= m
  {
    if |polygon| == 1 then polygon[0].y
    else
      var rest := MaxY(polygon[1..]);
      assert forall i :: 1 <= i < |polygon| ==> polygon[1..][i - 1] == polygon[i];
      if polygon[0].y >= rest then polygon[0].y else rest
  }

  /** The index of the first line satisfying p, if any. */
  function FirstWhere(lines: seq<Line>, p: Line -> bool): (r: Option<nat>)
    ensures r.Some? ==> r.value < |lines| && p(lines[r.value])
    ensures r.Some? ==> forall j :: 0 <= j < r.value ==> !p(lines[j])
    ensures r.None? ==> forall j :: 0 <= j < |lines| ==> !p(lines[j])
  {
    if |lines| == 0 then None
    else if p(lines[0]) then Some(0)
    else
      match FirstWhere(lines[1..], p)
      case None => None
      case Some(k) => Some(k + 1)
  }

  /** The index of the last line satisfying p, if any. */
  function LastWhere(lines: seq<Line>, p: Line -> bool): (r: Option<nat>)
    ensures r.Some? ==> r.value < |lines| && p(lines[r.value])
    ensures r.Some? ==> forall j :: r.value < j < |lines| ==> !p(lines[j])
    ensures r.None? ==> forall j :: 0 <= j < |lines| ==> !p(lines[j])
  {
    if |lines| == 0 then None
    else if p(lines[|lines| - 1]) then Some(|lines| - 1)
    else LastWhere(lines[..|lines| - 1], p)
  }

  predicate MentionsPartyId(line: Line) { Mentions(line, PartyIdMarker) }
  predicate MentionsGcms(line: Line) { Mentions(line, GcmsMarker) }
  predicate MentionsRequestDate(line: Line) { Mentions(line, RequestDateMarker) }
  predicate MentionsPartyDetails(line: Line) { Mentions(line, PartyDetailsMarker) }

  /** A first-page line whose polygon `min` would be taken, but which has no points. */
  predicate FirstPageFault(line: Line)
  {
    (MentionsPartyId(line) || MentionsGcms(line)) && |line.polygon| == 0
  }

  /** A second-page line whose polygon `max` or `min` would be taken, but which has no points. */
  predicate SecondPageFault(line: Line)
  {
    (MentionsRequestDate(line) || MentionsPartyDetails(line)) && |line.polygon| == 0
  }

  /** The top of the line at index `at`, or None when there is no such line. */
  function TopOf(lines: seq<Line>, at: Option<nat>): Option<real>
    requires at.Some? ==> at.value < |lines| && |lines[at.value].polygon| > 0
  {
    match at
    case None => None
    case Some(i) => Some(MinY(lines[i].polygon))
  }

  /** The bottom of the line at index `at`, or None when there is no such line. */
  function BottomOf(lines: seq<Line>, at: Option<nat>): Option<real>
    requires at.Some? ==> at.value < |lines| && |lines[at.value].polygon| > 0
  {
    match at
    case None => None
    case Some(i) => Some(MaxY(lines[i].polygon))
  }

  /**
   * What the first-page scan computes. Every line is examined, so the LAST
   * line mentioning "UGI/Party ID" gives the band start (its top) and the last
   * line mentioning "GCMS/S" gives the band end (its top). The scan aborts at
   * the first line that mentions either marker but has an empty polygon.
   */
  function FirstPageAnchors(lines: seq<Line>): (r: Result<Anchors, ScanError>)
    ensures r.Failure? ==> r.error.line < |lines| && FirstPageFault(lines[r.error.line])
    ensures r.Failure? ==> forall j :: 0 <= j < r.error.line ==> !FirstPageFault(lines[j])
    ensures r.Success? ==> forall j :: 0 <= j < |lines| ==> !FirstPageFault(lines[j])
  {
    match FirstWhere(lines, FirstPageFault)
    case Some(i) => Failure(EmptyPolygon(i))
    case None =>
      Success(Anchors(TopOf(lines, LastWhere(lines, MentionsPartyId)),
                      TopOf(lines, LastWhere(lines, MentionsGcms))))
  }

  /** The lines the second-page scan examines: up to and including the first "PARTY DETAILS" line. */
  function SecondPageScanned(lines: seq<Line>): (scanned: seq<Line>)
    ensures scanned <= lines
    ensures forall j :: 0 <= j < |scanned| - 1 ==> !MentionsPartyDetails(scanned[j])
    ensures |scanned| < |lines| ==> |scanned| > 0 && MentionsPartyDetails(scanned[|scanned| - 1])
  {
    match FirstWhere(lines, MentionsPartyDetails)
    case None => lines
    case Some(k) => lines[..k + 1]
  }

  /**
   * What the second-page scan computes. It stops after the first line
   * mentioning "PARTY DETAILS", whose top is the band end. The band start is
   * the bottom of the last "Request Date" line among the lines examined,
   * including the stopping line. The scan aborts at the first examined line
   * that mentions either marker but has an empty polygon.
   */
  function SecondPageAnchors(lines: seq<Line>): (r: Result<Anchors, ScanError>)
    ensures r.Failure? ==> r.error.line < |SecondPageScanned(lines)| && SecondPageFault(lines[r.error.line])
    ensures r.Failure? ==> forall j :: 0 <= j < r.error.line ==> !SecondPageFault(lines[j]) && !MentionsPartyDetails(lines[j])
  {
    var stop := FirstWhere(lines, MentionsPartyDetails);
    var scanned := SecondPageScanned(lines);
    match FirstWhere(scanned, SecondPageFault)
    case Some(i) => Failure(EmptyPolygon(i))
    case None =>
      assert forall j :: 0 <= j < |scanned| ==> scanned[j] == lines[j];
      Success(Anchors(BottomOf(lines, LastWhere(scanned, MentionsRequestDate)),
                      TopOf(lines, stop)))
  }

  /** Extending a prefix by one line moves the last match to that line when it matches. */
  lemma LastWhereExtend(lines: seq<Line>, i: nat, p: Line -> bool)
    requires i < |lines|
    ensures LastWhere(lines[..i + 1], p) == if p(lines[i]) then Some(i) else LastWhere(lines[..i], p)
  {
    assert lines[..i + 1][..i] == lines[..i];
  }

  /** A prefix with no line satisfying p stays so when the next line does not satisfy p either. */
  lemma FirstWhereExtendMiss(lines: seq<Line>, i: nat, p: Line -> bool)
    requires i < |lines| && FirstWhere(lines[..i], p) == None && !p(lines[i])
    ensures FirstWhere(lines[..i + 1], p) == None
  {
    assert forall j :: 0 <= j < i ==> lines[..i][j] == lines[j];
    assert forall j :: 0 <= j <= i ==> lines[..i + 1][j] == lines[j];
  }

  /** The first line satisfying p after a prefix without one is the first in the whole sequence. */
  lemma FirstWhereHit(lines: seq<Line>, i: nat, p: Line -> bool)
    requires i < |lines| && FirstWhere(lines[..i], p) == None && p(lines[i])
    ensures FirstWhere(lines, p) == Some(i)
  {
    assert forall j :: 0 <= j < i ==> lines[..i][j] == lines[j];
  }

  /** The first-page loop over the recognized lines (y_1 and y_2). */
  method ScanFirstPage(lines: seq<Line>) returns (r: Result<Anchors, ScanError>)
    ensures r == FirstPageAnchors(lines)
  {
    var y1: Option<real> := None;
    var y2: Option<real> := None;
    for i := 0 to |lines|
      invariant FirstWhere(lines[..i], FirstPageFault) == None
      invariant y1 == TopOf(lines, LastWhere(lines[..i], MentionsPartyId))
      invariant y2 == TopOf(lines, LastWhere(lines[..i], MentionsGcms))
    {
      var line := lines[i];
      LastWhereExtend(lines, i, MentionsPartyId);
      LastWhereExtend(lines, i, MentionsGcms);
      if MentionsPartyId(line) {
        if |line.polygon| == 0 {
          FirstWhereHit(lines, i, FirstPageFault);
          return Failure(EmptyPolygon(i));
        }
        y1 := Some(MinY(line.polygon));
      }
      if MentionsGcms(line) {
        if |line.polygon| == 0 {
          FirstWhereHit(lines, i, FirstPageFault);
          return Failure(EmptyPolygon(i));
        }
        y2 := Some(MinY(line.polygon));
      }
      FirstWhereExtendMiss(lines, i, FirstPageFault);
    }
    assert lines[..|lines|] == lines;
    r := Success(Anchors(y1, y2));
  }

  /** With no "PARTY DETAILS" line before index i, the second-page scan examines line i. */
  lemma SecondPageReaches(lines: seq<Line>, i: nat)
    requires i < |lines| && FirstWhere(lines[..i], MentionsPartyDetails) == None
    ensures i < |SecondPageScanned(lines)|
    ensures MentionsPartyDetails(lines[i]) ==> SecondPageScanned(lines) == lines[..i + 1]
  {
    assert forall j :: 0 <= j < i ==> lines[..i][j] == lines[j];
    if MentionsPartyDetails(lines[i]) {
      FirstWhereHit(lines, i, MentionsPartyDetails);
    }
  }

  /** A faulty line reached by the second-page scan is where it aborts. */
  lemma SecondPageFaultAt(lines: seq<Line>, i: nat)
    requires i < |lines| && SecondPageFault(lines[i])
    requires FirstWhere(lines[..i], MentionsPartyDetails) == None
    requires FirstWhere(lines[..i], SecondPageFault) == None
    ensures SecondPageAnchors(lines) == Failure(EmptyPolygon(i))
  {
    SecondPageReaches(lines, i);
    var scanned := SecondPageScanned(lines);
    assert scanned[..i] == lines[..i];
    FirstWhereHit(scanned, i, SecondPageFault);
  }

  /** A sound "PARTY DETAILS" line reached by the scan ends it with both values known to this point. */
  lemma SecondPageStopAt(lines: seq<Line>, i: nat)
    requires i < |lines| && MentionsPartyDetails(lines[i]) && |lines[i].polygon| > 0
    requires FirstWhere(lines[..i], MentionsPartyDetails) == None
    requires FirstWhere(lines[..i + 1], SecondPageFault) == None
    ensures SecondPageAnchors(lines)
         == Success(Anchors(BottomOf(lines, LastWhere(lines[..i + 1], MentionsRequestDate)), Some(MinY(lines[i].polygon))))
  {
    SecondPageReaches(lines, i);
    FirstWhereHit(lines, i, MentionsPartyDetails);
  }

  /** Without any "PARTY DETAILS" line the scan runs to the end and leaves the band end unset. */
  lemma SecondPageRunsOut(lines: seq<Line>)
    requires FirstWhere(lines, MentionsPartyDetails) == None
    requires FirstWhere(lines, SecondPageFault) == None
    ensures SecondPageAnchors(lines) == Success(Anchors(BottomOf(lines, LastWhere(lines, MentionsRequestDate)), None))
  {
  }

  /** The second-page loop (y_3 and y_4), which stops at the first "PARTY DETAILS" line. */
  method ScanSecondPage(lines: seq<Line>) returns (r: Result<Anchors, ScanError>)
    ensures r == SecondPageAnchors(lines)
  {
    var y3: Option<real> := None;
    var y4: Option<real> := None;
    var i := 0;
    while i < |lines|
      invariant 0 <= i <= |lines| && y4 == None
      invariant FirstWhere(lines[..i], MentionsPartyDetails) == None
      invariant FirstWhere(lines[..i], SecondPageFault) == None
      invariant y3 == BottomOf(lines, LastWhere(lines[..i], MentionsRequestDate))
    {
      var line := lines[i];
      LastWhereExtend(lines, i, MentionsRequestDate);
      if MentionsRequestDate(line) {
        if |line.polygon| == 0 {
          SecondPageFaultAt(lines, i);
          return Failure(EmptyPolygon(i));
        }
        y3 := Some(MaxY(line.polygon));
      }
      if MentionsPartyDetails(line) {
        if |line.polygon| == 0 {
          SecondPageFaultAt(lines, i);
          return Failure(EmptyPolygon(i));
        }
        y4 := Some(MinY(line.polygon));
        FirstWhereExtendMiss(lines, i, SecondPageFault);
        SecondPageStopAt(lines, i);
        break;
      }
      FirstWhereExtendMiss(lines, i, SecondPageFault);
      FirstWhereExtendMiss(lines, i, MentionsPartyDetails);
      i := i + 1;
    }
    if y4 == None {
      assert lines[..i] == lines;
      SecondPageRunsOut(lines);
    }
    r := Success(Anchors(y3, y4));
  }

  /**
   * First page: the band start is the top of the LAST line mentioning
   * "UGI/Party ID", and the band end the top of the last line mentioning
   * "GCMS/S", however many earlier lines mention them too.
   */
  lemma FirstPageLastMatchWins(lines: seq<Line>, i: nat, marker: string)
    requires FirstPageAnchors(lines).Success?
    requires marker == PartyIdMarker || marker == GcmsMarker
    requires i < |lines| && Mentions(lines[i], marker)
    requires forall j :: i < j < |lines| ==> !Mentions(lines[j], marker)
    ensures |lines[i].polygon| > 0
    ensures var a := FirstPageAnchors(lines).value;
            (if marker == PartyIdMarker then a.bandStart else a.bandEnd) == Some(MinY(lines[i].polygon))
  {
    assert !FirstPageFault(lines[i]);
  }

  /** First page: a value stays unset exactly when no line mentions its marker. */
  lemma FirstPageUnset(lines: seq<Line>)
    requires FirstPageAnchors(lines).Success?
    ensures FirstPageAnchors(lines).value.bandStart.None? <==> forall j :: 0 <= j < |lines| ==> !Mentions(lines[j], PartyIdMarker)
    ensures FirstPageAnchors(lines).value.bandEnd.None? <==> forall j :: 0 <= j < |lines| ==> !Mentions(lines[j], GcmsMarker)
  {
    var start, end := LastWhere(lines, MentionsPartyId), LastWhere(lines, MentionsGcms);
    if start.Some? {
      assert MentionsPartyId(lines[start.value]);
    }
    if end.Some? {
      assert MentionsGcms(lines[end.value]);
    }
  }

  /** First page: one line can be the last to mention both markers and then sets both values alike. */
  lemma FirstPageOneLineSetsBoth(lines: seq<Line>, i: nat)
    requires FirstPageAnchors(lines).Success?
    requires i < |lines| && Mentions(lines[i], PartyIdMarker) && Mentions(lines[i], GcmsMarker)
    requires forall j :: i < j < |lines| ==> !Mentions(lines[j], PartyIdMarker) && !Mentions(lines[j], GcmsMarker)
    ensures FirstPageAnchors(lines).value.bandStart == FirstPageAnchors(lines).value.bandEnd == Some(MinY(lines[i].polygon))
  {
    FirstPageLastMatchWins(lines, i, PartyIdMarker);
    FirstPageLastMatchWins(lines, i, GcmsMarker);
  }

  /** First page: the scan aborts exactly when some line mentioning a marker has an empty polygon. */
  lemma FirstPageFails(lines: seq<Line>)
    ensures FirstPageAnchors(lines).Failure? <==> exists j :: 0 <= j < |lines| && FirstPageFault(lines[j])
  {
    if j :| 0 <= j < |lines| && FirstPageFault(lines[j]) {
      assert FirstWhere(lines, FirstPageFault).Some?;
    }
  }

  /** Appending lines after a line that satisfies p leaves the first such line where it was. */
  lemma FirstWhereAppend(lines: seq<Line>, rest: seq<Line>, p: Line -> bool)
    requires FirstWhere(lines, p).Some?
    ensures FirstWhere(lines + rest, p) == FirstWhere(lines, p)
  {
    var k := FirstWhere(lines, p).value;
    assert (lines + rest)[..k] == lines[..k];
    assert (lines + rest)[k] == lines[k];
    FirstWhereHit(lines + rest, k, p);
    assert forall j :: 0 <= j < k ==> lines[..k][j] == lines[j];
  }

  /**
   * Second page: once a "PARTY DETAILS" line occurs, the lines after it never
   * change the outcome of the scan.
   */
  lemma SecondPageIgnoresTail(lines: seq<Line>, rest: seq<Line>)
    requires exists k :: 0 <= k < |lines| && MentionsPartyDetails(lines[k])
    ensures SecondPageAnchors(lines + rest) == SecondPageAnchors(lines)
  {
    var k :| 0 <= k < |lines| && MentionsPartyDetails(lines[k]);
    assert FirstWhere(lines, MentionsPartyDetails).Some?;
    FirstWhereAppend(lines, rest, MentionsPartyDetails);
    var stop := FirstWhere(lines, MentionsPartyDetails).value;
    assert (lines + rest)[..stop + 1] == lines[..stop + 1];
    assert SecondPageScanned(lines + rest) == SecondPageScanned(lines);
    var scanned := SecondPageScanned(lines);
    if FirstWhere(scanned, SecondPageFault).None? {
      assert forall j :: 0 <= j < |lines| ==> (lines + rest)[j] == lines[j];
    }
  }

  /**
   * Second page: the band end is the top of the first "PARTY DETAILS" line,
   * and unset exactly when no line mentions it.
   */
  lemma SecondPageEnd(lines: seq<Line>)
    requires SecondPageAnchors(lines).Success?
    ensures SecondPageAnchors(lines).value.bandEnd.None? <==> forall j :: 0 <= j < |lines| ==> !Mentions(lines[j], PartyDetailsMarker)
    ensures SecondPageAnchors(lines).value.bandEnd.Some? ==>
              var k := FirstWhere(lines, MentionsPartyDetails).value;
              |lines[k].polygon| > 0 && SecondPageAnchors(lines).value.bandEnd == Some(MinY(lines[k].polygon))
  {
    var r := FirstWhere(lines, MentionsPartyDetails);
    if r.Some? {
      assert MentionsPartyDetails(lines[r.value]);
      var scanned := SecondPageScanned(lines);
      assert scanned[r.value] == lines[r.value];
      assert !SecondPageFault(scanned[r.value]);
    }
  }

  /**
   * Second page: the stopping line is tested for "Request Date" before the
   * scan stops, so when it mentions both markers it sets both values.
   */
  lemma SecondPageStopLineCounts(lines: seq<Line>, k: nat)
    requires SecondPageAnchors(lines).Success?
    requires k < |lines| && Mentions(lines[k], PartyDetailsMarker) && Mentions(lines[k], RequestDateMarker)
    requires forall j :: 0 <= j < k ==> !Mentions(lines[j], PartyDetailsMarker)
    ensures |lines[k].polygon| > 0
    ensures SecondPageAnchors(lines).value == Anchors(Some(MaxY(lines[k].polygon)), Some(MinY(lines[k].polygon)))
  {
    assert MentionsPartyDetails(lines[k]);
    FirstWhereHit(lines, k, MentionsPartyDetails);
    var scanned := SecondPageScanned(lines);
    assert scanned == lines[..k + 1];
    assert scanned[k] == lines[k] && !SecondPageFault(scanned[k]);
    assert LastWhere(scanned, MentionsRequestDate) == Some(k) by {
      assert MentionsRequestDate(scanned[k]);
    }
  }

  /** A first page of two lines, each mentioning just one marker, takes each value from its own line. */
  lemma FirstPageTwoLines(ugi: Line, gcms: Line)
    requires Mentions(ugi, PartyIdMarker) && !Mentions(ugi, GcmsMarker) && |ugi.polygon| > 0
    requires Mentions(gcms, GcmsMarker) && !Mentions(gcms, PartyIdMarker) && |gcms.polygon| > 0
    ensures FirstPageAnchors([ugi, gcms]) == Success(Anchors(Some(MinY(ugi.polygon)), Some(MinY(gcms.polygon))))
  {
    FirstPageFails([ugi, gcms]);
    FirstPageLastMatchWins([ugi, gcms], 0, PartyIdMarker);
    FirstPageLastMatchWins([ugi, gcms], 1, GcmsMarker);
  }
}
