/**
 * The redaction steps of the script that tie the pieces together: scan the
 * two fixed pages for their anchors, fail if an anchor was never found, map
 * the anchors to pixel rows and paint the two bands black.
 */
module Pipeline {
  import opened Wrappers
  import opened Coordinates
  import opened Raster
  import opened AnchorLocator

  /** Zero-based index of the page that holds "UGI/Party ID" and "GCMS/S". */
  const UgiPage: nat := 2
  /** Zero-based index of the page that holds "Request Date" and "PARTY DETAILS". */
  const PartyPage: nat := 3

  /**
   * Why the run stops: `min`/`max` raised while scanning a page, or a
   * coordinate variable (y_1 .. y_4) was read without ever being assigned.
   */
  datatype PipelineError = ScanFailed(page: nat, error: ScanError) | Unassigned(name: string)

  /** A vertical band in document units, from its start coordinate to its end coordinate. */
  datatype Span = Span(start: real, end: real)

  /** The value of a coordinate variable, or the error of reading it unassigned. */
  function Read(v: Option<real>, name: string): (r: Result<real, PipelineError>)
    ensures r.Success? <==> v.Some?
    ensures r.Success? ==> r.value == v.value
    ensures r.Failure? ==> r.error == Unassigned(name)
  {
    match v
    case Some(x) => Success(x)
    case None => Failure(Unassigned(name))
  }

  /**
   * Both bands in document units, failing as the script does: first the
   * first-page scan, then the second-page scan, then y_1, y_2, y_3, y_4
   * in the order they are printed.
   */
  function LocateBands(first: seq<Line>, second: seq<Line>): (r: Result<(Span, Span), PipelineError>)
    ensures FirstPageAnchors(first).Failure? ==> r == Failure(ScanFailed(UgiPage, FirstPageAnchors(first).error))
    ensures FirstPageAnchors(first).Success? && SecondPageAnchors(second).Failure? ==>
              r == Failure(ScanFailed(PartyPage, SecondPageAnchors(second).error))
    ensures FirstPageAnchors(first).Success? && SecondPageAnchors(second).Success? ==>
              var a := FirstPageAnchors(first).value;
              var b := SecondPageAnchors(second).value;
              && (a.bandStart.None? ==> r == Failure(Unassigned("y_1")))
              && (a.bandStart.Some? && a.bandEnd.None? ==> r == Failure(Unassigned("y_2")))
              && (a.bandStart.Some? && a.bandEnd.Some? && b.bandStart.None? ==> r == Failure(Unassigned("y_3")))
              && (a.bandStart.Some? && a.bandEnd.Some? && b.bandStart.Some? && b.bandEnd.None? ==>
                    r == Failure(Unassigned("y_4")))
    ensures r.Success? ==>
              && FirstPageAnchors(first) == Success(Anchors(Some(r.value.0.start), Some(r.value.0.end)))
              && SecondPageAnchors(second) == Success(Anchors(Some(r.value.1.start), Some(r.value.1.end)))
  {
    match FirstPageAnchors(first)
    case Failure(e) => Failure(ScanFailed(UgiPage, e))
    case Success(a) =>
      match SecondPageAnchors(second)
      case Failure(e) => Failure(ScanFailed(PartyPage, e))
      case Success(b) =>
        match Read(a.bandStart, "y_1")
        case Failure(e) => Failure(e)
        case Success(y1) =>
          match Read(a.bandEnd, "y_2")
          case Failure(e) => Failure(e)
          case Success(y2) =>
            match Read(b.bandStart, "y_3")
            case Failure(e) => Failure(e)
            case Success(y3) =>
              match Read(b.bandEnd, "y_4")
              case Failure(e) => Failure(e)
              case Success(y4) => Success((Span(y1, y2), Span(y3, y4)))
  }

  /**
   * The bands are found exactly when neither scan meets an empty polygon, the
   * first page mentions both of its markers, the second page mentions
   * "PARTY DETAILS", and "Request Date" occurs on that line or an earlier one.
   */
  lemma LocateBandsSucceeds(first: seq<Line>, second: seq<Line>)
    ensures LocateBands(first, second).Success? <==>
              && (forall j :: 0 <= j < |first| ==> !FirstPageFault(first[j]))
              && SecondPageAnchors(second).Success?
              && (exists j :: 0 <= j < |first| && Mentions(first[j], PartyIdMarker))
              && (exists j :: 0 <= j < |first| && Mentions(first[j], GcmsMarker))
              && (exists j :: 0 <= j < |second| && Mentions(second[j], PartyDetailsMarker))
              && (exists j :: 0 <= j < |SecondPageScanned(second)| && Mentions(second[j], RequestDateMarker))
  {
    FirstPageFails(first);
    if FirstPageAnchors(first).Success? {
      FirstPageUnset(first);
    }
    if SecondPageAnchors(second).Success? {
      SecondPageEnd(second);
      var scanned := SecondPageScanned(second);
      var r := LastWhere(scanned, MentionsRequestDate);
      if r.Some? {
        assert MentionsRequestDate(scanned[r.value]);
      }
      if j :| 0 <= j < |scanned| && Mentions(second[j], RequestDateMarker) {
        assert MentionsRequestDate(scanned[j]);
      }
    }
  }

  /** The pixel rows of a span on an image of this height, for a page the recognizer says is ocrHeight high. */
  function PixelRows(span: Span, imageHeight: nat, ocrHeight: real): (rows: (int, int))
    ensures -0.5 <= rows.0 as real - span.start * Scale(imageHeight, Some(ocrHeight)) <= 0.5
    ensures -0.5 <= rows.1 as real - span.end * Scale(imageHeight, Some(ocrHeight)) <= 0.5
  {
    (YToPx(span.start, imageHeight, Some(ocrHeight)), YToPx(span.end, imageHeight, Some(ocrHeight)))
  }

  /**
   * A span on the page maps to rows of the image in the same order, so the
   * band it gives is never clamped away by the image edges.
   */
  lemma PixelRowsOnImage(span: Span, imageHeight: nat, ocrHeight: real)
    requires ocrHeight > 0.0 && 0.0 <= span.start <= ocrHeight && 0.0 <= span.end <= ocrHeight
    ensures var rows := PixelRows(span, imageHeight, ocrHeight);
            && 0 <= rows.0 <= imageHeight && 0 <= rows.1 <= imageHeight
            && (span.start <= span.end ==> rows.0 <= rows.1)
            && ClampBand(imageHeight, rows.0, rows.1) == Band(Min(rows.0, rows.1), Max(rows.0, rows.1))
  {
    YToPxOnPage(span.start, imageHeight, ocrHeight);
    YToPxOnPage(span.end, imageHeight, ocrHeight);
    if span.start <= span.end {
      YToPxMonotone(span.start, span.end, imageHeight, Some(ocrHeight));
    }
  }

  /** Map one page's span to pixel rows and redact that band in black. */
  method RedactPage(img: Image, span: Span, ocrHeight: real)
    requires img.Valid()
    modifies img.pixels
    ensures var rows := PixelRows(span, img.height, ocrHeight);
            img.pixels[..] == Redacted(old(img.pixels[..]), img.width, img.height, rows.0, rows.1, Black)
  {
    var y0 := YToPx(span.start, img.height, Some(ocrHeight));
    var y1 := YToPx(span.end, img.height, Some(ocrHeight));
    img.RedactBand(y0, y1, Black);
  }

  /**
   * Find both bands, then redact the first on the UGI page image and the
   * second on the PARTY page image. On an error neither image is touched.
   */
  method RedactDocument(first: seq<Line>, second: seq<Line>,
                        ugiImage: Image, ugiOcrHeight: real,
                        partyImage: Image, partyOcrHeight: real)
    returns (r: Result<(Span, Span), PipelineError>)
    requires ugiImage.Valid() && partyImage.Valid() && ugiImage.pixels != partyImage.pixels
    modifies ugiImage.pixels, partyImage.pixels
    ensures r == LocateBands(first, second)
    ensures r.Failure? ==> ugiImage.pixels[..] == old(ugiImage.pixels[..]) && partyImage.pixels[..] == old(partyImage.pixels[..])
    ensures r.Success? ==>
              var ugiRows := PixelRows(r.value.0, ugiImage.height, ugiOcrHeight);
              var partyRows := PixelRows(r.value.1, partyImage.height, partyOcrHeight);
              && ugiImage.pixels[..] == Redacted(old(ugiImage.pixels[..]), ugiImage.width, ugiImage.height, ugiRows.0, ugiRows.1, Black)
              && partyImage.pixels[..] == Redacted(old(partyImage.pixels[..]), partyImage.width, partyImage.height, partyRows.0, partyRows.1, Black)
  {
    var a := ScanFirstPage(first);
    if a.Failure? {
      return Failure(ScanFailed(UgiPage, a.error));
    }
    var b := ScanSecondPage(second);
    if b.Failure? {
      return Failure(ScanFailed(PartyPage, b.error));
    }
    var y1, y2, y3, y4 := a.value.bandStart, a.value.bandEnd, b.value.bandStart, b.value.bandEnd;
    if y1.None? {
      return Failure(Unassigned("y_1"));
    }
    if y2.None? {
      return Failure(Unassigned("y_2"));
    }
    if y3.None? {
      return Failure(Unassigned("y_3"));
    }
    if y4.None? {
      return Failure(Unassigned("y_4"));
    }
    r := Success((Span(y1.value, y2.value), Span(y3.value, y4.value)));
    RedactPage(ugiImage, r.value.0, ugiOcrHeight);
    RedactPage(partyImage, r.value.1, partyOcrHeight);
  }
}
