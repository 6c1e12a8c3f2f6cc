# Verified model of the band-redaction script

The script renders a PDF to page images and sends each image to a text recognizer. It then finds two pairs of text anchors on two fixed pages and paints a full-width black band between each pair. This project models the deterministic part of that pipeline in Dafny and proves properties of it:

- **Anchor location** (`AnchorLocator`). Each recognized line is a text plus a polygon of points with a `y`. The scan of the first page (index 2) runs over every line. The *last* line mentioning `UGI/Party ID` sets the band start to that line's least `y`. The last line mentioning `GCMS/S` sets the band end the same way. The scan of the second page (index 3) stops at the first line mentioning `PARTY DETAILS`, whose least `y` is the band end. Its band start is the greatest `y` of the last `Request Date` line up to and including that stopping line. Both scans are `while`/`for` loops over optional variables (`ScanFirstPage`, `ScanSecondPage`). Each is proved equal to a declarative definition built from "first line where" and "last line where" (`FirstPageAnchors`, `SecondPageAnchors`).
- **Coordinate mapping** (`Coordinates`). `y_to_px` multiplies by `image height / OCR page height` when that height is present and positive, and by 1.0 otherwise. It then rounds half to even, as Python's `round` does.
- **Band redaction** (`Raster`). The image is a class holding a row-major `array` of RGB pixels, painted in place. `redact_band` orders the two rows, clamps the low one at 0 and the high one at the height, and does nothing when the band is then empty. Otherwise it paints every column of the band's rows.
- **Glue** (`Pipeline`). The two scans run in the script's order. A coordinate that was never assigned is an explicit error, where Python raises a `NameError`. The bands are mapped to pixel rows and both pages are redacted (`RedactDocument`).

Row convention: the drawn rectangle includes both of its end rows, as the drawing library's `rectangle` does (sample.py:135). So a clamped band `(y0, y1)` with `y0 < y1` paints rows `y0` to `y1` inclusive. When `y1` is the image height, the last row painted is `height - 1`. For a band from 100 to 300 units on a page 500 units high rendered 1000 pixels high, rows 200 to 600 are painted, both included (`WorkedExample.WorkedPageRows`).

Anchor choice (sample.py:91-106):
- The first-page loop never breaks, so for each marker the last matching line wins.
- On the second page the first `PARTY DETAILS` line ends the scan. The start is taken from the last `Request Date` line up to and including that stopping line.
- Taking `min`/`max` over an empty polygon raises in Python. The model returns `Failure(EmptyPolygon(i))` for the first line where that happens.

## Model

| member | source | states |
|---|---|---|
| Coordinates.RoundHalfEven | sample.py:126 | the result is within one half of the value, and an exact tie goes to the even integer |
| Coordinates.RoundNearest | sample.py:126 | any integer strictly closer than one half to the value is the rounded result |
| Coordinates.RoundInteger | sample.py:126 | rounding an integral value returns that integer |
| Coordinates.RoundMonotone | sample.py:126 | rounding preserves order |
| Coordinates.Scale | sample.py:125 | with a present, positive OCR height the scale times that height is the image height; otherwise the scale is exactly 1.0 |
| Coordinates.YToPx | sample.py:124-126 | the pixel row is within one half of `y * scale`; with `YToPxUnscaled`, `YToPxMonotone` and `YToPxOnPage` it is characterised further |
| Coordinates.YToPxUnscaled | sample.py:125-126 | with the OCR height missing, zero or negative, the row is `y` rounded, so document units are taken as pixels |
| Coordinates.YToPxMonotone | sample.py:124-126 | mapping preserves the order of coordinates |
| Coordinates.YToPxOnPage | sample.py:124-126 | a coordinate between 0 and the OCR page height maps to a row between 0 and the image height |
| Raster.ClampBand | sample.py:130-131 | `0 <= y0`, `y1 <= height`, `y0 = max(0, min(a, b))`, `y1 = min(height, max(a, b))`; the band is non-empty iff the height is positive, `a != b`, one of them is above 0 and one is below the height |
| Raster.FilledRows | sample.py:132-135 | the rows painted form the half-open range it returns, and a row is in it iff it exists and lies in the clamped band (both ends included) |
| Raster.RowFilled | sample.py:130-135 | a painted row exists in the image and lies between the two requested rows, both included; `FilledRows` gives the exact set |
| Raster.FillRange | sample.py:135 | the buffer keeps its length; indices in the range take the colour and the others keep their value |
| Raster.Redacted | sample.py:129-136 | the redacted buffer has the image's size and a pixel that changes takes the fill colour; `RedactedPixel` says exactly which pixels change |
| Raster.RedactedPixel | sample.py:129-136 | after redaction a pixel in a painted row has the fill colour and every other pixel is unchanged |
| Raster.RedactedSymmetric | sample.py:130-131 | swapping the two row arguments gives the same clamped band and the same image |
| Raster.RedactedEmptyBand | sample.py:132-133 | when `y1 <= y0` after clamping the image is returned pixel for pixel |
| Raster.RedactedNoOpCases | sample.py:132-133 | both rows `<= 0`, both rows `>= height`, or the same row twice: the image is unchanged |
| Raster.RedactedIdempotent | sample.py:129-136 | redacting the same band twice gives the image redacting it once gives |
| Raster.Image.constructor | sample.py:142 | an opened RGB page image of the given size holds exactly the decoded pixels it is given |
| Raster.Image.RedactBand | sample.py:129-136 | the new buffer is the redaction of the old one; pixel by pixel, painted rows take the colour and all other pixels keep their old value; only the pixel buffer changes |
| Raster.Image.FillRows | sample.py:134-135 | the full-width rows `[first, stop)` take the colour and the rest of the buffer is unchanged |
| AnchorLocator.Contains | sample.py:92 | Python's `in` on strings: the test holds iff the marker occurs at some offset of the line's text |
| AnchorLocator.ContainsChar | sample.py:92 | every character of a contained marker occurs in the text |
| AnchorLocator.MinY | sample.py:93 | the result is the `y` of some polygon point and no point has a smaller `y` |
| AnchorLocator.MaxY | sample.py:101 | the result is the `y` of some polygon point and no point has a larger `y` |
| AnchorLocator.FirstWhere | sample.py:103-106 | the index found satisfies the test and no earlier line does; None iff no line does |
| AnchorLocator.LastWhere | sample.py:91-97 | the index found satisfies the test and no later line does; None iff no line does |
| AnchorLocator.SecondPageScanned | sample.py:99-106 | the lines examined are a prefix; none before its last line mentions `PARTY DETAILS`; when shorter than the page its last line does |
| AnchorLocator.FirstPageAnchors | sample.py:91-97 | the declarative first-page result: a failure names the first line that mentions a marker but has an empty polygon, and success means no line is such a fault; `FirstPageLastMatchWins`, `FirstPageUnset` and `FirstPageFails` give its values |
| AnchorLocator.SecondPageAnchors | sample.py:99-106 | the declarative second-page result: a failure names a line among those scanned that mentions a marker with an empty polygon, with no earlier fault and no earlier `PARTY DETAILS` line; `SecondPageStopAt`, `SecondPageRunsOut` and `SecondPageEnd` give its values |
| AnchorLocator.ScanFirstPage | sample.py:91-97 | the loop's result equals `FirstPageAnchors`: it fails at the first line that mentions a marker but has an empty polygon; otherwise each value is the top of the last line mentioning its marker, or unset |
| AnchorLocator.ScanSecondPage | sample.py:99-106 | the loop with its early stop equals `SecondPageAnchors`. Over the lines up to the first `PARTY DETAILS` line, it fails at the first line that mentions a marker but has an empty polygon. Otherwise the start is the bottom of the last `Request Date` line examined, and the end is the top of the stopping line, or unset |
| AnchorLocator.FirstPageLastMatchWins | sample.py:91-97 | when the scan succeeds, the last line mentioning a marker sets its value, to that line's least `y` |
| AnchorLocator.FirstPageUnset | sample.py:91-97 | a first-page value is unset iff no line mentions its marker |
| AnchorLocator.FirstPageOneLineSetsBoth | sample.py:91-97 | one line that is last to mention both markers sets both values to the same top |
| AnchorLocator.FirstPageTwoLines | sample.py:91-97 | a two-line page takes its start from the first line and its end from the second |
| AnchorLocator.FirstPageFails | sample.py:93-96 | the first-page scan fails iff some line mentioning a marker has an empty polygon |
| AnchorLocator.SecondPageFaultAt | sample.py:100-105 | a reached line mentioning a marker with an empty polygon is where the second-page scan fails |
| AnchorLocator.SecondPageStopAt | sample.py:103-106 | a reached `PARTY DETAILS` line ends the scan; its top is the end, and the start is the last `Request Date` bottom up to it |
| AnchorLocator.SecondPageRunsOut | sample.py:99-106 | a page with no `PARTY DETAILS` line and no faulty marked line is scanned to its end: the end is unset and the start is the bottom of the last `Request Date` line, or unset when there is none |
| AnchorLocator.SecondPageIgnoresTail | sample.py:103-106 | once the page holds a `PARTY DETAILS` line, appended lines never change the result |
| AnchorLocator.SecondPageEnd | sample.py:103-106 | the band end is unset iff no line mentions `PARTY DETAILS`, and otherwise it is the top of the first such line |
| AnchorLocator.SecondPageStopLineCounts | sample.py:100-106 | the stopping line is still tested for `Request Date`, so if it mentions both markers it sets both values |
| Pipeline.Read | sample.py:111-114 | reading a coordinate succeeds iff it was assigned, and otherwise fails naming the variable |
| Pipeline.LocateBands | sample.py:90-114 | a first-page scan failure is reported first, then a second-page one; after two successful scans the first unset of `y_1`, `y_2`, `y_3`, `y_4`, in that order, fails as `Unassigned` naming it, as the script's `NameError` does; on success the two spans are exactly the anchors both scans found |
| Pipeline.LocateBandsSucceeds | sample.py:90-114 | both bands are found iff the first page has no faulty marked line and mentions both markers, the second-page scan succeeds, `PARTY DETAILS` occurs, and `Request Date` occurs at or before it |
| Pipeline.PixelRows | sample.py:147-148 | each end of the span maps to the row within one half of it times the page's scale, as `y_to_px` does for both ends |
| Pipeline.PixelRowsOnImage | sample.py:146-148 | coordinates on the page map to rows inside the image, in order, so clamping only orders them |
| Pipeline.RedactPage | sample.py:146-149 | the page image becomes its redaction over the mapped rows, in black |
| Pipeline.RedactDocument | sample.py:90-155 | the result is the located bands or the first error in the script's order; on error no image changes; on success each page is redacted over its mapped band |
| WorkedExample.WorkedPageAnchors | sample.py:91-97 | the two-line worked page gives start 100 and end 300 |
| WorkedExample.WorkedPageRows | sample.py:124-136 | at 1000 pixels over 500 units the band maps to rows 200 and 600, and exactly rows 200 to 600 are painted |

## Left out

- Rendering the PDF to images (`render_pdf_to_images`): a foreign library and file I/O.
- The recognizer client, its credentials and `analyze_read_ocr`: a network service. Only its output is modelled, as a sequence of lines per page.
- `get_page_dims_from_ocr`: attribute access on the service's result objects. The OCR page height is a parameter.
- The whole-document containment messages and every other `print` and progress bar: diagnostics only.
- Saving the redacted PNGs and rebuilding the PDF: file I/O and image serialisation.
- Floating point: coordinates are exact reals, so the rounding error of `y * scale` on binary floats is not modelled. Python's `round` is modelled exactly on the real value (half to even).
- Coordinates.YToPx: states the row relative to the exact real product, not to Python's float product, because float multiplication is not modelled.
- The drawing library's rectangle filling beyond "paint these full-width rows in this colour". The pixel buffer is abstract RGB.
- Which OCR result is scanned (pages 2 and 3): the caller passes each page's lines. The indices appear only as the constants `UgiPage` and `PartyPage`, which the errors name.
- The image object that `redact_band` returns: it is the same object it was given, so the model's method changes the image and returns nothing.
