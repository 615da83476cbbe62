/** Where `scrollToAnnotation` scrolls the viewer for an annotation id. */
module ScrollMapper {
  import opened AnnotationModel

  /** The viewer stops this many pixels above the annotation. */
  const ScrollMargin: real := 100.0

  /** The height and scale of the first page's viewport. */
  datatype Viewport = Viewport(height: real, scale: real)

  /** A position as `convertToExportY` reports it: a page number and a y
      offset within that page. */
  datatype ExportPosition = ExportPosition(pageNumber: int, y: real)

  /** The `y` and `y1` a relation exposes for its drawing; `None` is an
      undefined `y`. */
  datatype Anchor = Anchor(y: Option<real>, y1: real)

  /** No annotation has the id; the id names a span without rectangles, where
      reading the first rectangle throws; or the scroll position to set. */
  datatype ScrollOutcome = NotFound | NoGeometry | ScrollTo(offset: real)

  /** The scroll position of a point `y` on page `pageNumber` (pages count from 1). */
  function ScrollOffset(pageNumber: int, y: real, viewport: Viewport, padding: real): real
  {
    (viewport.height + padding) * ((pageNumber - 1) as real) + y * viewport.scale - ScrollMargin
  }

  /** The in-page y that a scroll position stands for on page `pageNumber`. */
  function PageY(offset: real, pageNumber: int, viewport: Viewport, padding: real): real
    requires viewport.scale != 0.0
  {
    (offset + ScrollMargin - (viewport.height + padding) * ((pageNumber - 1) as real)) / viewport.scale
  }

  /** `y || y1`: an undefined or zero `y` falls back to `y1`. */
  function AnchorY(anchor: Anchor): real
  {
    if anchor.y.Some? && anchor.y.value != 0.0 then anchor.y.value else anchor.y1
  }

  /** The page and y the call scrolls to for `a`: a span's page and the top of
      its first rectangle, or the export position of a relation's anchor. */
  function Target(a: Annotation, anchorOf: Annotation -> Anchor,
                  toExport: real -> ExportPosition): Option<ExportPosition>
  {
    if a.Span? then
      if |a.rectangles| == 0 then None else Some(ExportPosition(a.page, a.rectangles[0].y))
    else
      Some(toExport(AnchorY(anchorOf(a))))
  }

  /** `scrollToAnnotation(id)` over the container contents `annos`, with the
      viewport, the padding between pages and the viewer's coordinate
      conversions as parameters. */
  function ScrollTarget(annos: seq<Annotation>, id: Uuid, viewport: Viewport, padding: real,
                        anchorOf: Annotation -> Anchor, toExport: real -> ExportPosition): ScrollOutcome
  {
    match FindById(annos, id)
    case None => NotFound
    case Some(a) =>
      match Target(a, anchorOf, toExport)
      case None => NoGeometry
      case Some(p) => ScrollTo(ScrollOffset(p.pageNumber, p.y, viewport, padding))
  }

  /** The scroll position determines the in-page y it was computed from. */
  lemma ScrollOffsetInverse(pageNumber: int, y: real, viewport: Viewport, padding: real)
    requires viewport.scale != 0.0
    ensures PageY(ScrollOffset(pageNumber, y, viewport, padding), pageNumber, viewport, padding) == y
  {
    var o := ScrollOffset(pageNumber, y, viewport, padding);
    var base := (viewport.height + padding) * ((pageNumber - 1) as real);
    assert o + ScrollMargin - base == y * viewport.scale;
  }

  /** On one page, with a positive scale, a lower point scrolls further. */
  lemma ScrollMonotoneOnPage(pageNumber: int, y1: real, y2: real, viewport: Viewport, padding: real)
    requires viewport.scale > 0.0 && y1 < y2
    ensures ScrollOffset(pageNumber, y1, viewport, padding) < ScrollOffset(pageNumber, y2, viewport, padding)
  {
    assert y2 * viewport.scale - y1 * viewport.scale == (y2 - y1) * viewport.scale;
    assert (y2 - y1) * viewport.scale > 0.0;
  }

  /** A point on a later page scrolls further than any point of an earlier page,
      as long as both points lie within their page's scaled height and padding. */
  lemma ScrollMonotoneAcrossPages(p1: int, y1: real, p2: int, y2: real, viewport: Viewport, padding: real)
    requires p1 < p2
    requires 0.0 <= y1 * viewport.scale < viewport.height + padding
    requires 0.0 <= y2 * viewport.scale
    ensures ScrollOffset(p1, y1, viewport, padding) < ScrollOffset(p2, y2, viewport, padding)
  {
    var h := viewport.height + padding;
    var gap := ((p2 - 1) as real) - ((p1 - 1) as real);
    assert gap >= 1.0;
    assert h * ((p2 - 1) as real) - h * ((p1 - 1) as real) == h * gap;
    assert h * gap >= h by {
      assert h * gap - h == h * (gap - 1.0);
      assert h * (gap - 1.0) >= 0.0;
    }
    var b1, b2 := h * ((p1 - 1) as real), h * ((p2 - 1) as real);
    var s1, s2 := y1 * viewport.scale, y2 * viewport.scale;
    assert ScrollOffset(p1, y1, viewport, padding) == b1 + s1 - ScrollMargin;
    assert ScrollOffset(p2, y2, viewport, padding) == b2 + s2 - ScrollMargin;
    assert b2 - b1 >= h && s1 < h && s2 >= 0.0;
  }

  /** The call does nothing exactly when no record carries the id. */
  lemma ScrollNotFound(annos: seq<Annotation>, id: Uuid, viewport: Viewport, padding: real,
                       anchorOf: Annotation -> Anchor, toExport: real -> ExportPosition)
    ensures ScrollTarget(annos, id, viewport, padding, anchorOf, toExport) == NotFound
            <==> id !in Uuids(annos)
  {
  }

  /** For a span with rectangles, the call scrolls to its page and the top of
      its first rectangle; for a span without any it fails. */
  lemma ScrollToSpan(annos: seq<Annotation>, k: nat, viewport: Viewport, padding: real,
                     anchorOf: Annotation -> Anchor, toExport: real -> ExportPosition)
    requires UniqueIds(annos) && k < |annos| && annos[k].Span?
    ensures var s := annos[k];
      ScrollTarget(annos, s.uuid, viewport, padding, anchorOf, toExport) ==
      if |s.rectangles| == 0 then NoGeometry
      else ScrollTo(ScrollOffset(s.page, s.rectangles[0].y, viewport, padding))
  {
    FindByIdUnique(annos, annos[k].uuid, k);
  }

  /** For a relation, the call scrolls to the export position of its anchor,
      `y` if set and non-zero, else `y1`. */
  lemma ScrollToRelation(annos: seq<Annotation>, k: nat, viewport: Viewport, padding: real,
                         anchorOf: Annotation -> Anchor, toExport: real -> ExportPosition)
    requires UniqueIds(annos) && k < |annos| && annos[k].Relation?
    ensures var a := anchorOf(annos[k]);
      var d := toExport(if a.y.Some? && a.y.value != 0.0 then a.y.value else a.y1);
      ScrollTarget(annos, annos[k].uuid, viewport, padding, anchorOf, toExport) ==
      ScrollTo(ScrollOffset(d.pageNumber, d.y, viewport, padding))
  {
    FindByIdUnique(annos, annos[k].uuid, k);
  }

  /** A span on page 2 whose first rectangle starts at y = 50, on 800-high
      pages at scale 1 with 10 between pages, scrolls to 760. */
  lemma PageTwoExample()
    ensures ScrollOffset(2, 50.0, Viewport(800.0, 1.0), 10.0) == 760.0
  {
  }
}
