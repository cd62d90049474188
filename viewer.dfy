/** The drawing viewer (components/Viewer.tsx): where each defect's overlay
    sits on the page image, which overlays and comments are shown, and the zoom
    scale that the wheel, the three buttons and a change of drawing update. */
module Viewer {
  import opened JsRuntime
  import opened Types
  import PdfUtils

  // ---- overlay placement ---------------------------------------------------

  /** The CSS placement of an overlay, as percentages of the page image, or
      `display: none`. */
  datatype MarkerStyle = Hidden | Placed(top: Number, left: Number, height: Number, width: Number)

  /** `getMarkerStyle`: a box on the 0–1000 scale becomes tenths, i.e.
      percentages of the image; no box hides the overlay. */
  function GetMarkerStyle(box: Option<BoundingBox>): (r: MarkerStyle)
    ensures r.Hidden? <==> box.None?
    ensures r.Placed? ==> var b := box.value;
              && (r.top.Finite? <==> b.ymin.Finite?)
              && (r.left.Finite? <==> b.xmin.Finite?)
              && (r.height.Finite? <==> b.ymin.Finite? && b.ymax.Finite?)
              && (r.width.Finite? <==> b.xmin.Finite? && b.xmax.Finite?)
              && (r.top.Finite? ==> r.top.r * 10.0 == b.ymin.r)
              && (r.left.Finite? ==> r.left.r * 10.0 == b.xmin.r)
              && (r.height.Finite? ==> (r.top.r + r.height.r) * 10.0 == b.ymax.r)
              && (r.width.Finite? ==> (r.left.r + r.width.r) * 10.0 == b.xmax.r)
  {
    match box
    case None => Hidden
    case Some(b) =>
      Placed(Div(b.ymin, 10.0), Div(b.xmin, 10.0), Div(Sub(b.ymax, b.ymin), 10.0), Div(Sub(b.xmax, b.xmin), 10.0))
  }

  /** The on-screen overlay and the exported marker outline cover the same part
      of the page: a percentage of the image's height (width) is the same
      fraction of the raster's height (width) that the export transform uses. */
  lemma MarkerMatchesExport(b: BoundingBox, width: real, height: real)
    requires b.ymin.Finite? && b.xmin.Finite? && b.ymax.Finite? && b.xmax.Finite?
    ensures var s := GetMarkerStyle(Some(b));
            var r := PdfUtils.Denormalise(b, width, height);
            && s.top.r / 100.0 * height == r.y.r
            && s.left.r / 100.0 * width == r.x.r
            && s.height.r / 100.0 * height == r.h.r
            && s.width.r / 100.0 * width == r.w.r
  {
    var s := GetMarkerStyle(Some(b));
    var r := PdfUtils.Denormalise(b, width, height);
    assert s.top.r / 100.0 == b.ymin.r / 1000.0;
    assert s.left.r / 100.0 == b.xmin.r / 1000.0;
    assert s.height.r / 100.0 == (b.ymax.r - b.ymin.r) / 1000.0;
    assert s.width.r / 100.0 == (b.xmax.r - b.xmin.r) / 1000.0;
  }

  /** `activeErrorId === error.id`: the defect whose id is the clicked one is
      highlighted. The clicked id is whatever the detector sent, and it is
      `null` before any click. */
  predicate IsActive(activeErrorId: Value, e: DrawingError) {
    StrictEquals(activeErrorId, e.id)
  }

  /** A click on a defect with a primitive id highlights exactly the defects
      that share that id, the clicked one among them. Before any click the
      defects with a null id are the highlighted ones. */
  lemma ClickHighlights(clicked: DrawingError, e: DrawingError)
    requires !clicked.id.Arr? && !clicked.id.Obj?
    ensures IsActive(clicked.id, clicked)
    ensures IsActive(clicked.id, e) <==> e.id == clicked.id
    ensures IsActive(Null, e) <==> e.id == Null
  {
    StrictEqualsPrimitives(clicked.id, e.id);
  }

  /** One overlay: the id shown in its badge, its placement, its highlight. */
  datatype Overlay = Overlay(id: Value, style: MarkerStyle, active: bool)

  /** The overlays, `error.box_2d && <div …>`: one per defect with a box, in
      list order. */
  function Overlays(errors: seq<DrawingError>, activeErrorId: Value): (r: seq<Overlay>)
    ensures |r| == |PdfUtils.Boxed(errors)|
    ensures forall k :: 0 <= k < |r| ==>
              var e := PdfUtils.Boxed(errors)[k];
              r[k] == Overlay(e.id, GetMarkerStyle(e.box), IsActive(activeErrorId, e))
    ensures forall k :: 0 <= k < |r| ==> r[k].style.Placed?
  {
    if errors == [] then []
    else
      var init := errors[..|errors| - 1];
      var e := errors[|errors| - 1];
      assert PdfUtils.Boxed(errors) == PdfUtils.Boxed(init) + (if e.box.Some? then [e] else []);
      Overlays(init, activeErrorId)
      + (if e.box.Some? then [Overlay(e.id, GetMarkerStyle(e.box), IsActive(activeErrorId, e))] else [])
  }

  // ---- the comment panel ---------------------------------------------------

  /** One comment card: the id, the description in the chosen language, the
      "Critical" tag and the highlight. */
  datatype Comment = Comment(id: Value, text: Value, critical: bool, active: bool)

  /** The description a comment shows: English for 'en', Vietnamese otherwise. */
  function Description(e: DrawingError, language: Language): (r: Value)
    ensures language == En ==> r == e.descriptionEn
    ensures language != En ==> r == e.descriptionVn
  {
    if language == En then e.descriptionEn else e.descriptionVn
  }

  /** The comment list: every defect, boxed or not, in list order. */
  function Comments(errors: seq<DrawingError>, language: Language, activeErrorId: Value): (r: seq<Comment>)
    ensures |r| == |errors|
    ensures forall k :: 0 <= k < |r| ==> r[k].id == errors[k].id && r[k].text == Description(errors[k], language)
    ensures forall k :: 0 <= k < |r| ==> (r[k].critical <==> errors[k].kind == Str("critical"))
    ensures forall k :: 0 <= k < |r| ==> (r[k].active <==> IsActive(activeErrorId, errors[k]))
  {
    if errors == [] then []
    else
      var e := errors[|errors| - 1];
      Comments(errors[..|errors| - 1], language, activeErrorId)
      + [Comment(e.id, Description(e, language), e.kind == Str("critical"), IsActive(activeErrorId, e))]
  }

  /** The panel always lists at least as many cards as there are overlays, and
      exactly as many when every defect has a box. */
  lemma {:induction false} OverlaysWithinComments(errors: seq<DrawingError>, language: Language, a: Value)
    ensures |Overlays(errors, a)| <= |Comments(errors, language, a)|
    ensures (forall k :: 0 <= k < |errors| ==> errors[k].box.Some?) ==>
              |Overlays(errors, a)| == |Comments(errors, language, a)|
  {
    if errors != [] {
      var init := errors[..|errors| - 1];
      OverlaysWithinComments(init, language, a);
      assert forall k :: 0 <= k < |init| ==> init[k] == errors[k];
    }
  }

  // ---- zoom ----------------------------------------------------------------

  const MinScale: real := 0.2
  const MaxScale: real := 5.0

  /** The wheel's zoom factor: out for a positive deltaY, in otherwise. */
  function WheelFactor(deltaY: real): (f: real)
    ensures deltaY > 0.0 ==> f == 0.9
    ensures deltaY <= 0.0 ==> f == 1.1
  {
    if deltaY > 0.0 then 0.9 else 1.1
  }

  /** `Math.min(Math.max(0.2, s * delta), 5)`: the product, held to [0.2, 5]. */
  function WheelScale(s: real, deltaY: real): (r: real)
    ensures MinScale <= r <= MaxScale
    ensures MinScale <= s * WheelFactor(deltaY) <= MaxScale ==> r == s * WheelFactor(deltaY)
    ensures s * WheelFactor(deltaY) < MinScale ==> r == MinScale
    ensures s * WheelFactor(deltaY) > MaxScale ==> r == MaxScale
  {
    Min(Max(MinScale, s * WheelFactor(deltaY)), MaxScale)
  }

  /** Wheel zoom keeps the order of scales. */
  lemma WheelMonotone(s1: real, s2: real, deltaY: real)
    requires s1 <= s2
    ensures WheelScale(s1, deltaY) <= WheelScale(s2, deltaY)
  {
    assert s1 * WheelFactor(deltaY) <= s2 * WheelFactor(deltaY);
  }

  /** The label between the buttons, `Math.round(scale * 100)`: the nearest
      whole percentage. */
  function ZoomPercent(scale: real): (r: int)
    ensures r as real - 0.5 <= scale * 100.0 < r as real + 0.5
  {
    Round(scale * 100.0)
  }

  /** The viewer's zoom state for the drawing it shows. */
  class Viewport {
    var scale: real
    var drawingId: string

    /** `useState(1)`: a viewer opens at scale 1. */
    constructor (drawingId: string)
      ensures scale == 1.0 && this.drawingId == drawingId
    {
      scale := 1.0;
      this.drawingId := drawingId;
    }

    /** `handleWheel`: only a Ctrl+wheel zooms, and it stays in [0.2, 5]. */
    method Wheel(ctrlKey: bool, deltaY: real)
      modifies this`scale
      ensures ctrlKey ==> scale == WheelScale(old(scale), deltaY)
      ensures !ctrlKey ==> scale == old(scale)
      ensures ctrlKey ==> MinScale <= scale <= MaxScale
    {
      if ctrlKey {
        scale := WheelScale(scale, deltaY);
      }
    }

    /** The minus button: one tenth less, with no lower bound. */
    method ZoomOut()
      modifies this`scale
      ensures scale == old(scale) - 0.1
    {
      scale := scale - 0.1;
    }

    /** The plus button: one tenth more, with no upper bound. */
    method ZoomIn()
      modifies this`scale
      ensures scale == old(scale) + 0.1
    {
      scale := scale + 0.1;
    }

    /** The Reset button. */
    method Reset()
      modifies this`scale
      ensures scale == 1.0
    {
      scale := 1.0;
    }

    /** A new `drawing` prop: the effect keyed on `drawing.id` sets the scale
        back to 1 when the id changed, and the scale is kept otherwise. */
    method ShowDrawing(id: string)
      modifies this
      ensures drawingId == id
      ensures id != old(drawingId) ==> scale == 1.0
      ensures id == old(drawingId) ==> scale == old(scale)
    {
      if id != drawingId {
        scale := 1.0;
      }
      drawingId := id;
    }
  }

  /** Unlike the wheel, the buttons are not held to [0.2, 5]: from the wheel's
      smallest scale the minus button goes below it, and from its largest the
      plus button goes above it. */
  lemma ButtonsLeaveWheelRange()
    ensures WheelScale(0.0, 1.0) - 0.1 < MinScale
    ensures WheelScale(100.0, -1.0) + 0.1 > MaxScale
  {
    assert WheelScale(0.0, 1.0) == MinScale;
    assert WheelScale(100.0, -1.0) == MaxScale;
  }
}
