/** The payload helper and the export compositor (utils/pdfUtils.ts): the
    0–1000 box to pixel transform, the stroke and label sizes, the label chip
    placed above each box, and `drawErrorsOnCanvas` as a loop of paint calls on
    a canvas whose style state it updates. The rasterised image is known only
    by its pixel size, text measurement is a function handed in, and the JPEG
    encoding of the result is not modelled: the output is the list of paint
    operations the canvas received. */
module PdfUtils {
  import opened JsRuntime
  import opened Types

  /** `dataUrl.split(',')[1]`: the text between the first comma and the next
      comma (or the end); None (`undefined`) when there is no comma. */
  function Base64Data(dataUrl: string): (r: Option<string>)
    ensures r.None? <==> ',' !in dataUrl
    ensures r.Some? ==> ',' !in r.value
  {
    match IndexOf(dataUrl, ',')
    case None => None
    case Some(i) =>
      var rest := dataUrl[i + 1..];
      match IndexOf(rest, ',')
      case None => Some(rest)
      case Some(j) => Some(rest[..j])
  }

  /** The payload is exactly the second comma-separated field: for a header
      and a payload without commas, followed by nothing or by a further
      comma-separated field, the payload is what comes back. */
  lemma Base64DataSplit(head: string, payload: string, tail: string)
    requires ',' !in head && ',' !in payload
    requires tail == [] || tail[0] == ','
    ensures Base64Data(head + "," + payload + tail) == Some(payload)
  {
    var s := head + "," + payload + tail;
    assert s == head + [','] + (payload + tail);
    IndexOfAfter(head, ',', payload + tail);
    assert s[|head| + 1..] == payload + tail;
    if tail != [] {
      assert payload + tail == payload + [','] + tail[1..];
      IndexOfAfter(payload, ',', tail[1..]);
      assert (payload + tail)[..|payload|] == payload;
    } else {
      assert payload + tail == payload;
    }
  }

  // ---- geometry ------------------------------------------------------------

  /** A rectangle in canvas pixels (or NaN where a coordinate was not a number). */
  datatype PixelRect = PixelRect(x: Number, y: Number, w: Number, h: Number)

  /** The box on the 0–1000 scale stretched over a width × height raster: its
      corners (xmin, ymin) and (xmax, ymax) land at the same fractions of the
      raster's width and height. */
  function Denormalise(b: BoundingBox, width: real, height: real): (r: PixelRect)
    ensures r.x.Finite? <==> b.xmin.Finite?
    ensures r.y.Finite? <==> b.ymin.Finite?
    ensures r.w.Finite? <==> b.xmin.Finite? && b.xmax.Finite?
    ensures r.h.Finite? <==> b.ymin.Finite? && b.ymax.Finite?
    ensures r.x.Finite? ==> r.x.r == b.xmin.r * width / 1000.0
    ensures r.y.Finite? ==> r.y.r == b.ymin.r * height / 1000.0
    ensures r.w.Finite? ==> r.x.r + r.w.r == b.xmax.r * width / 1000.0
    ensures r.h.Finite? ==> r.y.r + r.h.r == b.ymax.r * height / 1000.0
  {
    PixelRect(
      Mul(Div(b.xmin, 1000.0), width),
      Mul(Div(b.ymin, 1000.0), height),
      Mul(Div(Sub(b.xmax, b.xmin), 1000.0), width),
      Mul(Div(Sub(b.ymax, b.ymin), 1000.0), height))
  }

  /** The whole-sheet box covers the whole raster. */
  lemma FullFrame(width: real, height: real)
    ensures Denormalise(BoundingBox(Finite(0.0), Finite(0.0), Finite(1000.0), Finite(1000.0)), width, height)
            == PixelRect(Finite(0.0), Finite(0.0), Finite(width), Finite(height))
  {
    assert 0.0 / 1000.0 * width == 0.0;
    assert 0.0 / 1000.0 * height == 0.0;
    assert (1000.0 - 0.0) / 1000.0 * width == width;
    assert (1000.0 - 0.0) / 1000.0 * height == height;
  }

  /** `Math.max(2, canvas.width * 0.003)`: the stroke grows with the raster
      but never gets thinner than 2 pixels. */
  function LineWidth(canvasWidth: real): (r: real)
    ensures r >= 2.0 && r >= canvasWidth * 0.003
    ensures r == 2.0 || r == canvasWidth * 0.003
  {
    Max(2.0, canvasWidth * 0.003)
  }

  /** `Math.max(12, canvas.width * 0.015)`: never smaller than 12 pixels. */
  function FontSize(canvasWidth: real): (r: real)
    ensures r >= 12.0 && r >= canvasWidth * 0.015
    ensures r == 12.0 || r == canvasWidth * 0.015
  {
    Max(12.0, canvasWidth * 0.015)
  }

  /** The label chip's padding and size for a font size and a measured text width. */
  datatype Chip = Chip(padding: real, width: real, height: real)

  /** Half a font size of padding on each side and below the text line. */
  function LabelChip(fontSize: real, textWidth: real): (c: Chip)
    ensures c.padding == fontSize / 2.0
    ensures c.width - textWidth == 2.0 * c.padding
    ensures c.height - fontSize == c.padding
  {
    var padding := fontSize * 0.5;
    Chip(padding, textWidth + padding * 2.0, fontSize + padding)
  }

  // ---- paint operations ----------------------------------------------------

  datatype Font = DefaultFont | BoldArial(size: real)
  datatype Baseline = Alphabetic | Middle

  /** One call that paints on the canvas, with the style in force when it was made. */
  datatype Paint =
    | DrawImage(dx: real, dy: real)
    | StrokeRect(rect: PixelRect, color: string, lineWidth: real)
    | FillRect(rect: PixelRect, color: string)
    | FillText(text: string, x: Number, y: Number, color: string, font: Font, baseline: Baseline)

  const Red: string := "#ef4444"
  const White: string := "#ffffff"
  const Black: string := "#000000"

  /** The marker one defect gets on a width × height canvas: the box outline,
      the label chip above it and the id inside the chip; nothing for a defect
      without a box. */
  function MarkerPaints(e: DrawingError, width: nat, height: nat,
                        measure: (Font, string) -> real, numText: real -> string): (r: seq<Paint>)
    ensures |r| == if e.box.Some? then 3 else 0
  {
    if e.box.None? then []
    else
      var rect := Denormalise(e.box.value, width as real, height as real);
      var fontSize := FontSize(width as real);
      var text := ToText(e.id, numText);
      var chip := LabelChip(fontSize, measure(BoldArial(fontSize), text));
      [ StrokeRect(rect, Red, LineWidth(width as real)),
        FillRect(PixelRect(rect.x, Add(rect.y, -chip.height), Finite(chip.width), Finite(chip.height)), Red),
        FillText(text, Add(rect.x, chip.padding), Add(Add(rect.y, -chip.height), chip.height / 2.0),
                 White, BoldArial(fontSize), Middle) ]
  }

  /** The markers of a list of defects, in list order. */
  function AllMarkerPaints(es: seq<DrawingError>, width: nat, height: nat,
                           measure: (Font, string) -> real, numText: real -> string): seq<Paint>
  {
    if es == [] then []
    else AllMarkerPaints(es[..|es| - 1], width, height, measure, numText)
         + MarkerPaints(es[|es| - 1], width, height, measure, numText)
  }

  /** What the exported raster receives: the page image at the origin, then the markers. */
  function Composite(width: nat, height: nat, es: seq<DrawingError>,
                     measure: (Font, string) -> real, numText: real -> string): (r: seq<Paint>)
    ensures |r| == 1 + 3 * |Boxed(es)| && r[0] == DrawImage(0.0, 0.0)
    ensures forall k :: 0 <= k < |Boxed(es)| ==>
              r[1 + 3 * k..4 + 3 * k] == MarkerPaints(Boxed(es)[k], width, height, measure, numText)
  {
    var markers := AllMarkerPaints(es, width, height, measure, numText);
    MarkerSegments(es, width, height, measure, numText);
    AfterHead(DrawImage(0.0, 0.0), markers, |Boxed(es)|);
    [DrawImage(0.0, 0.0)] + markers
  }

  /** The defects that have a box, in order. */
  function Boxed(es: seq<DrawingError>): (r: seq<DrawingError>)
    ensures |r| <= |es|
    ensures forall e :: e in r <==> e in es && e.box.Some?
  {
    if es == [] then []
    else Boxed(es[..|es| - 1]) + (if es[|es| - 1].box.Some? then [es[|es| - 1]] else [])
  }

  /** Keeping the boxed defects distributes over concatenation, so the kept
      defects stay in list order. */
  lemma {:induction false} BoxedAppend(a: seq<DrawingError>, b: seq<DrawingError>)
    ensures Boxed(a + b) == Boxed(a) + Boxed(b)
    decreases |b|
  {
    if b == [] {
      assert a + b == a;
    } else {
      var b' := b[..|b| - 1];
      var last := b[|b| - 1];
      assert (a + b)[..|a + b| - 1] == a + b';
      assert (a + b)[|a + b| - 1] == last;
      BoxedAppend(a, b');
    }
  }

  /** A boxed defect gets three paint operations and an unboxed one none, so
      the markers are the boxed defects' markers, three operations each, in
      list order. */
  lemma {:induction false} MarkerSegments(es: seq<DrawingError>, width: nat, height: nat,
                                          measure: (Font, string) -> real, numText: real -> string)
    ensures |AllMarkerPaints(es, width, height, measure, numText)| == 3 * |Boxed(es)|
    ensures forall k :: 0 <= k < |Boxed(es)| ==>
              AllMarkerPaints(es, width, height, measure, numText)[3 * k..3 * k + 3]
              == MarkerPaints(Boxed(es)[k], width, height, measure, numText)
  {
    if es != [] {
      var init := es[..|es| - 1];
      var last := es[|es| - 1];
      MarkerSegments(init, width, height, measure, numText);
      var before := AllMarkerPaints(init, width, height, measure, numText);
      var mine := MarkerPaints(last, width, height, measure, numText);
      assert AllMarkerPaints(es, width, height, measure, numText) == before + mine;
      assert Boxed(es) == Boxed(init) + (if last.box.Some? then [last] else []);
      forall k | 0 <= k < |Boxed(es)|
        ensures (before + mine)[3 * k..3 * k + 3] == MarkerPaints(Boxed(es)[k], width, height, measure, numText)
      {
        if k < |Boxed(init)| {
          SliceOfLeft(before, mine, 3 * k, 3 * k + 3);
          assert Boxed(es)[k] == Boxed(init)[k];
        } else {
          SliceOfRight(before, mine);
          assert Boxed(es)[k] == last;
        }
      }
    }
  }

  /** Putting one element in front shifts each segment of three by one. */
  lemma AfterHead<T>(x: T, m: seq<T>, n: nat)
    requires |m| == 3 * n
    ensures forall k :: 0 <= k < n ==> ([x] + m)[1 + 3 * k..4 + 3 * k] == m[3 * k..3 * k + 3]
  {
    forall k | 0 <= k < n
      ensures ([x] + m)[1 + 3 * k..4 + 3 * k] == m[3 * k..3 * k + 3]
    {
      assert ([x] + m)[1..] == m;
    }
  }

  lemma SliceOfLeft<T>(a: seq<T>, b: seq<T>, i: nat, j: nat)
    requires i <= j <= |a|
    ensures (a + b)[i..j] == a[i..j]
  {
  }

  lemma SliceOfRight<T>(a: seq<T>, b: seq<T>)
    ensures (a + b)[|a|..|a| + |b|] == b
  {
  }

  /** A boxed defect's marker: the box outlined in red at the raster's line
      width; a red chip as wide as the id text plus a font size and one and a
      half font sizes high, sharing the box's left edge with its bottom edge on
      the box's top edge; the id in white bold Arial at the raster's font size,
      half a font size in from the left and vertically centred in the chip. */
  lemma ChipSitsOnBox(e: DrawingError, width: nat, height: nat,
                      measure: (Font, string) -> real, numText: real -> string)
    requires e.box.Some? && e.box.value.xmin.Finite? && e.box.value.ymin.Finite?
    ensures var p := MarkerPaints(e, width, height, measure, numText);
            var rect := Denormalise(e.box.value, width as real, height as real);
            var fs := FontSize(width as real);
            var text := ToText(e.id, numText);
            && |p| == 3 && p[0].StrokeRect? && p[1].FillRect? && p[2].FillText?
            && p[0] == StrokeRect(rect, Red, LineWidth(width as real))
            && p[1].color == Red
            && p[1].rect.x == rect.x
            && p[1].rect.w == Finite(measure(BoldArial(fs), text) + fs)
            && p[1].rect.h == Finite(fs + fs / 2.0)
            && p[1].rect.y.r + p[1].rect.h.r == rect.y.r
            && p[2].text == text && p[2].color == White
            && p[2].font == BoldArial(fs) && p[2].baseline == Middle
            && p[2].x.r == rect.x.r + fs / 2.0
            && p[2].y.r == p[1].rect.y.r + p[1].rect.h.r / 2.0
  {
  }

  /** A canvas: its fixed size, its style state, and the paint calls it has
      received. */
  class Canvas {
    const width: nat
    const height: nat
    const measure: (Font, string) -> real
    var strokeStyle: string
    var lineWidth: real
    var font: Font
    var fillStyle: string
    var textBaseline: Baseline
    var log: seq<Paint>

    /** A fresh canvas with the 2D context's initial style. */
    constructor (width: nat, height: nat, measure: (Font, string) -> real)
      ensures this.width == width && this.height == height && this.measure == measure
      ensures strokeStyle == Black && lineWidth == 1.0 && font == DefaultFont
      ensures fillStyle == Black && textBaseline == Alphabetic
      ensures log == []
    {
      this.width, this.height, this.measure := width, height, measure;
      strokeStyle, lineWidth, font := Black, 1.0, DefaultFont;
      fillStyle, textBaseline := Black, Alphabetic;
      log := [];
    }

    /** `ctx.measureText(text).width` in the current font. */
    function MeasureText(text: string): real
      reads this
    {
      measure(font, text)
    }

    method DrawImage(x: real, y: real)
      modifies this`log
      ensures log == old(log) + [Paint.DrawImage(x, y)]
    {
      log := log + [Paint.DrawImage(x, y)];
    }

    method StrokeRect(x: Number, y: Number, w: Number, h: Number)
      modifies this`log
      ensures log == old(log) + [Paint.StrokeRect(PixelRect(x, y, w, h), strokeStyle, lineWidth)]
    {
      log := log + [Paint.StrokeRect(PixelRect(x, y, w, h), strokeStyle, lineWidth)];
    }

    method FillRect(x: Number, y: Number, w: Number, h: Number)
      modifies this`log
      ensures log == old(log) + [Paint.FillRect(PixelRect(x, y, w, h), fillStyle)]
    {
      log := log + [Paint.FillRect(PixelRect(x, y, w, h), fillStyle)];
    }

    method FillText(text: string, x: Number, y: Number)
      modifies this`log
      ensures log == old(log) + [Paint.FillText(text, x, y, fillStyle, font, textBaseline)]
    {
      log := log + [Paint.FillText(text, x, y, fillStyle, font, textBaseline)];
    }

    /** The body of the `forEach`: the marker for one defect, leaving the
        style state as the last call set it. */
    method DrawMarker(err: DrawingError, numText: real -> string)
      modifies this
      ensures log == old(log) + MarkerPaints(err, width, height, measure, numText)
    {
      if err.box.None? {
        return;
      }
      var b := err.box.value;
      var x := Mul(Div(b.xmin, 1000.0), width as real);
      var y := Mul(Div(b.ymin, 1000.0), height as real);
      var w := Mul(Div(Sub(b.xmax, b.xmin), 1000.0), width as real);
      var h := Mul(Div(Sub(b.ymax, b.ymin), 1000.0), height as real);

      strokeStyle := Red;
      lineWidth := Max(2.0, width as real * 0.003);
      StrokeRect(x, y, w, h);

      var fontSize := Max(12.0, width as real * 0.015);
      font := BoldArial(fontSize);
      var text := ToText(err.id, numText);
      var textWidth := MeasureText(text);
      var padding := fontSize * 0.5;
      var bgW := textWidth + padding * 2.0;
      var bgH := fontSize + padding;

      fillStyle := Red;
      FillRect(x, Add(y, -bgH), Finite(bgW), Finite(bgH));

      fillStyle := White;
      textBaseline := Middle;
      FillText(text, Add(x, padding), Add(Add(y, -bgH), bgH / 2.0));
    }
  }

  /** `drawErrorsOnCanvas`: an image of the given pixel size is drawn, then
      each boxed defect's marker in turn. None when the image never loads (the
      source's promise never settles). The language argument is unused. */
  method DrawErrorsOnCanvas(image: Option<(nat, nat)>, errors: seq<DrawingError>, language: Language,
                            measure: (Font, string) -> real, numText: real -> string)
    returns (painted: Option<seq<Paint>>)
    ensures image.None? ==> painted.None?
    ensures image.Some? ==> painted == Some(Composite(image.value.0, image.value.1, errors, measure, numText))
  {
    if image.None? {
      return None;
    }
    var canvas := new Canvas(image.value.0, image.value.1, measure);
    canvas.DrawImage(0.0, 0.0);
    var i := 0;
    while i < |errors|
      invariant 0 <= i <= |errors|
      invariant canvas.log == [Paint.DrawImage(0.0, 0.0)]
                + AllMarkerPaints(errors[..i], canvas.width, canvas.height, measure, numText)
    {
      canvas.DrawMarker(errors[i], numText);
      assert errors[..i + 1][..i] == errors[..i];
      i := i + 1;
    }
    assert errors[..i] == errors;
    painted := Some(canvas.log);
  }
}
