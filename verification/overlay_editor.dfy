/**
 The overlay editor's transform arithmetic: where the overlay image and the
 text label sit, how large the overlay image is drawn, and how tall the editor
 becomes once the base image has loaded. Gestures are reduced to the numbers
 their callbacks receive (the translation or scale factor accumulated since the
 gesture began); positions and sizes are real numbers.
 */
module OverlayEditor {

  datatype Option<T> = None | Some(value: T)

  datatype Editor = Editor(
    text: string,
    editorWidth: real,
    editorHeight: real,
    imgHeight: Option<real>,   // null until the base image has loaded
    textWidth: real,
    textHeight: real,
    scale: real,               // overlay image scale
    imgX: real, imgY: real,    // overlay image position
    textX: real, textY: real)  // text label position

  /** What a gesture remembers from its start. */
  datatype DragStart = DragStart(x: real, y: real)

  const InitialLabel: string := "Your text"

  /** The editor on mount: unit scale, image at (100, 100), text at (50, 50),
      nothing measured yet. */
  function Initial(): (e: Editor)
    ensures e.scale == 1.0 && e.imgX == 100.0 && e.imgY == 100.0
    ensures e.textX == 50.0 && e.textY == 50.0 && e.text == "Your text"
    ensures e.imgHeight == None && e.editorWidth == 0.0 && e.editorHeight == 0.0
    ensures e.textWidth == 0.0 && e.textHeight == 0.0
  {
    Editor(InitialLabel, 0.0, 0.0, None, 0.0, 0.0, 1.0, 100.0, 100.0, 50.0, 50.0)
  }

  function Max(a: real, b: real): real {
    if a >= b then a else b
  }

  function Min(a: real, b: real): real {
    if a <= b then a else b
  }

  function Abs(a: real): real {
    if a >= 0.0 then a else -a
  }

  /** `Math.max(0, Math.min(v, hi))`. */
  function Clamp(v: real, hi: real): (r: real)
    ensures r >= 0.0
    ensures hi >= 0.0 ==> r <= hi
    ensures hi < 0.0 ==> r == 0.0
    ensures 0.0 <= v <= hi ==> r == v
    ensures v <= 0.0 ==> r == 0.0
    ensures 0.0 <= hi <= v ==> r == hi
  {
    Max(0.0, Min(v, hi))
  }

  /** When the range is non-empty the clamped value is the point of `[0, hi]`
      nearest to the requested one. */
  lemma ClampIsNearest(v: real, hi: real, y: real)
    requires hi >= 0.0 && 0.0 <= y <= hi
    ensures Abs(Clamp(v, hi) - v) <= Abs(y - v)
  {
  }

  lemma ClampIdempotent(v: real, hi: real)
    ensures Clamp(Clamp(v, hi), hi) == Clamp(v, hi)
  {
  }

  /** Overlay image pan, start: remember where the image was. */
  function DragImageStart(e: Editor): (c: DragStart)
    ensures c.x == e.imgX && c.y == e.imgY
  {
    DragStart(e.imgX, e.imgY)
  }

  /** Overlay image pan, update: start position plus translation, unclamped. */
  function DragImageActive(e: Editor, c: DragStart, tx: real, ty: real): (r: Editor)
    ensures r.imgX - c.x == tx && r.imgY - c.y == ty
    ensures r == e.(imgX := r.imgX, imgY := r.imgY)
  {
    e.(imgX := c.x + tx, imgY := c.y + ty)
  }

  /** Two successive pans move the image by the sum of their translations. */
  lemma ImageDragsCompose(e: Editor, tx1: real, ty1: real, tx2: real, ty2: real)
    ensures var e1 := DragImageActive(e, DragImageStart(e), tx1, ty1);
      var e2 := DragImageActive(e1, DragImageStart(e1), tx2, ty2);
      e2.imgX == e.imgX + tx1 + tx2 && e2.imgY == e.imgY + ty1 + ty2
  {
  }

  /** Nothing keeps the overlay image in the box: a single pan can put it at
      any point, however far outside. */
  lemma ImageDragReachesAnyPoint(e: Editor, x: real, y: real)
    ensures var r := DragImageActive(e, DragImageStart(e), x - e.imgX, y - e.imgY);
      r.imgX == x && r.imgY == y
  {
  }

  /** Pinch, start: remember the scale. */
  function PinchStart(e: Editor): (s: real)
    ensures s == e.scale
  {
    e.scale
  }

  /** Pinch, update: start scale times the gesture's factor, unbounded. */
  function PinchActive(e: Editor, startScale: real, factor: real): (r: Editor)
    ensures r.scale == startScale * factor
    ensures r == e.(scale := r.scale)
  {
    e.(scale := startScale * factor)
  }

  /** Successive pinches multiply. */
  lemma PinchesCompose(e: Editor, f1: real, f2: real)
    ensures var e1 := PinchActive(e, PinchStart(e), f1);
      PinchActive(e1, PinchStart(e1), f2).scale == e.scale * f1 * f2
  {
  }

  /** Nor is the scale bounded: a factor of 10 from the initial scale gives 10. */
  lemma PinchUnbounded()
    ensures PinchActive(Initial(), PinchStart(Initial()), 10.0).scale == 10.0
  {
  }

  /** Text pan, start: remember where the label was. */
  function DragTextStart(e: Editor): (c: DragStart)
    ensures c.x == e.textX && c.y == e.textY
  {
    DragStart(e.textX, e.textY)
  }

  /** Text pan, update: start plus translation, clamped so that the measured
      label box stays inside the editor box. */
  function DragTextActive(e: Editor, c: DragStart, tx: real, ty: real): (r: Editor)
    ensures r == e.(textX := r.textX, textY := r.textY)
    ensures r.textX >= 0.0 && r.textY >= 0.0
    ensures e.editorWidth - e.textWidth >= 0.0 ==> r.textX <= e.editorWidth - e.textWidth
    ensures e.editorHeight - e.textHeight >= 0.0 ==> r.textY <= e.editorHeight - e.textHeight
    ensures 0.0 <= c.x + tx <= e.editorWidth - e.textWidth ==> r.textX == c.x + tx
    ensures 0.0 <= c.y + ty <= e.editorHeight - e.textHeight ==> r.textY == c.y + ty
  {
    e.(textX := Clamp(c.x + tx, e.editorWidth - e.textWidth),
       textY := Clamp(c.y + ty, e.editorHeight - e.textHeight))
  }

  /** Dragging the label past any edge pins it exactly to that edge, on each
      axis separately; when the label is larger than the editor on an axis (the
      range is negative) it is pinned to 0 there whatever the drag. */
  lemma TextDragPinsToEdges(e: Editor, c: DragStart, tx: real, ty: real)
    ensures var r := DragTextActive(e, c, tx, ty);
      var hx := e.editorWidth - e.textWidth;
      var hy := e.editorHeight - e.textHeight;
      && (c.x + tx <= 0.0 ==> r.textX == 0.0)
      && (0.0 <= hx <= c.x + tx ==> r.textX == hx)
      && (hx < 0.0 ==> r.textX == 0.0)
      && (c.y + ty <= 0.0 ==> r.textY == 0.0)
      && (0.0 <= hy <= c.y + ty ==> r.textY == hy)
      && (hy < 0.0 ==> r.textY == 0.0)
  {
  }

  /** Until a base image loads the editor's height stays 0 (it is only set by
      the image's load callback; the grey placeholder never sets it), so every
      vertical drag of a laid-out label leaves it at the top. */
  lemma TextPinnedToTopUntilImageLoads(w: real, tw: real, th: real, tx: real, ty: real)
    requires th >= 0.0
    ensures var e := TextLaidOut(EditorLaidOut(Initial(), w), tw, th);
      DragTextActive(e, DragTextStart(e), tx, ty).textY == 0.0
  {
  }

  /** A further update of the same pan at the same translation leaves the
      label where it is. */
  lemma TextDragRepeatStable(e: Editor, c: DragStart, tx: real, ty: real)
    ensures var r := DragTextActive(e, c, tx, ty);
      DragTextActive(r, c, tx, ty) == r
  {
  }

  /** The editor box reports its width. */
  function EditorLaidOut(e: Editor, w: real): Editor {
    e.(editorWidth := w)
  }

  /** The label box reports its size. */
  function TextLaidOut(e: Editor, w: real, h: real): Editor {
    e.(textWidth := w, textHeight := h)
  }

  /** The text input changes the label. The effect keyed on the label then
      copies `measuredTextSize` into the text size; nothing ever sets that
      value, so the size drops to zero until the label is laid out again. */
  function LabelChanged(e: Editor, l: string): (r: Editor)
    ensures r.text == l
    ensures l != e.text ==> r.textWidth == 0.0 && r.textHeight == 0.0
    ensures l == e.text ==> r == e
    ensures r == e.(text := r.text, textWidth := r.textWidth, textHeight := r.textHeight)
  {
    if l == e.text then e else e.(text := l, textWidth := 0.0, textHeight := 0.0)
  }

  /** Typing a different label and then typing the old one back restores the
      label and every position, but not the measured size: the label box is
      0 x 0 until it is laid out again. */
  lemma LabelRoundTripForgetsSize(e: Editor, l: string)
    requires l != e.text
    ensures LabelChanged(LabelChanged(e, l), e.text) == e.(textWidth := 0.0, textHeight := 0.0)
  {
  }

  /** The base image finished loading with natural size `imgW` x `imgH`: it is
      drawn at the editor's width with its aspect ratio kept, and the editor
      takes the same height. */
  function BaseImageLoaded(e: Editor, imgW: real, imgH: real): (r: Editor)
    requires imgW != 0.0
    ensures r.imgHeight.Some? && r.editorHeight == r.imgHeight.value
    ensures r.editorHeight * imgW == e.editorWidth * imgH
    ensures r == e.(imgHeight := r.imgHeight, editorHeight := r.editorHeight)
  {
    var scaled := (e.editorWidth / imgW) * imgH;
    e.(imgHeight := Some(scaled), editorHeight := scaled)
  }

  /** After the base image loads, a label that fits is kept inside the image
      area vertically by every later text pan. */
  lemma TextStaysOverImage(e: Editor, imgW: real, imgH: real, tx: real, ty: real)
    requires imgW != 0.0
    requires BaseImageLoaded(e, imgW, imgH).editorHeight >= e.textHeight
    ensures var l := BaseImageLoaded(e, imgW, imgH);
      var r := DragTextActive(l, DragTextStart(l), tx, ty);
      0.0 <= r.textY && r.textY + r.textHeight <= l.imgHeight.value
  {
  }
}
