/**
 * The integer geometry of the legend panel, shared by the three charts that
 * draw one (src/area.ts, src/key-plot.ts, src/user-scatter.ts).  A panel of
 * `colors` cells is anchored near the bottom-right corner of the chart; its
 * size follows from its content.
 */
module Legend {
  const COLOR_SIZE: int := 20
  const PADDING: int := 4
  /** Room left for a cell's label. */
  const LABEL_WIDTH: int := 64

  datatype Rect = Rect(x: int, y: int, width: int, height: int)

  /** `a` lies within `b`. */
  predicate Inside(a: Rect, b: Rect) {
    b.x <= a.x && a.x + a.width <= b.x + b.width &&
    b.y <= a.y && a.y + a.height <= b.y + b.height
  }

  /**
   * The panel: the translated group's origin with the background rectangle's
   * size.  Its right and bottom edges do not depend on the cell count.
   */
  function Panel(width: int, height: int, marginRight: int, marginBottom: int, colors: nat): (r: Rect)
    ensures r.width == 92 && r.height == 20 * colors + 8
    ensures r.x + r.width == width - marginRight - 8
    ensures r.y + r.height == height - marginBottom - 24
  {
    Rect(width - marginRight - LABEL_WIDTH - COLOR_SIZE - 16,
         height - marginBottom - COLOR_SIZE * colors - 32,
         COLOR_SIZE + LABEL_WIDTH + 2 * PADDING,
         COLOR_SIZE * colors + 2 * PADDING)
  }

  /** The swatch of a cell translated by `offset` inside the padded panel, in chart coordinates. */
  function Swatch(panel: Rect, offset: int): Rect {
    Rect(panel.x + PADDING, panel.y + PADDING + offset, COLOR_SIZE, COLOR_SIZE)
  }

  /**
   * The swatches of a categorical legend, cell `d` translated by `d * 20`:
   * one per cell, each inside the panel, stacked top to bottom without gaps
   * or overlap.
   */
  function Swatches(width: int, height: int, marginRight: int, marginBottom: int, colors: nat): (r: seq<Rect>)
    ensures |r| == colors
    ensures forall d :: 0 <= d < colors ==>
      Inside(r[d], Panel(width, height, marginRight, marginBottom, colors)) &&
      r[d].y == Panel(width, height, marginRight, marginBottom, colors).y + PADDING + COLOR_SIZE * d
    ensures forall d :: 0 <= d < colors - 1 ==> r[d].y + r[d].height == r[d + 1].y
  {
    var panel := Panel(width, height, marginRight, marginBottom, colors);
    seq(colors, d requires 0 <= d < colors => Swatch(panel, d * COLOR_SIZE))
  }

  /** A cell's label: the text anchor in chart coordinates and the text drawn there. */
  datatype Label = Label(x: int, y: int, text: string)

  /**
   * The labels of a categorical legend, one per title: label `d` reads
   * `titles[d]` and is anchored 6 to the right of swatch `d`, its baseline
   * 4 above the swatch's bottom edge, still inside the panel.
   */
  function Labels(width: int, height: int, marginRight: int, marginBottom: int, titles: seq<string>): (r: seq<Label>)
    ensures |r| == |titles|
    ensures forall d :: 0 <= d < |titles| ==> r[d].text == titles[d]
    ensures forall d :: 0 <= d < |titles| ==>
      var s := Swatches(width, height, marginRight, marginBottom, |titles|)[d];
      r[d].x == s.x + s.width + 6 && r[d].y == s.y + s.height - 4
    ensures forall d :: 0 <= d < |titles| ==>
      var panel := Panel(width, height, marginRight, marginBottom, |titles|);
      panel.x < r[d].x < panel.x + panel.width && panel.y < r[d].y < panel.y + panel.height
  {
    var panel := Panel(width, height, marginRight, marginBottom, |titles|);
    seq(|titles|, d requires 0 <= d < |titles| =>
      Label(panel.x + PADDING + COLOR_SIZE + 6, panel.y + PADDING + d * COLOR_SIZE + COLOR_SIZE - 4, titles[d]))
  }
}
