/**
 * The user scatter chart of src/user-scatter.ts: the shared scatter
 * geometry on a 1000 x 600 chart with margins 36 (left), 36 (top), 56
 * (right) and 20 (bottom), and its ten-colour value legend.
 */
module UserScatter {
  import opened Scatter
  import Scale
  import Legend

  const LAYOUT: Layout := Layout(1000.0, 600.0, 36.0, 36.0, 56.0, 20.0)

  /** The value legend has ten colour steps. */
  const LEGEND_COLORS: nat := 10

  /** On a 1000 x 600 chart the y domain is lifted by 40% of the range. */
  lemma Domains(input: Input)
    ensures LiftFraction(LAYOUT) == 0.4
    ensures YDomain(LAYOUT, input).lo == input.offset + 0.4 * input.range
    ensures YDomain(LAYOUT, input).hi == XDomain(input).hi == input.offset + input.range
    ensures XDomain(input).lo == input.offset
    ensures input.range >= 0.0 ==> input.offset <= YDomain(LAYOUT, input).lo
  {
    assert LAYOUT.height / LAYOUT.width == 0.6;
  }

  /**
   * The x domain is drawn from the left margin to `WIDTH - right`, and the y
   * domain from the bottom margin up to the top margin.
   */
  lemma ScreenRanges(input: Input)
    requires input.range != 0.0
    ensures XScale(LAYOUT, input).Valid() && YScale(LAYOUT, input).Valid()
    ensures XScale(LAYOUT, input).Apply(input.offset) == 36.0
    ensures XScale(LAYOUT, input).Apply(input.offset + input.range) == 944.0
    ensures YScale(LAYOUT, input).Apply(input.offset + 0.4 * input.range) == 580.0
    ensures YScale(LAYOUT, input).Apply(input.offset + input.range) == 36.0
  {
    Domains(input);
    Scale.Endpoints(XScale(LAYOUT, input));
    Scale.Endpoints(YScale(LAYOUT, input));
  }

  /**
   * A normalised bin of a positive range is drawn between the left and right
   * margins, and between the top and bottom margins exactly when its
   * normalised y is at least 0.4.
   */
  lemma BinOnScreen(input: Input, k: nat)
    requires input.range > 0.0 && k < |input.bins| && Normalised(input.bins[k])
    ensures 36.0 <= Positions(LAYOUT, input)[k].x <= 944.0
    ensures 36.0 <= Positions(LAYOUT, input)[k].y <= 580.0 <==> input.bins[k].center.y >= 0.4
  {
    Domains(input);
    PositionOnScreenX(LAYOUT, input, k);
    PositionOnScreenY(LAYOUT, input, k);
  }

  /** The legend panel: 92 x 208 at (844, 348); its right edge is at 936 and its bottom edge at 556. */
  lemma LegendPanel()
    ensures Legend.Panel(1000, 600, 56, 20, LEGEND_COLORS) == Legend.Rect(844, 348, 92, 208)
  {
  }

  /** The vertical offset of the legend cell of sample `d`: `d * 20 * 9`. */
  function SampleOffset(d: real): (r: real)
    ensures 0.0 <= d <= 1.0 ==> 0.0 <= r <= 180.0
  {
    d * (Legend.COLOR_SIZE * (LEGEND_COLORS - 1)) as real
  }

  /**
   * The cell of every sample in [0, 1] lies inside the legend panel, and a
   * larger sample sits lower.
   */
  lemma SampleInPanel(d: real, e: real)
    requires 0.0 <= d <= e <= 1.0
    ensures var panel := Legend.Panel(1000, 600, 56, 20, LEGEND_COLORS);
      panel.y as real <= panel.y as real + Legend.PADDING as real + SampleOffset(d) &&
      panel.y as real + Legend.PADDING as real + SampleOffset(d) + Legend.COLOR_SIZE as real <= (panel.y + panel.height) as real
    ensures SampleOffset(d) <= SampleOffset(e)
  {
  }

  /** The hexagon of every bin, drawn with radius `WIDTH * input.radius`. */
  method BinHexagon(input: Input, coord: (Trig, nat, real) -> string) returns (path: string)
    requires CoordsPrintable(coord, LAYOUT.width * input.radius)
    ensures |path| >= 2 && path[0] == 'm' && path[|path| - 1] == 'z'
    ensures Split(path[1..|path| - 1], 'l') == Corners(coord, 1000.0 * input.radius)
  {
    path := Hexagon(LAYOUT.width * input.radius, coord);
  }
}
