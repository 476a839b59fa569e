/**
 * The hexbin scatter chart of src/hex-scatter.ts: the shared scatter
 * geometry on a 1000 x 600 chart with margins 86 (left), 54 (top), 20
 * (right) and 20 (bottom).  This chart has no legend.
 */
module HexScatter {
  import opened Scatter
  import Scale

  const LAYOUT: Layout := Layout(1000.0, 600.0, 86.0, 54.0, 20.0, 20.0)

  /** The y domain is lifted by `range * max(0, 1 - 600 / 1000)`, 40% of the range. */
  lemma Domains(input: Input)
    ensures LiftFraction(LAYOUT) == 0.4
    ensures YDomain(LAYOUT, input).lo == input.offset + 0.4 * input.range
    ensures YDomain(LAYOUT, input).hi == XDomain(input).hi == input.offset + input.range
    ensures input.range >= 0.0 ==> XDomain(input).lo <= YDomain(LAYOUT, input).lo
  {
    assert LAYOUT.height / LAYOUT.width == 0.6;
  }

  /** The x domain `[offset, offset + range]` is drawn onto `[86, 980]`, the y domain onto `[580, 54]`. */
  lemma ScreenRanges(input: Input)
    requires input.range != 0.0
    ensures XScale(LAYOUT, input).Valid() && YScale(LAYOUT, input).Valid()
    ensures XScale(LAYOUT, input).Apply(XDomain(input).lo) == 86.0
    ensures XScale(LAYOUT, input).Apply(XDomain(input).hi) == 980.0
    ensures YScale(LAYOUT, input).Apply(YDomain(LAYOUT, input).lo) == 580.0
    ensures YScale(LAYOUT, input).Apply(YDomain(LAYOUT, input).hi) == 54.0
  {
    Domains(input);
    Scale.Endpoints(XScale(LAYOUT, input));
    Scale.Endpoints(YScale(LAYOUT, input));
  }

  /**
   * A normalised bin of a positive range is drawn between `x = 86` and
   * `x = 980`, and between `y = 54` and `y = 580` exactly when its
   * normalised y is at least 0.4.
   */
  lemma BinOnScreen(input: Input, k: nat)
    requires input.range > 0.0 && k < |input.bins| && Normalised(input.bins[k])
    ensures 86.0 <= Positions(LAYOUT, input)[k].x <= 980.0
    ensures 54.0 <= Positions(LAYOUT, input)[k].y <= 580.0 <==> input.bins[k].center.y >= 0.4
  {
    Domains(input);
    PositionOnScreenX(LAYOUT, input, k);
    PositionOnScreenY(LAYOUT, input, k);
  }

  /** The hexagon of every bin, drawn with radius `WIDTH * input.radius`. */
  method BinHexagon(input: Input, coord: (Trig, nat, real) -> string) returns (path: string)
    requires CoordsPrintable(coord, LAYOUT.width * input.radius)
    ensures |path| >= 2 && path[0] == 'm' && path[|path| - 1] == 'z'
    ensures Split(path[1..|path| - 1], 'l') == Corners(coord, 1000.0 * input.radius)
  {
    path := Hexagon(LAYOUT.width * input.radius, coord);
  }
}
