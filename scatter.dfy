/**
 * The data-to-geometry transform shared by the two hexagonal scatter charts
 * (src/user-scatter.ts and src/hex-scatter.ts): rescaling normalised bin
 * centres into the data domain, the x and y domains with the aspect lift,
 * the screen position of each bin, the largest bin value, and the SVG path
 * of one hexagon.
 */
module Scatter {
  import opened Options
  import Scale

  /** A pair of coordinates: a bin centre `[x, y]`, or a position on the chart. */
  datatype Coord = Coord(x: real, y: real)

  /** A bin: a centre (normalised in the input, in data units once rescaled) and a count. */
  datatype Bin = Bin(center: Coord, value: real)

  datatype Input = Input(offset: real, range: real, radius: real, bins: seq<Bin>)

  /** A chart's fixed pixel size and margins. */
  datatype Layout = Layout(width: real, height: real, left: real, top: real, right: real, bottom: real)

  datatype Interval = Interval(lo: real, hi: real)

  predicate Normalised(b: Bin) {
    0.0 <= b.center.x <= 1.0 && 0.0 <= b.center.y <= 1.0
  }

  function RescaleBin(b: Bin, offset: real, range: real): Bin {
    Bin(Coord(b.center.x * range + offset, b.center.y * range + offset), b.value)
  }

  /**
   * `input.bins.map(...)`: a new sequence, one bin per input bin in the same
   * order, with the value kept and each centre coordinate `c * range + offset`.
   */
  function Rescale(input: Input): (r: seq<Bin>)
    ensures |r| == |input.bins|
    ensures forall k :: 0 <= k < |r| ==> r[k].value == input.bins[k].value
  {
    seq(|input.bins|, k requires 0 <= k < |input.bins| => RescaleBin(input.bins[k], input.offset, input.range))
  }

  /** The rescaling loses nothing: the normalised centre is recovered from the data-domain one. */
  lemma RescaleInverse(input: Input, k: nat)
    requires input.range != 0.0 && k < |input.bins|
    ensures (Rescale(input)[k].center.x - input.offset) / input.range == input.bins[k].center.x
    ensures (Rescale(input)[k].center.y - input.offset) / input.range == input.bins[k].center.y
  {
    var c := input.bins[k].center;
    assert Rescale(input)[k].center.x - input.offset == c.x * input.range;
    assert Rescale(input)[k].center.y - input.offset == c.y * input.range;
  }

  /** `[offset, offset + range]`. */
  function XDomain(input: Input): (r: Interval)
    ensures r.hi - r.lo == input.range
  {
    Interval(input.offset, input.offset + input.range)
  }

  /** A normalised bin with a positive range lands inside the x domain on both axes. */
  lemma RescaleInDomain(input: Input, k: nat)
    requires input.range > 0.0 && k < |input.bins| && Normalised(input.bins[k])
    ensures XDomain(input).lo <= Rescale(input)[k].center.x <= XDomain(input).hi
    ensures XDomain(input).lo <= Rescale(input)[k].center.y <= XDomain(input).hi
  {
    var c := input.bins[k].center;
    Scale.BetweenUp(input.offset, input.range, c.x, Rescale(input)[k].center.x);
    Scale.BetweenUp(input.offset, input.range, c.y, Rescale(input)[k].center.y);
  }

  function Max(a: real, b: real): real {
    if a < b then b else a
  }

  /** The fraction of the range by which the y domain is lifted: `max(0, 1 - height / width)`. */
  function LiftFraction(layout: Layout): (f: real)
    requires layout.width > 0.0 && layout.height > 0.0
    ensures 0.0 <= f < 1.0
    ensures f == 0.0 <==> layout.height >= layout.width
  {
    Quotient(layout.height, layout.width);
    Max(0.0, 1.0 - layout.height / layout.width)
  }

  lemma Quotient(h: real, w: real)
    requires h > 0.0 && w > 0.0
    ensures h / w > 0.0
    ensures h / w >= 1.0 <==> h >= w
  {
    assert (h / w) * w == h;
    Scale.Scaled(1.0, h / w, w);
    Scale.Scaled(h / w, 0.0, w);
  }

  /** `[offset + yOff, offset + range]` with `yOff = range * max(0, 1 - height / width)`. */
  function YDomain(layout: Layout, input: Input): (r: Interval)
    requires layout.width > 0.0 && layout.height > 0.0
    ensures r.hi == XDomain(input).hi
    ensures r.lo == input.offset + input.range * LiftFraction(layout)
    ensures input.range >= 0.0 ==> XDomain(input).lo <= r.lo <= r.hi
    ensures input.range > 0.0 ==> r.lo < r.hi
  {
    var f := LiftFraction(layout);
    assert input.range >= 0.0 ==> 0.0 <= input.range * f <= input.range by {
      if input.range >= 0.0 {
        Scale.Scaled(f, 1.0, 1.0);
        assert input.range * f <= input.range * 1.0;
      }
    }
    Interval(input.offset + input.range * f, input.offset + input.range)
  }

  function XScale(layout: Layout, input: Input): Scale.Linear {
    Scale.Linear(input.offset, input.offset + input.range, layout.left, layout.width - layout.right)
  }

  function YScale(layout: Layout, input: Input): Scale.Linear
    requires layout.width > 0.0 && layout.height > 0.0
  {
    var y := YDomain(layout, input);
    Scale.Linear(y.lo, y.hi, layout.height - layout.bottom, layout.top)
  }

  /** Both scales are non-degenerate for a positive range. */
  predicate Drawable(layout: Layout, input: Input) {
    layout.width > 0.0 && layout.height > 0.0 && input.range > 0.0
  }

  /**
   * `translate(x(d.center[0]), y(d.center[1]))` of every rescaled bin, in
   * input order.
   */
  function Positions(layout: Layout, input: Input): (r: seq<Coord>)
    requires Drawable(layout, input)
    ensures |r| == |input.bins|
  {
    var bins := Rescale(input);
    var xs, ys := XScale(layout, input), YScale(layout, input);
    assert xs.Valid() && ys.Valid();
    seq(|bins|, k requires 0 <= k < |bins| => Coord(xs.Apply(bins[k].center.x), ys.Apply(bins[k].center.y)))
  }

  /** A normalised bin is drawn between the left and right margins. */
  lemma PositionOnScreenX(layout: Layout, input: Input, k: nat)
    requires Drawable(layout, input) && k < |input.bins| && Normalised(input.bins[k])
    requires layout.left < layout.width - layout.right
    ensures WithinX(layout, Positions(layout, input)[k].x)
  {
    var c := input.bins[k].center.x;
    var r0, r1 := layout.left, layout.width - layout.right;
    PositionAt(layout, input, k);
    var v := Positions(layout, input)[k].x;
    ScreenX(input.offset, input.range, r0, r1, c, v);
    Scale.BetweenUp(r0, r1 - r0, c, v);
  }

  /**
   * A normalised bin is drawn between the top and bottom margins exactly
   * when its normalised y is at least the lift fraction: the lower part of
   * the range falls below the plot.
   */
  lemma PositionOnScreenY(layout: Layout, input: Input, k: nat)
    requires Drawable(layout, input) && k < |input.bins| && Normalised(input.bins[k])
    requires layout.top < layout.height - layout.bottom
    ensures WithinY(layout, Positions(layout, input)[k].y) <==> input.bins[k].center.y >= LiftFraction(layout)
  {
    var c, f := input.bins[k].center.y, LiftFraction(layout);
    var r0, r1 := layout.height - layout.bottom, layout.top;
    var t := (c - f) / (1.0 - f);
    PositionAt(layout, input, k);
    var v := Positions(layout, input)[k].y;
    ScreenY(input.offset, input.range, f, r0, r1, c, v);
    Scale.BetweenDown(r0, r1 - r0, t, v);
    TFraction(c, f, t);
  }

  /** Between the left and right margins. */
  predicate WithinX(layout: Layout, x: real) {
    layout.left <= x <= layout.width - layout.right
  }

  /** Between the top and bottom margins. */
  predicate WithinY(layout: Layout, y: real) {
    layout.top <= y <= layout.height - layout.bottom
  }

  /** The position of bin `k` is the two scales applied to its rescaled centre. */
  lemma PositionAt(layout: Layout, input: Input, k: nat)
    requires Drawable(layout, input) && k < |input.bins|
    ensures XScale(layout, input).Valid() && YScale(layout, input).Valid()
    ensures Positions(layout, input)[k] ==
      Coord(XScale(layout, input).Apply(input.bins[k].center.x * input.range + input.offset),
       YScale(layout, input).Apply(input.bins[k].center.y * input.range + input.offset))
  {
    var xs, ys := XScale(layout, input), YScale(layout, input);
    var b := Rescale(input)[k];
    assert b.center.x == input.bins[k].center.x * input.range + input.offset;
    assert b.center.y == input.bins[k].center.y * input.range + input.offset;
    assert Positions(layout, input)[k] == Coord(xs.Apply(b.center.x), ys.Apply(b.center.y));
  }

  /** x: the rescaled coordinate of `c` lies the fraction `c` along the x range. */
  lemma ScreenX(o: real, R: real, r0: real, r1: real, c: real, v: real)
    requires R != 0.0 && v == Scale.Linear(o, o + R, r0, r1).Apply(c * R + o)
    ensures v == r0 + c * (r1 - r0)
  {
    Along(o, R, c);
    Scale.ApplyFraction(Scale.Linear(o, o + R, r0, r1), c);
  }

  lemma Along(o: real, R: real, c: real)
    ensures c * R + o == o + c * ((o + R) - o)
  {
    assert (o + R) - o == R;
  }

  /**
   * y: the rescaled coordinate of `c` lies the fraction `(c - f) / (1 - f)`
   * along the y range, the domain being lifted by the fraction `f`.
   */
  lemma ScreenY(o: real, R: real, f: real, r0: real, r1: real, c: real, v: real)
    requires R != 0.0 && f < 1.0 && v == Scale.Linear(o + R * f, o + R, r0, r1).Apply(c * R + o)
    ensures v == r0 + (c - f) / (1.0 - f) * (r1 - r0)
  {
    var t := (c - f) / (1.0 - f);
    LiftedPoint(o, R, f, c, t);
    Scale.ApplyFraction(Scale.Linear(o + R * f, o + R, r0, r1), t);
  }

  /** The coordinate `c * R + o` lies the fraction `t = (c - f) / (1 - f)` along `[o + R f, o + R]`. */
  lemma LiftedPoint(o: real, R: real, f: real, c: real, t: real)
    requires f < 1.0 && t == (c - f) / (1.0 - f)
    ensures c * R + o == (o + R * f) + t * ((o + R) - (o + R * f))
  {
    var w := 1.0 - f;
    assert t * w == c - f;
    assert (o + R) - (o + R * f) == R * w;
    assert t * (R * w) == R * (t * w);
  }

  lemma TFraction(c: real, f: real, t: real)
    requires 0.0 <= f < 1.0 && c <= 1.0 && t == (c - f) / (1.0 - f)
    ensures t <= 1.0 && (0.0 <= t <==> f <= c)
  {
    var w := 1.0 - f;
    var p := t * w;
    assert p == c - f;
    Scale.Scaled(0.0, t, w);
    Scale.Scaled(t, 1.0, w);
    assert 1.0 * w == w && 0.0 * w == 0.0;
    assert 0.0 <= t <==> 0.0 <= p;
    assert t <= 1.0 <==> p <= w;
  }

  /** `d3.max(bins, (bin) => bin.value)`: `None` for no bins, otherwise the largest value. */
  function MaxValue(bins: seq<Bin>): (r: Option<real>)
    ensures r.None? <==> bins == []
    ensures r.Some? ==> forall k :: 0 <= k < |bins| ==> bins[k].value <= r.value
    ensures r.Some? ==> exists k :: 0 <= k < |bins| && bins[k].value == r.value
  {
    if bins == [] then None
    else
      var v := bins[|bins| - 1].value;
      match MaxValue(bins[..|bins| - 1])
      case None => Some(v)
      case Some(m) => Some(Max(m, v))
  }

  // ---------------------------------------------------------------------
  // The hexagon path

  datatype Trig = Sin | Cos

  /**
   * The printed form of a JavaScript number: no path command letter and no
   * comma can occur in it.
   */
  predicate NumberText(t: string) {
    forall k :: 0 <= k < |t| ==> t[k] != 'm' && t[k] != 'l' && t[k] != 'z' && t[k] != ','
  }

  /**
   * The printed pair of corner `k`: `coord(Sin, k, r)` stands for the text of
   * `Math.sin(k * Math.PI / 3) * r` and `coord(Cos, k, r)` for the cosine.
   */
  function CornerText(coord: (Trig, nat, real) -> string, k: nat, radius: real): string {
    coord(Sin, k, radius) + "," + coord(Cos, k, radius)
  }

  predicate CoordsPrintable(coord: (Trig, nat, real) -> string, radius: real) {
    forall k :: 0 <= k < 6 ==> NumberText(coord(Sin, k, radius)) && NumberText(coord(Cos, k, radius))
  }

  /** `xs.join(sep)`. */
  function Join(xs: seq<string>, sep: char): string {
    if |xs| == 0 then ""
    else if |xs| == 1 then xs[0]
    else xs[0] + [sep] + Join(xs[1..], sep)
  }

  function FirstIndex(s: string, c: char): (i: nat)
    requires c in s
    ensures i < |s| && s[i] == c
    ensures forall j :: 0 <= j < i ==> s[j] != c
  {
    if s[0] == c then 0 else 1 + FirstIndex(s[1..], c)
  }

  /** Reads a string back as the pieces between its separators. */
  function Split(s: string, sep: char): (r: seq<string>)
    ensures |r| >= 1
    decreases |s|
  {
    if sep in s then
      var i := FirstIndex(s, sep);
      [s[..i]] + Split(s[i + 1..], sep)
    else
      [s]
  }

  /** Joining pieces that do not contain the separator can be undone by splitting. */
  lemma {:induction false} SplitJoin(xs: seq<string>, sep: char)
    requires |xs| >= 1
    requires forall k :: 0 <= k < |xs| ==> sep !in xs[k]
    ensures Split(Join(xs, sep), sep) == xs
  {
    if |xs| > 1 {
      SplitJoin(xs[1..], sep);
      SplitCons(xs[0], sep, Join(xs[1..], sep));
      assert xs == [xs[0]] + xs[1..];
    }
  }

  /** Splitting stops at the first separator. */
  lemma SplitCons(a: string, sep: char, b: string)
    requires sep !in a
    ensures Split(a + [sep] + b, sep) == [a] + Split(b, sep)
  {
    var s := a + [sep] + b;
    assert s[|a|] == sep;
    assert forall j :: 0 <= j < |a| ==> s[j] == a[j];
    var i := FirstIndex(s, sep);
    assert i == |a|;
    assert s[..i] == a;
    assert s[i + 1..] == b;
  }

  /** The six corner pairs, corner `k` at angle `k * PI / 3`. */
  function Corners(coord: (Trig, nat, real) -> string, radius: real): (r: seq<string>)
    ensures |r| == 6
  {
    seq(6, k requires 0 <= k < 6 => CornerText(coord, k, radius))
  }

  /**
   * `hexagon(radius)`: `'m'`, the six corner pairs joined by `'l'`, then
   * `'z'`.  Read back, the path yields exactly the six corners in order, and
   * each corner its sine and cosine coordinate.
   */
  method Hexagon(radius: real, coord: (Trig, nat, real) -> string) returns (path: string)
    requires CoordsPrintable(coord, radius)
    ensures |path| >= 2 && path[0] == 'm' && path[|path| - 1] == 'z'
    ensures Split(path[1..|path| - 1], 'l') == Corners(coord, radius)
    ensures forall k :: 0 <= k < 6 ==>
      Split(Split(path[1..|path| - 1], 'l')[k], ',') == [coord(Sin, k, radius), coord(Cos, k, radius)]
  {
    var points: seq<string> := [];
    for corner := 0 to 6
      invariant |points| == corner
      invariant forall k :: 0 <= k < corner ==> points[k] == CornerText(coord, k, radius)
    {
      points := points + [CornerText(coord, corner, radius)];
    }
    var body := Join(points, 'l');
    path := "m" + body + "z";
    assert path[1..|path| - 1] == body;
    assert points == Corners(coord, radius);
    forall k | 0 <= k < 6 ensures 'l' !in points[k] && Split(points[k], ',') == [coord(Sin, k, radius), coord(Cos, k, radius)] {
      var a, b := coord(Sin, k, radius), coord(Cos, k, radius);
      assert points[k] == a + [','] + b;
      NoSeparator(a, 'l');
      NoSeparator(b, 'l');
      NoSeparator(a, ',');
      NoSeparator(b, ',');
      assert Join([a, b], ',') == points[k];
      SplitJoin([a, b], ',');
    }
    SplitJoin(points, 'l');
  }

  lemma NoSeparator(t: string, sep: char)
    requires NumberText(t) && (sep == 'l' || sep == ',')
    ensures sep !in t
  {
    assert forall k :: 0 <= k < |t| ==> t[k] != sep;
  }
}
