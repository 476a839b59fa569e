/**
 * The stacked-area chart of src/area.ts: the shared stacking loop under the
 * area chart's rule (truncate the counts to the row count, skip all-zero
 * columns, add `EPS` to the total), its time and percentage domains, and its
 * legend.
 */
module Area {
  import opened Options
  import opened Stacking
  import Scale
  import Legend

  const WIDTH: int := 1000
  const HEIGHT: int := 600
  const MARGIN_LEFT: int := 20
  const MARGIN_TOP: int := 20
  const MARGIN_RIGHT: int := 56
  const MARGIN_BOTTOM: int := 32

  /** The constant added to every column total (`1e-23`). */
  const EPS: real := 1e-23

  /** The rows are the first `min(|legend|, maxKinds)` legend entries. */
  function RowCount(legend: seq<string>, maxKinds: nat): nat {
    Min(|legend|, maxKinds)
  }

  /** Truncate to the row count, skip all-zero columns, total plus `EPS`. */
  function AreaRule(legend: seq<string>, maxKinds: nat): (r: Rule)
    ensures r.keep == RowCount(legend, maxKinds) && r.skipZero && r.eps > 0.0
  {
    Rule(RowCount(legend, maxKinds), true, EPS)
  }

  /** Counts are truncated to the row count, so no column can index past the rows. */
  lemma AlwaysFits(legend: seq<string>, columns: seq<Column>, maxKinds: nat)
    ensures Fits(columns, AreaRule(legend, maxKinds), RowCount(legend, maxKinds))
  {
  }

  /** A column is kept exactly when one of its first `rows` counts is non-zero. */
  lemma KeptIff(legend: seq<string>, c: Column, maxKinds: nat)
    ensures Kept(c, AreaRule(legend, maxKinds)) <==>
      exists k :: 0 <= k < |c.stats| && k < RowCount(legend, maxKinds) && c.stats[k] != 0.0
  {
    var rule := AreaRule(legend, maxKinds);
    var t := Truncated(c, rule);
    if Kept(c, rule) {
      var k :| 0 <= k < |t| && t[k] != 0.0;
      assert c.stats[k] != 0.0;
    }
  }

  /** Non-negative counts make every total at least `EPS`, so every division is defined. */
  lemma NonNegativeCountsDefined(legend: seq<string>, columns: seq<Column>, maxKinds: nat)
    requires forall j :: 0 <= j < |columns| ==> NonNegative(columns[j].stats)
    ensures AllDefined(columns, AreaRule(legend, maxKinds))
  {
    var rule := AreaRule(legend, maxKinds);
    forall j | 0 <= j < |columns| ensures Total(columns[j], rule) >= EPS {
      var t := Truncated(columns[j], rule);
      assert t[..|t|] == t;
      SumPrefixMonotone(t, |t|, |t|);
    }
  }

  /**
   * `Area.start`'s row construction and column loop.  Row `i` is the
   * legend's `i`-th entry and holds its band of each kept column.
   */
  method Rows(legend: seq<string>, columns: seq<Column>, maxKinds: nat) returns (rows: seq<Row>)
    requires AllDefined(columns, AreaRule(legend, maxKinds))
    ensures |rows| == RowCount(legend, maxKinds)
    ensures forall i :: 0 <= i < |rows| ==> rows[i].title == legend[i] && rows[i].index == i
    ensures forall i :: 0 <= i < |rows| ==> rows[i].area == RowArea(columns, AreaRule(legend, maxKinds), i)
  {
    AlwaysFits(legend, columns, maxKinds);
    rows := Stack(legend, columns, maxKinds, AreaRule(legend, maxKinds));
  }

  /** A kept column has a non-zero count within the rows, so it always reaches row 0. */
  lemma KeptReachesRowZero(legend: seq<string>, columns: seq<Column>, maxKinds: nat)
    ensures Covers(columns, AreaRule(legend, maxKinds), 0)
  {
    var rule := AreaRule(legend, maxKinds);
    forall j | 0 <= j < |columns| && Kept(columns[j], rule) ensures 0 < |Truncated(columns[j], rule)| {
      var t := Truncated(columns[j], rule);
      assert !AllZero(t);
    }
  }

  /**
   * When every column has at least as many counts as there are rows, every
   * kept column appends exactly one point to every row: all rows have one
   * point per kept column, the `k`-th from the same column in every row.
   */
  lemma EqualRowLengths(legend: seq<string>, columns: seq<Column>, maxKinds: nat, i: nat)
    requires AllDefined(columns, AreaRule(legend, maxKinds))
    requires forall j :: 0 <= j < |columns| ==> |columns[j].stats| >= RowCount(legend, maxKinds)
    requires i < RowCount(legend, maxKinds)
    ensures |RowArea(columns, AreaRule(legend, maxKinds), i)| == |KeptColumns(columns, AreaRule(legend, maxKinds))|
    ensures forall k :: 0 <= k < |KeptColumns(columns, AreaRule(legend, maxKinds))| ==>
      RowArea(columns, AreaRule(legend, maxKinds), i)[k].updatedAt == KeptColumns(columns, AreaRule(legend, maxKinds))[k].updatedAt
  {
    var rule := AreaRule(legend, maxKinds);
    assert Covers(columns, rule, i);
    RowAreaAt(columns, rule, i);
  }

  /**
   * The top of a kept column with non-negative counts is `sum / (sum + EPS)`,
   * which lies strictly between 0 and 1.
   */
  lemma TopBelowOne(legend: seq<string>, c: Column, maxKinds: nat)
    requires NonNegative(c.stats) && Kept(c, AreaRule(legend, maxKinds))
    ensures Defined(c, AreaRule(legend, maxKinds)) && 0 < |Truncated(c, AreaRule(legend, maxKinds))|
    ensures 0.0 < Band(c, AreaRule(legend, maxKinds), |Truncated(c, AreaRule(legend, maxKinds))| - 1).to < 1.0
  {
    var rule := AreaRule(legend, maxKinds);
    var t := Truncated(c, rule);
    SumPositive(t);
    var s := Sum(t);
    var total := s + EPS;
    BandTop(c, rule);
    var q := s / total;
    assert q * total == s;
    Scale.Scaled(q, 1.0, total);
    Scale.Scaled(q, 0.0, total);
  }

  /** With non-negative counts every band of a kept column is ordered and lies in [0, 1). */
  lemma BandInUnit(legend: seq<string>, c: Column, maxKinds: nat, i: nat)
    requires NonNegative(c.stats) && Kept(c, AreaRule(legend, maxKinds))
    requires i < |Truncated(c, AreaRule(legend, maxKinds))|
    ensures Defined(c, AreaRule(legend, maxKinds))
    ensures 0.0 <= Band(c, AreaRule(legend, maxKinds), i).from <= Band(c, AreaRule(legend, maxKinds), i).to < 1.0
  {
    var rule := AreaRule(legend, maxKinds);
    TopBelowOne(legend, c, maxKinds);
    SumPositive(Truncated(c, rule));
    BandBounds(c, rule, i);
    BandBounds(c, rule, |Truncated(c, rule)| - 1);
  }

  /**
   * The time domain is the extent of row 0: no domain without rows or kept
   * columns, otherwise the earliest and latest timestamp of the kept
   * columns.
   */
  lemma TimeDomain(legend: seq<string>, columns: seq<Column>, maxKinds: nat, rows: seq<Row>)
    requires AllDefined(columns, AreaRule(legend, maxKinds))
    requires |rows| == RowCount(legend, maxKinds)
    requires forall i :: 0 <= i < |rows| ==> rows[i].area == RowArea(columns, AreaRule(legend, maxKinds), i)
    ensures XDomain(rows).None? <==> rows == [] || KeptColumns(columns, AreaRule(legend, maxKinds)) == []
    ensures XDomain(rows).Some? ==>
      forall c :: c in KeptColumns(columns, AreaRule(legend, maxKinds)) ==>
        XDomain(rows).value.0 <= c.updatedAt <= XDomain(rows).value.1
    ensures XDomain(rows).Some? ==>
      exists c :: c in KeptColumns(columns, AreaRule(legend, maxKinds)) && c.updatedAt == XDomain(rows).value.0
    ensures XDomain(rows).Some? ==>
      exists c :: c in KeptColumns(columns, AreaRule(legend, maxKinds)) && c.updatedAt == XDomain(rows).value.1
  {
    if rows != [] {
      var rule := AreaRule(legend, maxKinds);
      var kept := KeptColumns(columns, rule);
      var area := rows[0].area;
      KeptReachesRowZero(legend, columns, maxKinds);
      RowAreaAt(columns, rule, 0);
      ExtentOfColumns(area, kept);
    }
  }

  /** The extent of points taking their timestamps from `cols`, one by one, is the extent of `cols`. */
  lemma {:induction false} ExtentOfColumns(area: seq<Point>, cols: seq<Column>)
    requires |area| == |cols| && forall k :: 0 <= k < |area| ==> area[k].updatedAt == cols[k].updatedAt
    ensures Extent(area).Some? ==> forall c :: c in cols ==> Extent(area).value.0 <= c.updatedAt <= Extent(area).value.1
    ensures Extent(area).Some? ==> exists c :: c in cols && c.updatedAt == Extent(area).value.0
    ensures Extent(area).Some? ==> exists c :: c in cols && c.updatedAt == Extent(area).value.1
  {
    if area != [] {
      var lo, hi := Extent(area).value.0, Extent(area).value.1;
      forall c | c in cols ensures lo <= c.updatedAt <= hi {
        var k :| 0 <= k < |cols| && cols[k] == c;
        assert area[k].updatedAt == c.updatedAt;
      }
      var a :| 0 <= a < |area| && area[a].updatedAt == lo;
      assert cols[a] in cols;
      var b :| 0 <= b < |area| && area[b].updatedAt == hi;
      assert cols[b] in cols;
    }
  }

  /**
   * Counts 3 and 1 at time 1000 followed by an all-zero column at time 2000,
   * legend `["a", "b"]`, at most five kinds: the zero column is skipped, so
   * each row has exactly one point, `[0, 3 / (4 + EPS))` and
   * `[3 / (4 + EPS), 4 / (4 + EPS))`.
   */
  lemma ZeroColumnSkipped()
    ensures AllDefined([Column(1000, [3.0, 1.0]), Column(2000, [0.0, 0.0])], AreaRule(["a", "b"], 5))
    ensures RowArea([Column(1000, [3.0, 1.0]), Column(2000, [0.0, 0.0])], AreaRule(["a", "b"], 5), 0)
         == [Point(1000, 0.0, 3.0 / (4.0 + EPS))]
    ensures RowArea([Column(1000, [3.0, 1.0]), Column(2000, [0.0, 0.0])], AreaRule(["a", "b"], 5), 1)
         == [Point(1000, 3.0 / (4.0 + EPS), 4.0 / (4.0 + EPS))]
  {
    var rule := AreaRule(["a", "b"], 5);
    var c, z := Column(1000, [3.0, 1.0]), Column(2000, [0.0, 0.0]);
    var t := Truncated(c, rule);
    assert t == [3.0, 1.0];
    assert Sum(t) == 4.0 by {
      assert t[..1] == [3.0];
      assert [3.0][..0] == [];
    }
    assert Truncated(z, rule) == [0.0, 0.0];
    assert !Kept(z, rule);
    var total := 4.0 + EPS;
    var sh := Shares(t, total);
    assert sh == [3.0 / total, 1.0 / total];
    assert Sum(sh[..1]) == 3.0 / total by {
      assert sh[..1][..0] == [];
    }
    assert Sum(sh[..2]) == 4.0 / total by {
      assert sh[..2][..1] == sh[..1];
      assert sh[..1][..0] == [];
    }
    assert [c][..0] == [];
    SkippedColumnAddsNothing([c], z, rule, 0);
    SkippedColumnAddsNothing([c], z, rule, 1);
    assert [c] + [z] == [c, z];
  }

  /**
   * `[percentOffset || 0, 1]`: an absent offset falls back to 0.  A present
   * offset is kept as it is: `p || 0` replaces only falsy numbers, and over
   * the reals that is 0 itself (JavaScript's NaN does not arise here).
   */
  function PercentDomain(percentOffset: Option<real>): (r: (real, real))
    ensures r.1 == 1.0
    ensures percentOffset.None? ==> r.0 == 0.0
    ensures percentOffset.Some? ==> r.0 == percentOffset.value
  {
    match percentOffset
    case None => (0.0, 1.0)
    case Some(p) => (p, 1.0)
  }

  /** The percentage scale: the domain onto `[HEIGHT - MARGIN_BOTTOM, MARGIN_TOP]`, upside down. */
  function PercentScale(percentOffset: Option<real>): Scale.Linear {
    var d := PercentDomain(percentOffset);
    Scale.Linear(d.0, d.1, (HEIGHT - MARGIN_BOTTOM) as real, MARGIN_TOP as real)
  }

  /**
   * Without an offset, a share in [0, 1] is drawn between the top and the
   * bottom margin, and a larger share higher up.
   */
  lemma ShareOnScreen(v: real, w: real)
    requires 0.0 <= v <= 1.0 && v <= w <= 1.0
    ensures PercentScale(None).Valid()
    ensures MARGIN_TOP as real <= PercentScale(None).Apply(v) <= (HEIGHT - MARGIN_BOTTOM) as real
    ensures PercentScale(None).Apply(w) <= PercentScale(None).Apply(v)
  {
    var s := PercentScale(None);
    Scale.ApplyFraction(s, v);
    Scale.ApplyFraction(s, w);
    assert s.Apply(v) == 568.0 - 548.0 * v;
    assert s.Apply(w) == 568.0 - 548.0 * w;
  }

  /**
   * The legend panel of `n` rows: 92 wide, `20 n + 8` high, at
   * `(844, 536 - 20 n)`; its right edge is at 936 and its bottom edge at 544
   * whatever `n`, and cell `d` sits `20 d` below the first.
   */
  lemma LegendGeometry(n: nat)
    ensures Legend.Panel(WIDTH, HEIGHT, MARGIN_RIGHT, MARGIN_BOTTOM, n) == Legend.Rect(844, 536 - 20 * n, 92, 20 * n + 8)
    ensures forall d :: 0 <= d < n ==>
      Legend.Swatches(WIDTH, HEIGHT, MARGIN_RIGHT, MARGIN_BOTTOM, n)[d] == Legend.Rect(848, 540 - 20 * n + 20 * d, 20, 20)
  {
  }

  /**
   * The legend labels of the rows `Rows` builds: label `d` reads legend entry
   * `d` and is anchored at `(874, 556 - 20 n + 20 d)`.
   */
  lemma LegendLabels(legend: seq<string>, maxKinds: nat, rows: seq<Row>)
    requires |rows| == RowCount(legend, maxKinds)
    requires forall i :: 0 <= i < |rows| ==> rows[i].title == legend[i]
    ensures var n := |rows|;
      var l := Legend.Labels(WIDTH, HEIGHT, MARGIN_RIGHT, MARGIN_BOTTOM, Titles(rows));
      |l| == n && forall d :: 0 <= d < n ==> l[d] == Legend.Label(874, 556 - 20 * n + 20 * d, legend[d])
  {
  }
}
