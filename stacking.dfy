/**
 * The percentage-stacking loop shared by the two stacked-area charts
 * (src/area.ts and src/key-plot.ts).
 *
 * The input is a legend and a sequence of columns, each a timestamp with one
 * count per category.  The retained categories become rows; every column that
 * is not skipped contributes one band `[from, to)` to each row its truncated
 * count vector reaches, the bands of one column piling up in legend order.
 *
 * The two charts differ only in a `Rule`: how far the counts are truncated,
 * whether all-zero columns are skipped, and the constant added to the total.
 * Counts and shares are exact reals.
 */
module Stacking {
  import opened Options

  /** One band of one row: `{ updatedAt, from, to }`. */
  datatype Point = Point(updatedAt: int, from: real, to: real)

  /** One retained category: `{ title, index, area }`. */
  datatype Row = Row(title: string, index: nat, area: seq<Point>)

  /** One input column `[ timestamp, counts ]`. */
  datatype Column = Column(updatedAt: int, stats: seq<real>)

  /**
   * How a chart stacks: counts are truncated to `keep` entries, columns
   * whose truncated counts are all zero are skipped when `skipZero` holds,
   * and the total is the sum of the truncated counts plus `eps`.
   */
  datatype Rule = Rule(keep: nat, skipZero: bool, eps: real)

  function Min(a: nat, b: nat): nat {
    if a <= b then a else b
  }

  /** `s.slice(0, n)`. */
  function Take(s: seq<real>, n: nat): (r: seq<real>)
    ensures |r| == Min(|s|, n)
    ensures forall k :: 0 <= k < |r| ==> r[k] == s[k]
  {
    if |s| <= n then s else s[..n]
  }

  /** `d3.sum`: the left-to-right sum. */
  function Sum(s: seq<real>): real {
    if s == [] then 0.0 else Sum(s[..|s| - 1]) + s[|s| - 1]
  }

  /** `!s.some((x) => x !== 0)`. */
  predicate AllZero(s: seq<real>) {
    forall k :: 0 <= k < |s| ==> s[k] == 0.0
  }

  predicate NonNegative(s: seq<real>) {
    forall k :: 0 <= k < |s| ==> s[k] >= 0.0
  }

  /** `stats.map((value) => value / total)`. */
  function Shares(s: seq<real>, total: real): (r: seq<real>)
    requires s != [] ==> total != 0.0
    ensures |r| == |s|
  {
    seq(|s|, k requires 0 <= k < |s| => s[k] / total)
  }

  function Truncated(c: Column, rule: Rule): seq<real> {
    Take(c.stats, rule.keep)
  }

  function Total(c: Column, rule: Rule): real {
    Sum(Truncated(c, rule)) + rule.eps
  }

  /** The column adds points: it is not skipped. */
  predicate Kept(c: Column, rule: Rule) {
    !rule.skipZero || !AllZero(Truncated(c, rule))
  }

  /**
   * The division by the total is defined wherever the loop performs it: a
   * kept column with at least one truncated count has a non-zero total.  A
   * column with no counts divides nothing.
   */
  predicate Defined(c: Column, rule: Rule) {
    Kept(c, rule) && Truncated(c, rule) != [] ==> Total(c, rule) != 0.0
  }

  predicate AllDefined(cols: seq<Column>, rule: Rule) {
    forall j :: 0 <= j < |cols| ==> Defined(cols[j], rule)
  }

  /** Every kept column's truncated counts index existing rows only. */
  predicate Fits(cols: seq<Column>, rule: Rule, rows: nat) {
    forall j :: 0 <= j < |cols| ==> Kept(cols[j], rule) ==> |Truncated(cols[j], rule)| <= rows
  }

  /** Every kept column reaches row `i`. */
  predicate Covers(cols: seq<Column>, rule: Rule, i: nat) {
    forall j :: 0 <= j < |cols| ==> Kept(cols[j], rule) ==> i < |Truncated(cols[j], rule)|
  }

  /** The band a kept column gives row `i`: the running sum of the shares before and through `i`. */
  function Band(c: Column, rule: Rule, i: nat): Point
    requires Defined(c, rule) && Kept(c, rule) && i < |Truncated(c, rule)|
  {
    var sh := Shares(Truncated(c, rule), Total(c, rule));
    Point(c.updatedAt, Sum(sh[..i]), Sum(sh[..i + 1]))
  }

  /** What one column appends to row `i`. */
  function Points(c: Column, rule: Rule, i: nat): seq<Point>
    requires Defined(c, rule)
  {
    if Kept(c, rule) && i < |Truncated(c, rule)| then [Band(c, rule, i)] else []
  }

  /** Reference definition, row by row: the area of row `i` after the columns `cols`. */
  function RowArea(cols: seq<Column>, rule: Rule, i: nat): seq<Point>
    requires AllDefined(cols, rule)
  {
    if cols == [] then []
    else RowArea(cols[..|cols| - 1], rule, i) + Points(cols[|cols| - 1], rule, i)
  }

  /** The rows' titles, in row order. */
  function Titles(rows: seq<Row>): (r: seq<string>)
    ensures |r| == |rows| && forall i :: 0 <= i < |rows| ==> r[i] == rows[i].title
  {
    seq(|rows|, i requires 0 <= i < |rows| => rows[i].title)
  }

  /** The columns that are not skipped, in input order. */
  function KeptColumns(cols: seq<Column>, rule: Rule): (r: seq<Column>)
    ensures |r| <= |cols|
    ensures forall c :: c in r <==> c in cols && Kept(c, rule)
  {
    if cols == [] then []
    else
      var last := cols[|cols| - 1];
      KeptColumns(cols[..|cols| - 1], rule) + (if Kept(last, rule) then [last] else [])
  }

  /**
   * `d3.extent(area, (p) => p.updatedAt)`: the earliest and the latest
   * timestamp of a row, `None` when the row has no points.
   */
  function Extent(area: seq<Point>): (r: Option<(int, int)>)
    ensures r.None? <==> area == []
    ensures r.Some? ==> forall k :: 0 <= k < |area| ==> r.value.0 <= area[k].updatedAt <= r.value.1
    ensures r.Some? ==> exists k :: 0 <= k < |area| && area[k].updatedAt == r.value.0
    ensures r.Some? ==> exists k :: 0 <= k < |area| && area[k].updatedAt == r.value.1
  {
    if area == [] then None
    else
      var t := area[|area| - 1].updatedAt;
      match Extent(area[..|area| - 1])
      case None => Some((t, t))
      case Some((lo, hi)) =>
        Some((if t < lo then t else lo, if t > hi then t else hi))
  }

  /** The time domain of a chart: the extent of row 0, `None` when there is no row 0 or it is empty. */
  function XDomain(rows: seq<Row>): Option<(int, int)> {
    if rows == [] then None else Extent(rows[0].area)
  }

  /**
   * The stacking loop.  Rows are the first `Min(|legend|, maxKinds)` legend
   * entries, each with an empty area; then every column is pushed onto them
   * in input order.
   */
  method Stack(legend: seq<string>, columns: seq<Column>, maxKinds: nat, rule: Rule)
    returns (rows: seq<Row>)
    requires AllDefined(columns, rule)
    requires Fits(columns, rule, Min(|legend|, maxKinds))
    ensures |rows| == Min(|legend|, maxKinds)
    ensures forall i :: 0 <= i < |rows| ==> rows[i].title == legend[i] && rows[i].index == i
    ensures forall i :: 0 <= i < |rows| ==> rows[i].area == RowArea(columns, rule, i)
  {
    var n := Min(|legend|, maxKinds);
    rows := seq(n, i requires 0 <= i < n => Row(legend[i], i, []));
    for j := 0 to |columns|
      invariant |rows| == n
      invariant forall i :: 0 <= i < n ==> rows[i].title == legend[i] && rows[i].index == i
      invariant forall i :: 0 <= i < n ==> rows[i].area == RowArea(columns[..j], rule, i)
    {
      rows := PushColumn(rows, columns[j], rule);
      forall i | 0 <= i < n
        ensures rows[i].area == RowArea(columns[..j + 1], rule, i)
      {
        RowAreaStep(columns, rule, j, i);
      }
    }
    assert columns[..|columns|] == columns;
  }

  /**
   * One iteration of the column loop: truncate, skip an all-zero column when
   * the rule says so, otherwise divide by the total and push the running sum
   * onto the rows in legend order.
   */
  method PushColumn(rows0: seq<Row>, c: Column, rule: Rule) returns (rows: seq<Row>)
    requires Defined(c, rule)
    requires Kept(c, rule) ==> |Truncated(c, rule)| <= |rows0|
    ensures |rows| == |rows0|
    ensures forall k :: 0 <= k < |rows| ==>
      rows[k] == rows0[k].(area := rows0[k].area + Points(c, rule, k))
  {
    rows := rows0;
    var stats := Take(c.stats, rule.keep);
    if rule.skipZero && AllZero(stats) {
      return;
    }
    var total := Sum(stats) + rule.eps;
    var percents := Shares(stats, total);
    var prev := 0.0;
    for i := 0 to |percents|
      invariant |rows| == |rows0|
      invariant prev == Sum(percents[..i])
      invariant forall k :: 0 <= k < i ==> rows[k] == rows0[k].(area := rows0[k].area + [Band(c, rule, k)])
      invariant forall k :: i <= k < |rows| ==> rows[k] == rows0[k]
    {
      SumSnoc(percents, i);
      var next := prev + percents[i];
      rows := rows[i := rows[i].(area := rows[i].area + [Point(c.updatedAt, prev, next)])];
      prev := next;
    }
  }

  lemma RowAreaStep(cols: seq<Column>, rule: Rule, j: nat, i: nat)
    requires AllDefined(cols, rule) && j < |cols|
    ensures RowArea(cols[..j + 1], rule, i) == RowArea(cols[..j], rule, i) + Points(cols[j], rule, i)
  {
    assert cols[..j + 1][..j] == cols[..j];
  }

  lemma SumSnoc(s: seq<real>, i: nat)
    requires i < |s|
    ensures Sum(s[..i + 1]) == Sum(s[..i]) + s[i]
  {
    assert s[..i + 1][..i] == s[..i];
  }

  lemma {:induction false} SumShares(s: seq<real>, t: real)
    requires t != 0.0
    ensures Sum(Shares(s, t)) == Sum(s) / t
  {
    if s != [] {
      var n := |s| - 1;
      assert Shares(s, t)[..n] == Shares(s[..n], t);
      SumShares(s[..n], t);
    }
  }

  /** Prefix sums of non-negative numbers are non-negative and grow with the prefix. */
  lemma {:induction false} SumPrefixMonotone(s: seq<real>, i: nat, j: nat)
    requires NonNegative(s) && i <= j <= |s|
    ensures 0.0 <= Sum(s[..i]) <= Sum(s[..j])
    decreases i + j
  {
    if i < j {
      SumPrefixMonotone(s, i, j - 1);
      SumSnoc(s, j - 1);
    } else if 0 < i {
      SumPrefixMonotone(s, i - 1, i - 1);
      SumSnoc(s, i - 1);
    }
  }

  /** A non-negative vector that is not all zero has a positive sum. */
  lemma {:induction false} SumPositive(s: seq<real>)
    requires NonNegative(s) && !AllZero(s)
    ensures Sum(s) > 0.0
  {
    var n := |s| - 1;
    assert s[..n + 1] == s;
    SumSnoc(s, n);
    SumPrefixMonotone(s, n, n);
    if s[n] == 0.0 {
      assert !AllZero(s[..n]);
      SumPositive(s[..n]);
    }
  }

  /** The width of a band is the row's count over the column total. */
  lemma BandWidth(c: Column, rule: Rule, i: nat)
    requires Defined(c, rule) && Kept(c, rule) && i < |Truncated(c, rule)|
    ensures Band(c, rule, i).to - Band(c, rule, i).from == Truncated(c, rule)[i] / Total(c, rule)
  {
    SumSnoc(Shares(Truncated(c, rule), Total(c, rule)), i);
  }

  /** The top of a column's last band is the truncated sum over the total. */
  lemma BandTop(c: Column, rule: Rule)
    requires Defined(c, rule) && Kept(c, rule) && 0 < |Truncated(c, rule)|
    ensures Band(c, rule, |Truncated(c, rule)| - 1).to == Sum(Truncated(c, rule)) / Total(c, rule)
  {
    var sh := Shares(Truncated(c, rule), Total(c, rule));
    assert sh[..|sh|] == sh;
    SumShares(Truncated(c, rule), Total(c, rule));
  }

  /**
   * With non-negative counts, a non-negative `eps` and a positive total, each
   * band is ordered and lies in the unit interval, below the column's top.
   */
  lemma BandBounds(c: Column, rule: Rule, i: nat)
    requires Kept(c, rule) && i < |Truncated(c, rule)|
    requires NonNegative(Truncated(c, rule)) && rule.eps >= 0.0 && Total(c, rule) > 0.0
    ensures 0.0 <= Band(c, rule, i).from <= Band(c, rule, i).to <= Sum(Truncated(c, rule)) / Total(c, rule) <= 1.0
  {
    var s, t := Truncated(c, rule), Total(c, rule);
    var sh := Shares(s, t);
    assert NonNegative(sh) by {
      forall k | 0 <= k < |sh| ensures sh[k] >= 0.0 {
        assert sh[k] == s[k] / t;
      }
    }
    SumPrefixMonotone(sh, i, i + 1);
    SumPrefixMonotone(sh, i + 1, |sh|);
    assert sh[..|sh|] == sh;
    SumShares(s, t);
    SumPrefixMonotone(s, |s|, |s|);
    assert s[..|s|] == s;
  }

  /** Point `k` of row `i` is row `i`'s band of the `k`-th kept column, when every kept column reaches row `i`. */
  lemma {:induction false} RowAreaAt(cols: seq<Column>, rule: Rule, i: nat)
    requires AllDefined(cols, rule) && Covers(cols, rule, i)
    ensures |RowArea(cols, rule, i)| == |KeptColumns(cols, rule)|
    ensures forall k :: 0 <= k < |KeptColumns(cols, rule)| ==>
      KeptColumns(cols, rule)[k] in cols && Kept(KeptColumns(cols, rule)[k], rule) &&
      RowArea(cols, rule, i)[k] == Band(KeptColumns(cols, rule)[k], rule, i)
  {
    if cols != [] {
      var n := |cols| - 1;
      var init := cols[..n];
      RowAreaAt(init, rule, i);
      assert forall k :: 0 <= k < |KeptColumns(init, rule)| ==> KeptColumns(init, rule)[k] in cols;
    }
  }

  /**
   * Bands are contiguous in legend order: where every kept column reaches
   * row `i + 1`, the rows `i` and `i + 1` have equally many points, the
   * `k`-th of each from the same column, and row `i + 1` starts where row
   * `i` ends.  Row 0 starts at 0.
   */
  lemma RowsContiguous(cols: seq<Column>, rule: Rule, i: nat)
    requires AllDefined(cols, rule) && Covers(cols, rule, i + 1)
    ensures |RowArea(cols, rule, i + 1)| == |RowArea(cols, rule, i)|
    ensures forall k :: 0 <= k < |RowArea(cols, rule, i)| ==>
      RowArea(cols, rule, i + 1)[k].updatedAt == RowArea(cols, rule, i)[k].updatedAt &&
      RowArea(cols, rule, i + 1)[k].from == RowArea(cols, rule, i)[k].to
    ensures forall k :: 0 <= k < |RowArea(cols, rule, 0)| ==> RowArea(cols, rule, 0)[k].from == 0.0
  {
    RowAreaAt(cols, rule, i);
    RowAreaAt(cols, rule, i + 1);
    RowAreaAt(cols, rule, 0);
  }

  /**
   * Whether or not the columns reach row `i`, every point of row `i` is
   * row `i`'s band of some kept column that reaches it.
   */
  lemma {:induction false} RowAreaFrom(cols: seq<Column>, rule: Rule, i: nat, k: nat)
    requires AllDefined(cols, rule) && k < |RowArea(cols, rule, i)|
    ensures exists j ::
              && 0 <= j < |cols| && Kept(cols[j], rule) && i < |Truncated(cols[j], rule)|
              && RowArea(cols, rule, i)[k] == Band(cols[j], rule, i)
  {
    var n := |cols| - 1;
    if k < |RowArea(cols[..n], rule, i)| {
      RowAreaFrom(cols[..n], rule, i, k);
      var j :| 0 <= j < n && Kept(cols[..n][j], rule) && i < |Truncated(cols[..n][j], rule)| &&
        RowArea(cols[..n], rule, i)[k] == Band(cols[..n][j], rule, i);
      assert cols[..n][j] == cols[j];
    } else {
      assert RowArea(cols, rule, i)[k] == Band(cols[n], rule, i);
    }
  }

  /** Under a rule that never skips, every column is kept. */
  lemma {:induction false} NoSkipKeepsAll(cols: seq<Column>, rule: Rule)
    requires !rule.skipZero
    ensures KeptColumns(cols, rule) == cols
  {
    if cols != [] {
      var n := |cols| - 1;
      NoSkipKeepsAll(cols[..n], rule);
      assert cols[..n] + [cols[n]] == cols;
    }
  }

  /** A column that is skipped appends nothing to any row. */
  lemma SkippedColumnAddsNothing(cols: seq<Column>, c: Column, rule: Rule, i: nat)
    requires AllDefined(cols, rule) && !Kept(c, rule)
    ensures AllDefined(cols + [c], rule)
    ensures RowArea(cols + [c], rule, i) == RowArea(cols, rule, i)
    ensures KeptColumns(cols + [c], rule) == KeptColumns(cols, rule)
  {
    assert (cols + [c])[..|cols|] == cols;
  }
}
