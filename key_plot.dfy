/**
 * The key-type chart of src/key-plot.ts: the shared stacking loop under the
 * key chart's rule (truncate the counts to `MAX_KINDS`, never skip, divide by
 * the bare sum), and its legend.
 */
module KeyPlot {
  import opened Stacking
  import Legend

  const WIDTH: int := 1000
  const HEIGHT: int := 600
  const MARGIN_RIGHT: int := 56
  const MARGIN_BOTTOM: int := 32

  /** At most five key kinds are charted. */
  const MAX_KINDS: nat := 5

  /** Truncate to `MAX_KINDS`, keep every column, total without any added constant. */
  const KEY_RULE: Rule := Rule(MAX_KINDS, false, 0.0)

  function RowCount(legend: seq<string>): nat {
    Min(|legend|, MAX_KINDS)
  }

  /**
   * `KeyPlot.start`'s row construction and column loop.  The division is
   * unguarded, so every column with counts must have a non-zero truncated
   * total, and every truncated count vector must fit the rows (otherwise
   * `rows[i]` is undefined).
   */
  method Rows(legend: seq<string>, columns: seq<Column>) returns (rows: seq<Row>)
    requires AllDefined(columns, KEY_RULE)
    requires Fits(columns, KEY_RULE, RowCount(legend))
    ensures |rows| == RowCount(legend)
    ensures forall i :: 0 <= i < |rows| ==> rows[i].title == legend[i] && rows[i].index == i
    ensures forall i :: 0 <= i < |rows| ==> rows[i].area == RowArea(columns, KEY_RULE, i)
  {
    rows := Stack(legend, columns, MAX_KINDS, KEY_RULE);
  }

  /** Under this rule being defined means no counts, or a non-zero sum of the first five. */
  lemma DefinedIff(c: Column)
    ensures Defined(c, KEY_RULE) <==>
      (Take(c.stats, MAX_KINDS) != [] ==> Sum(Take(c.stats, MAX_KINDS)) != 0.0)
  {
  }

  /** A column with no counts is accepted and appends nothing to any row. */
  lemma EmptyColumnAddsNothing(columns: seq<Column>, t: int, i: nat)
    requires AllDefined(columns, KEY_RULE)
    ensures AllDefined(columns + [Column(t, [])], KEY_RULE)
    ensures RowArea(columns + [Column(t, [])], KEY_RULE, i) == RowArea(columns, KEY_RULE, i)
  {
    assert (columns + [Column(t, [])])[..|columns|] == columns;
  }

  /**
   * When every column's truncated counts reach every row, every column
   * appends exactly one point to every row: after `n` columns each row has
   * `n` points, the `k`-th carrying column `k`'s timestamp.
   */
  lemma EveryColumnEveryRow(legend: seq<string>, columns: seq<Column>, i: nat)
    requires AllDefined(columns, KEY_RULE)
    requires forall j :: 0 <= j < |columns| ==> |Take(columns[j].stats, MAX_KINDS)| >= RowCount(legend)
    requires i < RowCount(legend)
    ensures |RowArea(columns, KEY_RULE, i)| == |columns|
    ensures forall k :: 0 <= k < |columns| ==>
      RowArea(columns, KEY_RULE, i)[k] == Band(columns[k], KEY_RULE, i) &&
      RowArea(columns, KEY_RULE, i)[k].updatedAt == columns[k].updatedAt
  {
    assert Covers(columns, KEY_RULE, i);
    RowAreaAt(columns, KEY_RULE, i);
    NoSkipKeepsAll(columns, KEY_RULE);
  }

  /** Without an added constant the shares of a column sum to exactly 1: its top band ends at 1. */
  lemma TopIsOne(c: Column)
    requires Defined(c, KEY_RULE) && 0 < |Truncated(c, KEY_RULE)|
    ensures Band(c, KEY_RULE, |Truncated(c, KEY_RULE)| - 1).to == 1.0
  {
    BandTop(c, KEY_RULE);
    var s := Sum(Truncated(c, KEY_RULE));
    assert Total(c, KEY_RULE) == s;
    assert s / s == 1.0;
  }

  /** Two kinds counted 3 and 1 at time 7 become the bands [0, 0.75) and [0.75, 1). */
  lemma ThreeToOne()
    ensures AllDefined([Column(7, [3.0, 1.0])], KEY_RULE)
    ensures RowArea([Column(7, [3.0, 1.0])], KEY_RULE, 0) == [Point(7, 0.0, 0.75)]
    ensures RowArea([Column(7, [3.0, 1.0])], KEY_RULE, 1) == [Point(7, 0.75, 1.0)]
  {
    var c := Column(7, [3.0, 1.0]);
    var t := Truncated(c, KEY_RULE);
    assert t == [3.0, 1.0];
    assert Sum(t) == 4.0 by {
      assert t[..1] == [3.0];
      assert [3.0][..0] == [];
    }
    var sh := Shares(t, 4.0);
    assert sh == [0.75, 0.25];
    assert Sum(sh[..0]) == 0.0;
    assert Sum(sh[..1]) == 0.75 by {
      assert sh[..1][..0] == [];
    }
    assert Sum(sh[..2]) == 1.0 by {
      assert sh[..2][..1] == sh[..1];
      assert sh[..1][..0] == [];
    }
    assert [c][..0] == [];
  }

  /** The legend panel of `n` rows, the same geometry as the area chart's. */
  lemma LegendGeometry(n: nat)
    ensures Legend.Panel(WIDTH, HEIGHT, MARGIN_RIGHT, MARGIN_BOTTOM, n) == Legend.Rect(844, 536 - 20 * n, 92, 20 * n + 8)
    ensures forall d :: 0 <= d < n ==>
      Legend.Swatches(WIDTH, HEIGHT, MARGIN_RIGHT, MARGIN_BOTTOM, n)[d] == Legend.Rect(848, 540 - 20 * n + 20 * d, 20, 20)
  {
  }

  /**
   * The legend labels of the rows `Rows` builds: label `d` reads legend entry
   * `d` and is anchored at `(874, 556 - 20 n + 20 d)`.
   */
  lemma LegendLabels(legend: seq<string>, rows: seq<Row>)
    requires |rows| == RowCount(legend)
    requires forall i :: 0 <= i < |rows| ==> rows[i].title == legend[i]
    ensures var n := |rows|;
      var l := Legend.Labels(WIDTH, HEIGHT, MARGIN_RIGHT, MARGIN_BOTTOM, Titles(rows));
      |l| == n && forall d :: 0 <= d < n ==> l[d] == Legend.Label(874, 556 - 20 * n + 20 * d, legend[d])
  {
  }
}
