/**
 * The exploratory tables: the mean satisfaction per tenure of the filtered
 * view, and the two tables computed from the whole dataset whatever the
 * sidebar says, the promotion crosstab and the high-risk list.
 */
module Eda {
  import opened Sequences
  import opened Employees
  import opened Dashboard

  /** The `tenure` column of a frame. */
  function TenureColumn(rows: seq<Row>): (ts: seq<int>)
    ensures |ts| == |rows|
    ensures forall i :: 0 <= i < |rows| ==> ts[i] == rows[i].tenure
  {
    seq(|rows|, i requires 0 <= i < |rows| => rows[i].tenure)
  }

  predicate Ascending(ts: seq<int>)
  {
    forall i, j :: 0 <= i < j < |ts| ==> ts[i] < ts[j]
  }

  /** `t` put into its place in an ascending sequence of distinct keys, unless it is there already. */
  function InsertSorted(ts: seq<int>, t: int): (out: seq<int>)
    requires Ascending(ts)
    ensures Ascending(out)
    ensures forall x :: x in out <==> x in ts || x == t
  {
    if ts == [] then [t]
    else if t < ts[0] then
      assert forall x :: x in ts ==> ts[0] <= x;
      [t] + ts
    else if t == ts[0] then ts
    else
      var rest := InsertSorted(ts[1..], t);
      assert forall x :: x in ts[1..] ==> ts[0] < x;
      assert forall x :: x in rest ==> ts[0] < x;
      assert forall k :: 0 <= k < |rest| ==> ts[0] < rest[k] by {
        forall k | 0 <= k < |rest| ensures ts[0] < rest[k] {
          assert rest[k] in rest;
        }
      }
      assert forall x :: x in ts <==> x == ts[0] || x in ts[1..];
      [ts[0]] + rest
  }

  /** The group keys of `groupby('tenure')`: each tenure that occurs, once, ascending. */
  function Tenures(rows: seq<Row>): (ts: seq<int>)
    ensures Ascending(ts)
    ensures forall t :: t in ts <==> t in TenureColumn(rows)
  {
    if rows == [] then []
    else
      assert forall t :: t in TenureColumn(rows) <==> t == rows[0].tenure || t in TenureColumn(rows[1..]) by {
        assert TenureColumn(rows) == [rows[0].tenure] + TenureColumn(rows[1..]);
      }
      InsertSorted(Tenures(rows[1..]), rows[0].tenure)
  }

  /** The rows of one tenure group, in their order in the frame. */
  function TenureGroup(rows: seq<Row>, t: int): (g: seq<Row>)
    ensures SubseqOf(g, rows)
    ensures forall r :: r in g <==> r in rows && r.tenure == t
    ensures forall r :: multiset(g)[r] == if r.tenure == t then multiset(rows)[r] else 0
    ensures t in TenureColumn(rows) ==> g != []
  {
    var g := Where(rows, (r: Row) => r.tenure == t);
    assert t in TenureColumn(rows) ==> g != [] by {
      if t in TenureColumn(rows) {
        var i :| 0 <= i < |rows| && TenureColumn(rows)[i] == t;
        assert rows[i] in g;
      }
    }
    g
  }

  /** `m` is the mean satisfaction of the rows with tenure `t`. */
  predicate IsGroupMean(rows: seq<Row>, t: int, m: real)
  {
    var g := Satisfactions(TenureGroup(rows, t));
    g != [] && m == Mean(g) && MinOf(g) <= m <= MaxOf(g)
  }

  /**
   * `groupby('tenure')['satisfaction_level'].mean()` of the filtered view: one
   * entry per tenure that occurs, keys ascending, each the mean satisfaction of
   * its group (so between the group's least and greatest satisfaction).
   */
  function TenureTrend(view: seq<Row>): (trend: seq<(int, real)>)
    ensures Keys(trend) == Tenures(view)
    ensures Ascending(Keys(trend))
    ensures forall t :: t in Keys(trend) <==> t in TenureColumn(view)
    ensures forall i :: 0 <= i < |trend| ==> IsGroupMean(view, trend[i].0, trend[i].1)
  {
    var ts := Tenures(view);
    var trend := seq(|ts|, i requires 0 <= i < |ts| =>
      assert TenureGroup(view, ts[i]) != [];
      (ts[i], Mean(Satisfactions(TenureGroup(view, ts[i])))));
    assert Keys(trend) == ts;
    trend
  }

  /** Means of satisfactions that are all in [0, 1] are in [0, 1]. */
  lemma TrendInUnitInterval(view: seq<Row>)
    requires forall r :: r in view ==> 0.0 <= r.satisfactionLevel <= 1.0
    ensures forall i :: 0 <= i < |TenureTrend(view)| ==> 0.0 <= TenureTrend(view)[i].1 <= 1.0
  {
    var trend := TenureTrend(view);
    forall i | 0 <= i < |trend| ensures 0.0 <= trend[i].1 <= 1.0 {
      var g := TenureGroup(view, trend[i].0);
      var xs := Satisfactions(g);
      assert IsGroupMean(view, trend[i].0, trend[i].1);
      assert MinOf(xs) in xs && MaxOf(xs) in xs;
      var a :| 0 <= a < |xs| && xs[a] == MinOf(xs);
      var b :| 0 <= b < |xs| && xs[b] == MaxOf(xs);
      assert g[a] in view && g[b] in view;
    }
  }

  /** What the analysis tab shows, as data. */
  datatype Analysis = Analysis(
    trend: seq<(int, real)>,
    promotion: map<Flag, map<Flag, real>>,
    risk: seq<RiskEntry>)

  /**
   * `show_eda(df, filtered_df)`: the tenure trend follows the filtered view;
   * the promotion crosstab and the high-risk list are built from `df`.
   */
  function ShowEda(df: seq<Row>, filtered: seq<Row>): (a: Analysis)
    ensures Ascending(Keys(a.trend))
    ensures forall t :: t in Keys(a.trend) <==> t in TenureColumn(filtered)
    ensures forall i :: 0 <= i < |a.trend| ==> IsGroupMean(filtered, a.trend[i].0, a.trend[i].1)
    ensures a.promotion.Keys == PromotionValues(df)
    ensures forall p :: p in a.promotion ==>
      && a.promotion[p].Keys == LeftValues(df)
      && RowTotal(a.promotion[p]) == 1.0
      && forall l :: l in a.promotion[p] ==>
           0.0 <= a.promotion[p][l] <= 1.0
           && a.promotion[p][l] == PairCount(df, p, l) as real / PromotionCount(df, p) as real
    ensures |a.risk| == |HighRisk(df)|
    ensures forall i :: 0 <= i < |a.risk| ==> a.risk[i] == Shown(HighRisk(df)[i])
    ensures forall e :: e in a.risk ==> e.satisfactionLevel < 0.4 && e.averageMonthlyHours > 250
    ensures forall r :: r in df && IsHighRisk(r) ==> Shown(r) in a.risk
  {
    Analysis(TenureTrend(filtered), PromotionCrosstab(df), RiskTable(df))
  }

  /** The filtered view moves the trend only: the crosstab and the risk list ignore it. */
  lemma FilterDoesNotReachRiskTable(df: seq<Row>, v1: seq<Row>, v2: seq<Row>)
    ensures ShowEda(df, v1).risk == ShowEda(df, v2).risk
    ensures ShowEda(df, v1).promotion == ShowEda(df, v2).promotion
  {
  }
}
