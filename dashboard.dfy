/**
 * The decision logic of the dashboard page: the sidebar filter, the three
 * "Key Insights" figures, the promotion crosstab and the high-risk list.
 */
module Dashboard {
  import opened Wrappers
  import opened Sequences
  import opened Employees

  /** "Overworked" means strictly more than this many monthly hours. */
  const OverworkedHours: int := 250
  /** A high-risk employee has satisfaction strictly below this level ... */
  const LowSatisfaction: real := 0.4
  /** ... and works strictly more than this many hours a month. */
  const HighRiskHours: int := 250

  /**
   * The sidebar's selections: the two-handle sliders give (min, max) pairs,
   * the multiselects give lists, and an empty list selects nothing to filter.
   */
  datatype Criteria = Criteria(
    projectRange: (int, int),
    tenureRange: (int, int),
    overworkedOnly: bool,
    departments: seq<string>,
    salaries: seq<string>)

  // ---------------------------------------------------------------------------
  // The sidebar filter

  /** The first mask: both inclusive ranges at once. */
  predicate InRanges(c: Criteria, r: Row)
  {
    && c.projectRange.0 <= r.numberProject <= c.projectRange.1
    && c.tenureRange.0 <= r.tenure <= c.tenureRange.1
  }

  /** The whole conjunction a row has to pass to appear in the filtered view. */
  predicate Passes(c: Criteria, r: Row)
  {
    && c.projectRange.0 <= r.numberProject <= c.projectRange.1
    && c.tenureRange.0 <= r.tenure <= c.tenureRange.1
    && (!c.overworkedOnly || r.averageMonthlyHours > OverworkedHours)
    && (c.departments == [] || r.department in c.departments)
    && (c.salaries == [] || r.salary in c.salaries)
  }

  /**
   * The masks applied by the end of step `k` of the filter: 0 the two ranges,
   * 1 the hours test, 2 the department test, 3 the salary test.  A test whose
   * sidebar control is unset lets every row through.
   */
  predicate PassesUpTo(c: Criteria, k: nat, r: Row)
  {
    && InRanges(c, r)
    && (k < 1 || !c.overworkedOnly || r.averageMonthlyHours > OverworkedHours)
    && (k < 2 || c.departments == [] || r.department in c.departments)
    && (k < 3 || c.salaries == [] || r.salary in c.salaries)
  }

  /** `view` is `df` masked by the first `k` + 1 steps. */
  ghost predicate SelectedUpTo(view: seq<Row>, df: seq<Row>, c: Criteria, k: nat)
  {
    && SubseqOf(view, df)
    && forall r :: multiset(view)[r] == if PassesUpTo(c, k, r) then multiset(df)[r] else 0
  }

  /** Step `k` with its control set: masking again by that step's test. */
  lemma Narrow(df: seq<Row>, before: seq<Row>, c: Criteria, k: nat, mask: Row -> bool)
    requires 1 <= k && SelectedUpTo(before, df, c, k - 1)
    requires forall r :: PassesUpTo(c, k, r) == (PassesUpTo(c, k - 1, r) && mask(r))
    ensures SelectedUpTo(Where(before, mask), df, c, k)
  {
    SubseqTrans(Where(before, mask), before, df);
  }

  /** Step `k` with its control unset: the view is left as it is. */
  lemma Skip(df: seq<Row>, view: seq<Row>, c: Criteria, k: nat)
    requires 1 <= k && SelectedUpTo(view, df, c, k - 1)
    requires forall r :: PassesUpTo(c, k, r) == PassesUpTo(c, k - 1, r)
    ensures SelectedUpTo(view, df, c, k)
  {
  }

  /**
   * `filtered_df`: one mask for the two ranges, then up to three further masks,
   * each applied only when its sidebar control is set.  The view is an
   * order-preserving subsequence of `df` holding every row of `df` that passes
   * the conjunction, as often as it occurs there, and nothing else.
   */
  method ApplyFilters(df: seq<Row>, c: Criteria) returns (view: seq<Row>)
    ensures SubseqOf(view, df)
    ensures forall r :: multiset(view)[r] == if Passes(c, r) then multiset(df)[r] else 0
    ensures forall r :: r in view <==> r in df && Passes(c, r)
    ensures c.projectRange.0 > c.projectRange.1 || c.tenureRange.0 > c.tenureRange.1 ==> view == []
  {
    view := Where(df, (r: Row) => InRanges(c, r));
    assert SelectedUpTo(view, df, c, 0);
    if c.overworkedOnly {
      var mask := (r: Row) => r.averageMonthlyHours > OverworkedHours;
      Narrow(df, view, c, 1, mask);
      view := Where(view, mask);
    } else {
      Skip(df, view, c, 1);
    }
    if c.departments != [] {
      var mask := (r: Row) => r.department in c.departments;
      Narrow(df, view, c, 2, mask);
      view := Where(view, mask);
    } else {
      Skip(df, view, c, 2);
    }
    if c.salaries != [] {
      var mask := (r: Row) => r.salary in c.salaries;
      Narrow(df, view, c, 3, mask);
      view := Where(view, mask);
    } else {
      Skip(df, view, c, 3);
    }
    AllStepsSelected(df, view, c);
  }

  /** After the last step, the view is exactly the rows of `df` that pass every test. */
  lemma AllStepsSelected(df: seq<Row>, view: seq<Row>, c: Criteria)
    requires SelectedUpTo(view, df, c, 3)
    ensures SubseqOf(view, df)
    ensures forall r :: multiset(view)[r] == if Passes(c, r) then multiset(df)[r] else 0
    ensures forall r :: r in view <==> r in df && Passes(c, r)
    ensures c.projectRange.0 > c.projectRange.1 || c.tenureRange.0 > c.tenureRange.1 ==> view == []
  {
    assert forall r :: PassesUpTo(c, 3, r) == Passes(c, r);
    if c.projectRange.0 > c.projectRange.1 || c.tenureRange.0 > c.tenureRange.1 {
      NothingSelected(view);
    }
  }

  // ---------------------------------------------------------------------------
  // Key insights

  /** The `left` column as numbers. */
  function LeftColumn(rows: seq<Row>): (xs: seq<real>)
    ensures |xs| == |rows|
    ensures forall i :: 0 <= i < |rows| ==> xs[i] == rows[i].left as real
  {
    seq(|rows|, i requires 0 <= i < |rows| => rows[i].left as real)
  }

  /** The number of rows whose `left` flag is 1. */
  function Leavers(rows: seq<Row>): (n: nat)
    ensures n <= |rows|
  {
    if rows == [] then 0 else rows[0].left + Leavers(rows[1..])
  }

  /** Summing a 0/1 column counts its ones. */
  lemma {:induction false} SumOfLeftIsLeavers(rows: seq<Row>)
    ensures Sum(LeftColumn(rows)) == Leavers(rows) as real
  {
    if rows != [] {
      assert LeftColumn(rows)[1..] == LeftColumn(rows[1..]);
      SumOfLeftIsLeavers(rows[1..]);
    }
  }

  /**
   * `filtered_df['left'].mean()`: the share of leavers in the view, a
   * proportion in [0, 1].  pandas gives NaN on an empty view; here that is None.
   */
  function AttritionRate(view: seq<Row>): (rate: Option<real>)
    ensures rate.None? <==> view == []
    ensures rate.Some? ==> rate.value == Leavers(view) as real / |view| as real
    ensures rate.Some? ==> 0.0 <= rate.value <= 1.0
  {
    if view == [] then None
    else
      SumOfLeftIsLeavers(view);
      assert forall x :: x in LeftColumn(view) ==> 0.0 <= x <= 1.0;
      Some(Mean(LeftColumn(view)))
  }

  /**
   * `filtered_df['satisfaction_level'].mean()`: the sum of the satisfactions
   * over the number of rows, between the lowest and the highest satisfaction in
   * the view; None (pandas' NaN) on an empty view.
   */
  function MeanSatisfaction(view: seq<Row>): (m: Option<real>)
    ensures m.None? <==> view == []
    ensures m.Some? ==> m.value == Sum(Satisfactions(view)) / |view| as real
    ensures m.Some? ==> MinOf(Satisfactions(view)) <= m.value <= MaxOf(Satisfactions(view))
    ensures m.Some? && (forall r :: r in view ==> 0.0 <= r.satisfactionLevel <= 1.0) ==> 0.0 <= m.value <= 1.0
  {
    if view == [] then None
    else
      assert Satisfactions(view)[0] == view[0].satisfactionLevel;
      Some(Mean(Satisfactions(view)))
  }

  /** The departments present in the rows: the keys `groupby('department')` forms. */
  function Departments(rows: seq<Row>): set<string>
  {
    set r | r in rows :: r.department
  }

  function GroupSize(rows: seq<Row>, d: string): nat
  {
    if rows == [] then 0
    else (if rows[0].department == d then 1 else 0) + GroupSize(rows[1..], d)
  }

  function GroupLeavers(rows: seq<Row>, d: string): (n: nat)
    ensures n <= GroupSize(rows, d)
  {
    if rows == [] then 0
    else (if rows[0].department == d then rows[0].left else 0) + GroupLeavers(rows[1..], d)
  }

  /** The mean of `left` over department `d`'s rows (0 for a department not present). */
  function DeptRate(rows: seq<Row>, d: string): (rate: real)
    ensures 0.0 <= rate <= 1.0
  {
    Fraction(GroupLeavers(rows, d), GroupSize(rows, d))
  }

  /**
   * `idxmax` over the sorted group keys prefers `a` to `b`: a higher rate, or
   * the same rate and a name that sorts first (the first maximum wins).
   */
  predicate Outranks(rows: seq<Row>, a: string, b: string)
  {
    DeptRate(rows, a) > DeptRate(rows, b) || (DeptRate(rows, a) == DeptRate(rows, b) && StrLess(a, b))
  }

  lemma OutranksTransitive(rows: seq<Row>, a: string, b: string, c: string)
    requires Outranks(rows, a, b) && Outranks(rows, b, c)
    ensures Outranks(rows, a, c)
  {
    if DeptRate(rows, a) == DeptRate(rows, b) == DeptRate(rows, c) {
      StrLessTransitive(a, b, c);
    }
  }

  lemma OutranksTotal(rows: seq<Row>, a: string, b: string)
    requires a != b
    ensures Outranks(rows, a, b) || Outranks(rows, b, a)
  {
    StrLessTotal(a, b);
  }

  /** The department "Top Risk Dept." shows: present in the view, and preferred to every other one. */
  ghost predicate IsTopRisk(rows: seq<Row>, d: string)
  {
    d in Departments(rows) && forall e :: e in Departments(rows) && e != d ==> Outranks(rows, d, e)
  }

  /** The department column, one entry per row. */
  function DeptColumn(rows: seq<Row>): (ds: seq<string>)
    ensures forall d :: d in ds <==> d in Departments(rows)
  {
    var ds := seq(|rows|, i requires 0 <= i < |rows| => rows[i].department);
    assert forall r :: r in rows ==> r.department in ds by {
      forall r | r in rows ensures r.department in ds {
        var i :| 0 <= i < |rows| && rows[i] == r;
        assert ds[i] == r.department;
      }
    }
    ds
  }

  /** The candidate among `ds` that every other candidate is outranked by. */
  function BestOf(rows: seq<Row>, ds: seq<string>): (d: string)
    requires ds != []
    ensures d in ds
    ensures forall e :: e in ds && e != d ==> Outranks(rows, d, e)
  {
    if |ds| == 1 then ds[0]
    else
      var rest := BestOf(rows, ds[1..]);
      assert ds == [ds[0]] + ds[1..];
      if ds[0] == rest || Outranks(rows, ds[0], rest) then
        assert forall e :: e in ds[1..] && e != rest ==> Outranks(rows, rest, e);
        OutranksEvery(rows, ds[0], rest, ds[1..]);
        ds[0]
      else
        OutranksTotal(rows, ds[0], rest);
        rest
  }

  /** Helper: transitivity over a whole candidate list. */
  lemma OutranksEvery(rows: seq<Row>, a: string, b: string, es: seq<string>)
    requires a == b || Outranks(rows, a, b)
    requires forall e :: e in es && e != b ==> Outranks(rows, b, e)
    ensures forall e :: e in es && e != a && e != b ==> Outranks(rows, a, e)
    ensures a != b ==> Outranks(rows, a, b)
  {
    forall e | e in es && e != a && e != b ensures Outranks(rows, a, e) {
      if a != b {
        OutranksTransitive(rows, a, b, e);
      }
    }
  }

  /**
   * `filtered_df.groupby('department')['left'].mean().idxmax()`: the department
   * with the highest leaving rate, ties going to the name that sorts first.
   * pandas raises on an empty view; here that is None.
   */
  function TopRiskDepartment(view: seq<Row>): (top: Option<string>)
    ensures top.None? <==> view == []
    ensures top.Some? ==> IsTopRisk(view, top.value)
  {
    if view == [] then None
    else
      assert view[0].department in Departments(view);
      Some(BestOf(view, DeptColumn(view)))
  }

  /** The tie-break makes the top department unique. */
  lemma TopRiskUnique(rows: seq<Row>, a: string, b: string)
    requires IsTopRisk(rows, a) && IsTopRisk(rows, b)
    ensures a == b
  {
    if a != b {
      assert Outranks(rows, a, b) && Outranks(rows, b, a);
      if DeptRate(rows, a) == DeptRate(rows, b) {
        StrLessAsymmetric(a, b);
      }
    }
  }

  // ---------------------------------------------------------------------------
  // Promotion impact: pd.crosstab(df['promotion_last_5years'], df['left'], normalize='index')

  function PromotionValues(rows: seq<Row>): set<Flag>
  {
    set r | r in rows :: r.promotionLast5Years
  }

  function LeftValues(rows: seq<Row>): set<Flag>
  {
    set r | r in rows :: r.left
  }

  /** Rows with promotion value `p` and `left` value `l`: one cell of the raw crosstab. */
  function PairCount(rows: seq<Row>, p: Flag, l: Flag): (n: nat)
    ensures l !in LeftValues(rows) ==> n == 0
  {
    if rows == [] then 0
    else
      assert LeftValues(rows) == {rows[0].left} + LeftValues(rows[1..]);
      (if rows[0].promotionLast5Years == p && rows[0].left == l then 1 else 0) + PairCount(rows[1..], p, l)
  }

  /** Rows with promotion value `p`: the row total of the raw crosstab. */
  function PromotionCount(rows: seq<Row>, p: Flag): (n: nat)
    ensures n == PairCount(rows, p, 0) + PairCount(rows, p, 1)
    ensures n > 0 <==> p in PromotionValues(rows)
  {
    if rows == [] then 0
    else
      assert PromotionValues(rows) == {rows[0].promotionLast5Years} + PromotionValues(rows[1..]);
      (if rows[0].promotionLast5Years == p then 1 else 0) + PromotionCount(rows[1..], p)
  }

  /** One normalised cell: the share of promotion-`p` rows whose `left` is `l`. */
  function Proportion(rows: seq<Row>, p: Flag, l: Flag): (x: real)
    ensures 0.0 <= x <= 1.0
    ensures PromotionCount(rows, p) > 0 ==> x == PairCount(rows, p, l) as real / PromotionCount(rows, p) as real
  {
    var a, n := PairCount(rows, p, l), PromotionCount(rows, p);
    assert a <= n;
    Fraction(a, n)
  }

  lemma FractionsAddUp(a: real, b: real, n: real)
    requires n > 0.0 && a + b == n
    ensures a / n + b / n == 1.0
  {
    var x, y := a / n, b / n;
    assert x * n == a && y * n == b;
    assert (x + y) * n == x * n + y * n;
    assert (x + y - 1.0) * n == 0.0;
  }

  /** The sum of a crosstab row over the `left` columns it has (0 and 1 are the only ones possible). */
  function RowTotal(m: map<Flag, real>): real
  {
    (if 0 in m then m[0] else 0.0) + (if 1 in m then m[1] else 0.0)
  }

  /** The two proportions of a promotion value present in the data add up to 1. */
  lemma ProportionsAddUp(rows: seq<Row>, p: Flag)
    requires p in PromotionValues(rows)
    ensures Proportion(rows, p, 0) + Proportion(rows, p, 1) == 1.0
    ensures 0 !in LeftValues(rows) ==> Proportion(rows, p, 0) == 0.0
    ensures 1 !in LeftValues(rows) ==> Proportion(rows, p, 1) == 0.0
  {
    var a, b, n := PairCount(rows, p, 0), PairCount(rows, p, 1), PromotionCount(rows, p);
    FractionsAddUp(a as real, b as real, n as real);
  }

  /** One normalised row of the crosstab, with a column for every `left` value in the data. */
  function CrosstabRow(rows: seq<Row>, p: Flag): (m: map<Flag, real>)
    ensures m.Keys == LeftValues(rows)
    ensures forall l :: l in m ==> 0.0 <= m[l] <= 1.0
    ensures p in PromotionValues(rows) ==> RowTotal(m) == 1.0
    ensures p in PromotionValues(rows) ==>
      forall l :: l in m ==> m[l] == PairCount(rows, p, l) as real / PromotionCount(rows, p) as real
  {
    var m := map l | l in LeftValues(rows) :: Proportion(rows, p, l);
    if p in PromotionValues(rows) then
      ProportionsAddUp(rows, p);
      m
    else
      m
  }

  /**
   * The promotion crosstab, normalised by index: one row per promotion value in
   * the unfiltered data, one column per `left` value, every cell a proportion
   * and every row summing to 1.
   */
  function PromotionCrosstab(df: seq<Row>): (t: map<Flag, map<Flag, real>>)
    ensures t.Keys == PromotionValues(df)
    ensures forall p :: p in t ==>
      && PromotionCount(df, p) > 0
      && t[p].Keys == LeftValues(df)
      && RowTotal(t[p]) == 1.0
      && forall l :: l in t[p] ==>
           0.0 <= t[p][l] <= 1.0 && t[p][l] == PairCount(df, p, l) as real / PromotionCount(df, p) as real
  {
    map p | p in PromotionValues(df) :: CrosstabRow(df, p)
  }

  // ---------------------------------------------------------------------------
  // High-risk employee list

  predicate IsHighRisk(r: Row)
  {
    r.satisfactionLevel < LowSatisfaction && r.averageMonthlyHours > HighRiskHours
  }

  /**
   * `risk_df`, selected from the unfiltered data: exactly the rows with
   * satisfaction strictly below 0.4 and hours strictly above 250, in order.
   */
  function HighRisk(df: seq<Row>): (risk: seq<Row>)
    ensures SubseqOf(risk, df)
    ensures forall r :: r in risk <==> r in df && r.satisfactionLevel < 0.4 && r.averageMonthlyHours > 250
    ensures forall r :: multiset(risk)[r] == if IsHighRisk(r) then multiset(df)[r] else 0
  {
    Where(df, IsHighRisk)
  }

  /** The columns the high-risk list shows, in the order it shows them. */
  datatype RiskEntry = RiskEntry(
    department: string,
    numberProject: int,
    tenure: int,
    satisfactionLevel: real,
    salary: string,
    averageMonthlyHours: int,
    left: Flag)

  function Shown(r: Row): RiskEntry
  {
    RiskEntry(r.department, r.numberProject, r.tenure, r.satisfactionLevel, r.salary, r.averageMonthlyHours, r.left)
  }

  /** Each row cut down to the shown columns, in order. */
  function ShownRows(rows: seq<Row>): (t: seq<RiskEntry>)
    ensures |t| == |rows|
    ensures forall i :: 0 <= i < |rows| ==> t[i] == Shown(rows[i])
  {
    seq(|rows|, i requires 0 <= i < |rows| => Shown(rows[i]))
  }

  lemma ShownExactly(rows: seq<Row>, df: seq<Row>)
    requires forall r :: r in rows <==> r in df && IsHighRisk(r)
    ensures forall e :: e in ShownRows(rows) ==> e.satisfactionLevel < 0.4 && e.averageMonthlyHours > 250
    ensures forall r :: r in df && IsHighRisk(r) ==> Shown(r) in ShownRows(rows)
  {
    var t := ShownRows(rows);
    forall e | e in t ensures e.satisfactionLevel < 0.4 && e.averageMonthlyHours > 250 {
      var i :| 0 <= i < |t| && t[i] == e;
      assert rows[i] in rows;
    }
    forall r | r in df && IsHighRisk(r) ensures Shown(r) in t {
      var i :| 0 <= i < |rows| && rows[i] == r;
      assert t[i] == Shown(r);
    }
  }

  /**
   * The high-risk list as displayed: one entry per selected row, in order, cut
   * down to the seven shown columns.  Every shown entry is high-risk, and every
   * high-risk row of `df` is shown.
   */
  function RiskTable(df: seq<Row>): (t: seq<RiskEntry>)
    ensures |t| == |HighRisk(df)|
    ensures forall i :: 0 <= i < |t| ==> t[i] == Shown(HighRisk(df)[i])
    ensures forall e :: e in t ==> e.satisfactionLevel < 0.4 && e.averageMonthlyHours > 250
    ensures forall r :: r in df && IsHighRisk(r) ==> Shown(r) in t
  {
    ShownExactly(HighRisk(df), df);
    ShownRows(HighRisk(df))
  }
}
