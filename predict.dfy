/**
 * The prediction form's inference path: the one-row input frame built from the
 * form, the ordinal salary code, one-hot expansion, the backfill of the
 * model's missing columns, the reindex to the model's column order, and the
 * three-way risk band of the model's probability.
 */
module Predict {
  import opened Wrappers
  import opened Sequences

  /** A cell of the one-row input frame: a number or a text (object) value. */
  datatype Cell = Num(x: real) | Text(s: string)

  /** What the form collects. */
  datatype Form = Form(
    satisfaction: real,
    lastEvaluation: real,
    projects: int,
    hours: int,
    tenure: int,
    department: string,
    salary: string)

  /** A one-row frame: its columns in order, each with that row's value. */
  type Record = seq<(string, Cell)>
  /** A one-row frame whose cells are all numeric: what the model consumes. */
  type Vector = seq<(string, real)>

  // ---------------------------------------------------------------------------
  // One-row frames

  predicate Distinct(ns: seq<string>)
  {
    forall i, j :: 0 <= i < j < |ns| ==> ns[i] != ns[j]
  }

  /**
   * `frame[c]`: the value in column `c`; None where pandas raises KeyError.
   * Frames on the form's path never repeat a column name (`FormColumnsDistinct`,
   * `FillMissing`), so the first column named `c` is the only one.
   */
  function Lookup<V(==)>(frame: seq<(string, V)>, c: string): (v: Option<V>)
    ensures v.Some? <==> c in Keys(frame)
    ensures v.Some? ==> (c, v.value) in frame
  {
    if frame == [] then None
    else
      assert Keys(frame) == [frame[0].0] + Keys(frame[1..]);
      if frame[0].0 == c then Some(frame[0].1)
      else
        assert forall p :: p in frame[1..] ==> p in frame;
        Lookup(frame[1..], c)
  }

  /** With distinct column names, looking up a column finds that column's value. */
  lemma {:induction false} LookupAt<V>(frame: seq<(string, V)>, i: int)
    requires Distinct(Keys(frame)) && 0 <= i < |frame|
    ensures Lookup(frame, frame[i].0) == Some(frame[i].1)
  {
    if i > 0 {
      assert Keys(frame)[0] != Keys(frame)[i];
      assert Keys(frame[1..]) == Keys(frame)[1..];
      LookupAt(frame[1..], i - 1);
    }
  }

  /** Looking up in a frame with columns appended on the right. */
  lemma {:induction false} LookupConcat<V>(a: seq<(string, V)>, b: seq<(string, V)>, c: string)
    ensures Lookup(a + b, c) == if c in Keys(a) then Lookup(a, c) else Lookup(b, c)
  {
    if a != [] {
      assert (a + b)[1..] == a[1..] + b;
      assert Keys(a) == [a[0].0] + Keys(a[1..]);
      LookupConcat(a[1..], b, c);
    } else {
      assert a + b == b;
    }
  }

  /** Every column of `frame` called `c` gets the value `v`; nothing else changes. */
  function Overwrite<V(==)>(frame: seq<(string, V)>, c: string, v: V): (out: seq<(string, V)>)
    ensures |out| == |frame|
    ensures forall i :: 0 <= i < |frame| ==> out[i] == if frame[i].0 == c then (c, v) else frame[i]
  {
    seq(|frame|, i requires 0 <= i < |frame| => if frame[i].0 == c then (c, v) else frame[i])
  }

  lemma {:induction false} LookupOverwrite<V>(frame: seq<(string, V)>, c: string, v: V, d: string)
    ensures Keys(Overwrite(frame, c, v)) == Keys(frame)
    ensures Lookup(Overwrite(frame, c, v), d) ==
      if d == c && c in Keys(frame) then Some(v) else Lookup(frame, d)
  {
    var out := Overwrite(frame, c, v);
    assert Keys(out) == Keys(frame);
    if frame != [] {
      assert out[1..] == Overwrite(frame[1..], c, v);
      assert Keys(frame) == [frame[0].0] + Keys(frame[1..]);
      LookupOverwrite(frame[1..], c, v, d);
    }
  }

  /**
   * `frame[c] = v`: an existing column `c` is overwritten where it stands, a
   * new one is appended as the last column.
   */
  function SetColumn<V(==)>(frame: seq<(string, V)>, c: string, v: V): (out: seq<(string, V)>)
    ensures Keys(out) == if c in Keys(frame) then Keys(frame) else Keys(frame) + [c]
    ensures c !in Keys(frame) ==> out == frame + [(c, v)]
    ensures Distinct(Keys(frame)) ==> Distinct(Keys(out))
  {
    if c in Keys(frame) then
      LookupOverwrite(frame, c, v, c);
      Overwrite(frame, c, v)
    else
      KeysConcat(frame, [(c, v)]);
      assert Distinct(Keys(frame)) ==> Distinct(Keys(frame) + [c]) by {
        if Distinct(Keys(frame)) {
          DistinctConcat(Keys(frame), [c]);
        }
      }
      frame + [(c, v)]
  }

  /** After `frame[c] = v`, column `c` reads `v` and every other column reads as before. */
  lemma SetColumnLookup<V>(frame: seq<(string, V)>, c: string, v: V, d: string)
    ensures Lookup(SetColumn(frame, c, v), d) == if d == c then Some(v) else Lookup(frame, d)
  {
    if c in Keys(frame) {
      LookupOverwrite(frame, c, v, d);
    } else {
      LookupConcat(frame, [(c, v)], d);
      assert Keys([(c, v)]) == [c];
    }
  }

  // ---------------------------------------------------------------------------
  // The input record

  /** The columns of the input record, in the order the form's dict lists them. */
  const RawColumns: seq<string> := [
    "satisfaction_level", "last_evaluation", "number_project", "average_monthly_hours",
    "tenure", "Work_accident", "promotion_last_5years", "department", "salary"]

  /**
   * `pd.DataFrame([input_data])`: the form's values under their column names;
   * `Work_accident` and `promotion_last_5years` are always 0, since the form
   * does not ask for them.
   */
  function InputRecord(f: Form): (rec: Record)
    ensures Keys(rec) == RawColumns
  {
    [ ("satisfaction_level", Num(f.satisfaction)),
      ("last_evaluation", Num(f.lastEvaluation)),
      ("number_project", Num(f.projects as real)),
      ("average_monthly_hours", Num(f.hours as real)),
      ("tenure", Num(f.tenure as real)),
      ("Work_accident", Num(0.0)),
      ("promotion_last_5years", Num(0.0)),
      ("department", Text(f.department)),
      ("salary", Text(f.salary))]
  }

  /** The cells of the input record that the form does not enter as numbers. */
  lemma InputRecordCells(f: Form)
    ensures Lookup(InputRecord(f), "Work_accident") == Some(Num(0.0))
    ensures Lookup(InputRecord(f), "promotion_last_5years") == Some(Num(0.0))
    ensures Lookup(InputRecord(f), "department") == Some(Text(f.department))
    ensures Lookup(InputRecord(f), "salary") == Some(Text(f.salary))
  {
    var rec := InputRecord(f);
    RawColumnsDistinct();
    LookupAt(rec, 5);
    LookupAt(rec, 6);
    LookupAt(rec, 7);
    LookupAt(rec, 8);
  }

  lemma RawColumnsDistinct()
    ensures Distinct(RawColumns)
  {
  }

  // ---------------------------------------------------------------------------
  // Ordinal salary code

  /** The categories, in order; a value's code is its position here. */
  const SalaryLevels: seq<string> := ["low", "medium", "high"]

  /** The position of the first `x` in `xs`, or -1 when `x` is not there. */
  function IndexOf(xs: seq<string>, x: string): (k: int)
    ensures -1 <= k < |xs|
    ensures k == -1 <==> x !in xs
    ensures k >= 0 ==> xs[k] == x && x !in xs[..k]
  {
    if xs == [] then -1
    else if xs[0] == x then 0
    else
      var k := IndexOf(xs[1..], x);
      assert xs == [xs[0]] + xs[1..];
      if k == -1 then -1
      else
        assert xs[..k + 1] == [xs[0]] + xs[1..][..k];
        k + 1
  }

  /**
   * `.astype('category').cat.set_categories(['low', 'medium', 'high']).cat.codes`
   * on one value: 0, 1 or 2 by position, and pandas' missing code -1 for any
   * other value.
   */
  function SalaryCode(s: string): (code: int)
    ensures code == 0 <==> s == "low"
    ensures code == 1 <==> s == "medium"
    ensures code == 2 <==> s == "high"
    ensures code == -1 <==> s !in SalaryLevels
  {
    IndexOf(SalaryLevels, s)
  }

  /** The code of a cell: a number is none of the three categories either. */
  function CategoryCode(cell: Cell): (code: int)
    ensures -1 <= code <= 2
    ensures cell.Text? ==> code == SalaryCode(cell.s)
    ensures cell.Num? ==> code == -1
  {
    match cell
    case Text(s) => SalaryCode(s)
    case Num(_) => -1
  }

  // ---------------------------------------------------------------------------
  // One-hot expansion: pd.get_dummies(input_df, drop_first=False)

  /** The name of the indicator column for value `value` of text column `col`. */
  function DummyName(col: string, value: string): string
  {
    col + "_" + value
  }

  /** What one column becomes: a number stays put, a text becomes an indicator set to 1 (True). */
  function Encoded(col: (string, Cell)): (string, real)
  {
    match col.1
    case Num(x) => (col.0, x)
    case Text(s) => (DummyName(col.0, s), 1.0)
  }

  /** The numeric columns, in order. */
  function NumericPart(rec: Record): (v: Vector)
    ensures |v| <= |rec|
  {
    if rec == [] then []
    else (if rec[0].1.Num? then [Encoded(rec[0])] else []) + NumericPart(rec[1..])
  }

  /** One indicator per text column, in order. */
  function DummyPart(rec: Record): (v: Vector)
    ensures |v| <= |rec|
  {
    if rec == [] then []
    else (if rec[0].1.Text? then [Encoded(rec[0])] else []) + DummyPart(rec[1..])
  }

  lemma {:induction false} PartsCover(rec: Record)
    ensures |NumericPart(rec)| + |DummyPart(rec)| == |rec|
    ensures forall p :: p in NumericPart(rec) <==> exists i :: 0 <= i < |rec| && rec[i].1.Num? && p == Encoded(rec[i])
    ensures forall p :: p in DummyPart(rec) <==> exists i :: 0 <= i < |rec| && rec[i].1.Text? && p == Encoded(rec[i])
  {
    if rec != [] {
      PartsCover(rec[1..]);
      forall p | p in NumericPart(rec) ensures exists i :: 0 <= i < |rec| && rec[i].1.Num? && p == Encoded(rec[i]) {
        if !(rec[0].1.Num? && p == Encoded(rec[0])) {
          var i :| 0 <= i < |rec[1..]| && rec[1..][i].1.Num? && p == Encoded(rec[1..][i]);
          assert rec[i + 1] == rec[1..][i];
        }
      }
      forall p | p in DummyPart(rec) ensures exists i :: 0 <= i < |rec| && rec[i].1.Text? && p == Encoded(rec[i]) {
        if !(rec[0].1.Text? && p == Encoded(rec[0])) {
          var i :| 0 <= i < |rec[1..]| && rec[1..][i].1.Text? && p == Encoded(rec[1..][i]);
          assert rec[i + 1] == rec[1..][i];
        }
      }
      forall i | 0 <= i < |rec| ensures Encoded(rec[i]) in (if rec[i].1.Num? then NumericPart(rec) else DummyPart(rec)) {
        if i > 0 {
          assert rec[1..][i - 1] == rec[i];
        }
      }
    }
  }

  /** The expanded frame: the numeric columns as they were, then one indicator per text column. */
  function GetDummies(rec: Record): (enc: Vector)
    ensures |enc| == |rec|
  {
    PartsCover(rec);
    NumericPart(rec) + DummyPart(rec)
  }

  /**
   * Every column of the expanded frame is what some column of the record
   * becomes, and every column of the record is there in its expanded form:
   * a number under its own name, a text `v` in column `c` as `c_v` set to 1.
   */
  lemma GetDummiesColumns(rec: Record)
    ensures forall p :: p in GetDummies(rec) <==> exists i :: 0 <= i < |rec| && p == Encoded(rec[i])
  {
    PartsCover(rec);
  }

  // ---------------------------------------------------------------------------
  // Reconciling with the model's columns

  /** The reference layout: `expected` in order, each with the frame's value, 0 where the frame lacks it. */
  function Aligned(frame: Vector, expected: seq<string>): (v: Vector)
    ensures Keys(v) == expected
  {
    seq(|expected|, i requires 0 <= i < |expected| => (expected[i], Lookup(frame, expected[i]).GetOr(0.0)))
  }

  /** A frame already laid out as the expected columns is left as it is. */
  lemma AlignedIdentity(frame: Vector)
    requires Distinct(Keys(frame))
    ensures Aligned(frame, Keys(frame)) == frame
  {
    forall i | 0 <= i < |frame| ensures Aligned(frame, Keys(frame))[i] == frame[i] {
      LookupAt(frame, i);
    }
  }

  /** Reconciling twice with the same (distinct) expected columns gives the same vector. */
  lemma AlignedIdempotent(frame: Vector, expected: seq<string>)
    requires Distinct(expected)
    ensures Aligned(Aligned(frame, expected), expected) == Aligned(frame, expected)
  {
    AlignedIdentity(Aligned(frame, expected));
  }

  lemma {:induction false} KeysConcat<V>(a: seq<(string, V)>, b: seq<(string, V)>)
    ensures Keys(a + b) == Keys(a) + Keys(b)
  {
  }

  lemma DistinctConcat(a: seq<string>, b: seq<string>)
    requires Distinct(a) && Distinct(b)
    requires forall c :: c in b ==> c !in a
    ensures Distinct(a + b)
  {
    forall i, j | 0 <= i < j < |a + b| ensures (a + b)[i] != (a + b)[j] {
      if j < |a| {
        assert (a + b)[i] == a[i] && (a + b)[j] == a[j];
      } else if i < |a| {
        assert (a + b)[i] == a[i] && (a + b)[j] == b[j - |a|];
        assert b[j - |a|] in b;
      } else {
        assert (a + b)[i] == b[i - |a|] && (a + b)[j] == b[j - |a|];
      }
    }
  }

  /**
   * The missing-column loop: every expected column the frame lacks is appended,
   * set to 0, once, in whatever order the set of missing names is iterated.
   * Columns already there keep their place and value.
   */
  method FillMissing(enc: Vector, expected: seq<string>) returns (filled: Vector)
    ensures |enc| <= |filled| && filled[..|enc|] == enc
    ensures forall k :: |enc| <= k < |filled| ==>
      filled[k].0 in expected && filled[k].0 !in Keys(enc) && filled[k].1 == 0.0
    ensures forall c :: c in expected ==> c in Keys(filled)
    ensures Distinct(Keys(enc)) ==> Distinct(Keys(filled))
    ensures (forall c :: c in expected ==> c in Keys(enc)) ==> filled == enc
  {
    var missing := (set c | c in expected) - (set c | c in Keys(enc));
    filled := enc;
    ghost var added: Vector := [];
    while missing != {}
      invariant filled == enc + added
      invariant forall k :: 0 <= k < |added| ==>
        added[k].0 in expected && added[k].0 !in Keys(enc) && added[k].1 == 0.0
      invariant Distinct(Keys(added))
      invariant forall c :: c in missing <==> c in expected && c !in Keys(enc) && c !in Keys(added)
      decreases |missing|
    {
      var col :| col in missing;
      AddMissing(enc, added, expected, col);
      filled := SetColumn(filled, col, 0.0);
      added := added + [(col, 0.0)];
      missing := missing - {col};
    }
    FilledFrame(enc, added, expected);
  }

  /** One turn of the loop: the missing column goes to the end, set to 0. */
  lemma AddMissing(enc: Vector, added: Vector, expected: seq<string>, col: string)
    requires forall k :: 0 <= k < |added| ==>
      added[k].0 in expected && added[k].0 !in Keys(enc) && added[k].1 == 0.0
    requires Distinct(Keys(added))
    requires col in expected && col !in Keys(enc) && col !in Keys(added)
    ensures SetColumn(enc + added, col, 0.0) == enc + (added + [(col, 0.0)])
    ensures forall k :: 0 <= k < |added + [(col, 0.0)]| ==>
      (added + [(col, 0.0)])[k].0 in expected && (added + [(col, 0.0)])[k].0 !in Keys(enc) && (added + [(col, 0.0)])[k].1 == 0.0
    ensures Distinct(Keys(added + [(col, 0.0)]))
    ensures Keys(added + [(col, 0.0)]) == Keys(added) + [col]
  {
    KeysConcat(enc, added);
    KeysConcat(added, [(col, 0.0)]);
    DistinctConcat(Keys(added), [col]);
    assert (enc + added) + [(col, 0.0)] == enc + (added + [(col, 0.0)]);
  }

  /** What the loop's invariant says once no column is missing any more. */
  lemma FilledFrame(enc: Vector, added: Vector, expected: seq<string>)
    requires forall k :: 0 <= k < |added| ==>
      added[k].0 in expected && added[k].0 !in Keys(enc) && added[k].1 == 0.0
    requires Distinct(Keys(added))
    requires forall c :: c in expected ==> c in Keys(enc) || c in Keys(added)
    ensures forall k :: |enc| <= k < |enc + added| ==>
      (enc + added)[k].0 in expected && (enc + added)[k].0 !in Keys(enc) && (enc + added)[k].1 == 0.0
    ensures forall c :: c in expected ==> c in Keys(enc + added)
    ensures Distinct(Keys(enc)) ==> Distinct(Keys(enc + added))
    ensures added != [] ==> exists c :: c in expected && c !in Keys(enc)
  {
    KeysConcat(enc, added);
    if Distinct(Keys(enc)) {
      DistinctConcat(Keys(enc), Keys(added));
    }
    if added != [] {
      assert added[0].0 in expected && added[0].0 !in Keys(enc);
    }
  }

  /** `frame[expected]`: the columns `expected`, in that order; None (KeyError) if one is absent. */
  function Reindex(frame: Vector, expected: seq<string>): (r: Option<Vector>)
    ensures r.Some? <==> forall c :: c in expected ==> c in Keys(frame)
    ensures r.Some? ==> Keys(r.value) == expected
    ensures r.Some? ==> forall i :: 0 <= i < |expected| ==> Lookup(frame, expected[i]) == Some(r.value[i].1)
  {
    if forall c :: c in expected ==> c in Keys(frame) then
      Some(seq(|expected|, i requires 0 <= i < |expected| => (expected[i], Lookup(frame, expected[i]).value)))
    else
      None
  }

  /** Backfill, then reindex: the result is exactly the reference layout. */
  method Realign(enc: Vector, expected: seq<string>) returns (v: Vector)
    ensures v == Aligned(enc, expected)
  {
    var filled := FillMissing(enc, expected);
    var selected := Reindex(filled, expected);
    v := selected.value;
    forall i | 0 <= i < |expected| ensures v[i] == Aligned(enc, expected)[i] {
      BackfilledLookup(enc, filled, expected[i]);
    }
  }

  /** A column of the backfilled frame reads as in the original frame, or 0 if it was added. */
  lemma BackfilledLookup(enc: Vector, filled: Vector, c: string)
    requires |enc| <= |filled| && filled[..|enc|] == enc
    requires forall k :: |enc| <= k < |filled| ==> filled[k].1 == 0.0
    requires c in Keys(filled)
    ensures Lookup(filled, c) == Some(Lookup(enc, c).GetOr(0.0))
  {
    var added := filled[|enc|..];
    assert filled == enc + added;
    LookupConcat(enc, added, c);
    KeysConcat(enc, added);
    if c !in Keys(enc) {
      var w := Lookup(added, c);
      assert (c, w.value) in added;
      var k :| 0 <= k < |added| && added[k] == (c, w.value);
      assert added[k] == filled[|enc| + k];
    }
  }

  // ---------------------------------------------------------------------------
  // The whole reconciliation

  /**
   * What the model should see in column `col` for form `f`: the entered number
   * for the five numeric fields, the salary code, 1 for the indicator of the
   * chosen department and 0 for everything else (`Work_accident`,
   * `promotion_last_5years`, other departments, columns no field produces).
   */
  function FeatureValue(f: Form, col: string): real
  {
    if col == "satisfaction_level" then f.satisfaction
    else if col == "last_evaluation" then f.lastEvaluation
    else if col == "number_project" then f.projects as real
    else if col == "average_monthly_hours" then f.hours as real
    else if col == "tenure" then f.tenure as real
    else if col == "salary" then SalaryCode(f.salary) as real
    else if col == DummyName("department", f.department) then 1.0
    else 0.0
  }

  /** The expanded input frame, column by column. */
  function FormVector(f: Form): Vector
  {
    [ ("satisfaction_level", f.satisfaction),
      ("last_evaluation", f.lastEvaluation),
      ("number_project", f.projects as real),
      ("average_monthly_hours", f.hours as real),
      ("tenure", f.tenure as real),
      ("Work_accident", 0.0),
      ("promotion_last_5years", 0.0),
      ("salary", SalaryCode(f.salary) as real),
      (DummyName("department", f.department), 1.0)]
  }

  /** The input record once its salary cell holds the code. */
  function EncodedRecord(f: Form): Record
  {
    [ ("satisfaction_level", Num(f.satisfaction)),
      ("last_evaluation", Num(f.lastEvaluation)),
      ("number_project", Num(f.projects as real)),
      ("average_monthly_hours", Num(f.hours as real)),
      ("tenure", Num(f.tenure as real)),
      ("Work_accident", Num(0.0)),
      ("promotion_last_5years", Num(0.0)),
      ("department", Text(f.department)),
      ("salary", Num(SalaryCode(f.salary) as real))]
  }

  /** Writing the code over the salary column leaves every other column as it was. */
  lemma SalaryWritten(f: Form)
    ensures SetColumn(InputRecord(f), "salary", Num(SalaryCode(f.salary) as real)) == EncodedRecord(f)
  {
    var code := Num(SalaryCode(f.salary) as real);
    var raw := InputRecord(f);
    assert Keys(raw)[8] == "salary";
    assert SetColumn(raw, "salary", code) == Overwrite(raw, "salary", code);
    OverwriteSalary(f);
  }

  /** Overwriting a column that only the last position holds replaces that cell only. */
  lemma OverwriteLast<V>(frame: seq<(string, V)>, c: string, v: V)
    requires frame != [] && frame[|frame| - 1].0 == c
    requires forall i :: 0 <= i < |frame| - 1 ==> frame[i].0 != c
    ensures Overwrite(frame, c, v) == frame[..|frame| - 1] + [(c, v)]
  {
  }

  lemma OverwriteSalary(f: Form)
    ensures Overwrite(InputRecord(f), "salary", Num(SalaryCode(f.salary) as real)) == EncodedRecord(f)
  {
    var raw := InputRecord(f);
    var code := Num(SalaryCode(f.salary) as real);
    assert forall i :: 0 <= i < 8 ==> raw[i].0 != "salary" by {
      assert forall i :: 0 <= i < 9 ==> raw[i].0 == RawColumns[i];
    }
    OverwriteLast(raw, "salary", code);
    assert EncodedRecord(f) == raw[..8] + [("salary", code)];
  }

  /** One step of either part, read from position `k` of a record. */
  lemma PartsStep(rec: Record, k: nat)
    requires k < |rec|
    ensures NumericPart(rec[k..]) == (if rec[k].1.Num? then [Encoded(rec[k])] else []) + NumericPart(rec[k + 1..])
    ensures DummyPart(rec[k..]) == (if rec[k].1.Text? then [Encoded(rec[k])] else []) + DummyPart(rec[k + 1..])
  {
    assert rec[k..][1..] == rec[k + 1..];
  }

  lemma {:induction false} PartsConcat(a: Record, b: Record)
    ensures NumericPart(a + b) == NumericPart(a) + NumericPart(b)
    ensures DummyPart(a + b) == DummyPart(a) + DummyPart(b)
  {
    if a == [] {
      assert a + b == b;
    } else {
      var x := a[0];
      assert (a + b)[0] == x;
      assert (a + b)[1..] == a[1..] + b;
      PartsConcat(a[1..], b);
      var n := if x.1.Num? then [Encoded(x)] else [];
      var d := if x.1.Text? then [Encoded(x)] else [];
      assert NumericPart(a + b) == n + (NumericPart(a[1..]) + NumericPart(b));
      assert NumericPart(a) == n + NumericPart(a[1..]);
      assert DummyPart(a + b) == d + (DummyPart(a[1..]) + DummyPart(b));
      assert DummyPart(a) == d + DummyPart(a[1..]);
    }
  }

  lemma {:induction false} PartsAllNumeric(rec: Record)
    requires forall i :: 0 <= i < |rec| ==> rec[i].1.Num?
    ensures |NumericPart(rec)| == |rec|
    ensures forall i :: 0 <= i < |rec| ==> NumericPart(rec)[i] == (rec[i].0, rec[i].1.x)
    ensures DummyPart(rec) == []
  {
    if rec != [] {
      PartsAllNumeric(rec[1..]);
    }
  }

  lemma NumericPartOfRecord(f: Form)
    ensures NumericPart(EncodedRecord(f)) == FormVector(f)[..8]
  {
    var rec := EncodedRecord(f);
    var v := FormVector(f);
    assert rec == rec[..7] + rec[7..];
    PartsConcat(rec[..7], rec[7..]);
    PartsAllNumeric(rec[..7]);
    PartsStep(rec, 7);
    PartsStep(rec, 8);
    assert NumericPart(rec) == NumericPart(rec[..7]) + [v[7]];
  }

  lemma DummyPartOfRecord(f: Form)
    ensures DummyPart(EncodedRecord(f)) == FormVector(f)[8..]
  {
    var rec := EncodedRecord(f);
    assert rec == rec[..7] + rec[7..];
    PartsConcat(rec[..7], rec[7..]);
    PartsAllNumeric(rec[..7]);
    PartsStep(rec, 7);
    PartsStep(rec, 8);
  }

  /** Salary-encoding the input record in place and expanding it gives FormVector. */
  lemma EncodedForm(f: Form)
    ensures GetDummies(SetColumn(InputRecord(f), "salary", Num(SalaryCode(f.salary) as real))) == FormVector(f)
  {
    SalaryWritten(f);
    assert GetDummies(EncodedRecord(f)) == NumericPart(EncodedRecord(f)) + DummyPart(EncodedRecord(f));
    NumericPartOfRecord(f);
    DummyPartOfRecord(f);
    assert FormVector(f) == FormVector(f)[..8] + FormVector(f)[8..];
  }

  /** The chosen department's indicator is not one of the other column names. */
  lemma DummyNameIsNew(d: string)
    ensures DummyName("department", d) !in RawColumns
  {
    assert DummyName("department", d)[0] == 'd';
    assert |DummyName("department", d)| > |"department"|;
  }

  /** The expanded frame's column names: the record's, with `department` traded for its indicator. */
  function FormColumns(f: Form): seq<string>
  {
    [ "satisfaction_level", "last_evaluation", "number_project", "average_monthly_hours",
      "tenure", "Work_accident", "promotion_last_5years", "salary",
      DummyName("department", f.department)]
  }

  lemma FormColumnsDistinct(f: Form)
    ensures Keys(FormVector(f)) == FormColumns(f)
    ensures Distinct(FormColumns(f))
  {
    DummyNameIsNew(f.department);
  }

  /** Each column of the expanded frame holds what FeatureValue assigns to its name. */
  lemma FeatureValueOfColumn(f: Form, i: int)
    requires 0 <= i < 9
    ensures FormVector(f)[i].1 == FeatureValue(f, FormVector(f)[i].0)
  {
    DummyNameIsNew(f.department);
    if i == 5 || i == 6 || i == 7 || i == 8 {
    }
  }

  /** A column the expanded frame lacks is one FeatureValue sets to 0. */
  lemma FeatureValueElsewhere(f: Form, c: string)
    requires c !in FormColumns(f)
    ensures FeatureValue(f, c) == 0.0
  {
    assert FormColumns(f)[8] == DummyName("department", f.department);
  }

  lemma FormVectorLookup(f: Form, c: string)
    ensures Lookup(FormVector(f), c).GetOr(0.0) == FeatureValue(f, c)
  {
    var v := FormVector(f);
    FormColumnsDistinct(f);
    if c in FormColumns(f) {
      var i :| 0 <= i < 9 && FormColumns(f)[i] == c;
      LookupAt(v, i);
      FeatureValueOfColumn(f, i);
    } else {
      FeatureValueElsewhere(f, c);
    }
  }

  /**
   * The whole reconciliation of one form: the vector has exactly the model's
   * columns, in the model's order, and each holds what FeatureValue says.
   */
  method Reconcile(f: Form, expected: seq<string>) returns (v: Vector)
    ensures Keys(v) == expected
    ensures forall i :: 0 <= i < |expected| ==> v[i].1 == FeatureValue(f, expected[i])
  {
    var record := InputRecord(f);
    InputRecordCells(f);
    var salary := Lookup(record, "salary").value;
    record := SetColumn(record, "salary", Num(CategoryCode(salary) as real));
    var encoded := GetDummies(record);
    EncodedForm(f);
    v := Realign(encoded, expected);
    forall i | 0 <= i < |expected| ensures v[i].1 == FeatureValue(f, expected[i]) {
      FormVectorLookup(f, expected[i]);
    }
  }

  // ---------------------------------------------------------------------------
  // Risk band

  datatype Risk = Low | Medium | High

  /** The band shown for the model's probability of leaving; each band's lower bound is inclusive. */
  function RiskBand(p: real): (band: Risk)
    ensures band == High <==> p >= 0.7
    ensures band == Medium <==> 0.3 <= p < 0.7
    ensures band == Low <==> p < 0.3
  {
    if p >= 0.7 then High
    else if 0.3 <= p < 0.7 then Medium
    else Low
  }

  /** The values just below and at each band's inclusive lower bound. */
  lemma RiskBandBoundaries()
    ensures RiskBand(0.69) == Medium && RiskBand(0.70) == High
    ensures RiskBand(0.29) == Low && RiskBand(0.30) == Medium
  {
  }
}
