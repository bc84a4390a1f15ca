/** The employee dataset the dashboard loads once and never changes. */
module Employees {

  /** A 0/1 column of the dataset (`left`, `promotion_last_5years`, `Work_accident`). */
  type Flag = x: int | 0 <= x <= 1

  /** One row of the preprocessed dataset. */
  datatype Row = Row(
    satisfactionLevel: real,
    lastEvaluation: real,
    numberProject: int,
    averageMonthlyHours: int,
    tenure: int,
    workAccident: Flag,
    promotionLast5Years: Flag,
    department: string,
    salary: string,
    left: Flag)

  /** The `satisfaction_level` column of a frame. */
  function Satisfactions(rows: seq<Row>): (xs: seq<real>)
    ensures |xs| == |rows|
    ensures forall i :: 0 <= i < |rows| ==> xs[i] == rows[i].satisfactionLevel
  {
    seq(|rows|, i requires 0 <= i < |rows| => rows[i].satisfactionLevel)
  }
}
