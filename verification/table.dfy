/** The value every extraction returns: `{ headers, rows }`. */
module TableResult {

  datatype Table = Table(headers: seq<string>, rows: seq<seq<string>>)

  /** Every row has one cell per header. */
  predicate Rectangular(t: Table)
  {
    forall i :: 0 <= i < |t.rows| ==> |t.rows[i]| == |t.headers|
  }
}
