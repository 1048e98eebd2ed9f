/**
 * The vocabulary the three benchmark servers share: the process environment,
 * the rows of `SELECT field1, field2 FROM data`, a query's result, JSON values
 * and HTTP responses.
 */
module Backend {
  import opened Wrappers

  /** The process environment: variable name to value (a set variable may hold ""). */
  type Env = map<string, string>

  /** A 32-bit signed integer, the width of the `field2` column and of every server's field. */
  type Int32 = x: int | -0x8000_0000 <= x < 0x8000_0000

  /** One row of the query. */
  datatype Row = Row(field1: string, field2: Int32)

  /** What the database driver hands back: all rows of the query, or the error it raised. */
  datatype QueryResult = Rows(rows: seq<Row>) | DbError(message: string)

  /** A JSON value; objects map member names to values. */
  datatype Json =
    | Null
    | Number(n: int)
    | Str(s: string)
    | Array(items: seq<Json>)
    | Object(members: map<string, Json>)

  /** A response body, either JSON or plain text. */
  datatype Body = JsonBody(json: Json) | TextBody(text: string)

  datatype Response = Response(status: int, body: Body)

  const StatusOk := 200
  const StatusInternalServerError := 500

  /** How a client reads one record `{"field1": <string>, "field2": <integer>}` back into a row. */
  function DecodeRecord(j: Json): Option<Row> {
    if j.Object? && j.members.Keys == {"field1", "field2"}
       && j.members["field1"].Str? && j.members["field2"].Number?
       && -0x8000_0000 <= j.members["field2"].n < 0x8000_0000
    then Some(Row(j.members["field1"].s, j.members["field2"].n))
    else None
  }

  /** How a client reads a JSON array of records back into rows. */
  function DecodeRecords(items: seq<Json>): (r: Option<seq<Row>>)
    ensures r.Some? ==> |r.value| == |items|
  {
    if items == [] then Some([])
    else
      match (DecodeRecord(items[0]), DecodeRecords(items[1..]))
      case (Some(row), Some(rest)) => Some([row] + rest)
      case _ => None
  }

  /** Decoding a sequence of records is decoding each of them, in order. */
  lemma {:induction false} DecodeRecordsEach(items: seq<Json>, rows: seq<Row>)
    requires |items| == |rows|
    requires forall i :: 0 <= i < |items| ==> DecodeRecord(items[i]) == Some(rows[i])
    ensures DecodeRecords(items) == Some(rows)
  {
    if items != [] {
      DecodeRecordsEach(items[1..], rows[1..]);
      assert rows == [rows[0]] + rows[1..];
    }
  }
}
