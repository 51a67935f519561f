/** The request bodies the student API helpers build before posting: a single record with
    its year and semester parsed to numbers, and a bulk list with `batch` and `regNo` turned
    into text. The HTTP call itself is not modelled; a request is the endpoint and body. */
module StudentApi {
  import opened Js

  datatype Body = Record(record: Obj) | Rows(rows: seq<Obj>)

  /** `api.post(endpoint, body)`. */
  datatype Request = Post(endpoint: string, body: Body)

  const CreateEndpoint := "/user.student.create"
  const CreateManyEndpoint := "/user.student.createMany"

  /** `{...data, year: Number.parseInt(data.year), semester: Number.parseInt(data.semester)}`. */
  function Payload(data: Obj): (p: Obj)
    ensures p.Keys == data.Keys + {"year", "semester"}
    ensures p["year"] == Num(ParseIntValue(Get(data, "year")))
    ensures p["semester"] == Num(ParseIntValue(Get(data, "semester")))
    ensures forall k :: k in data && k != "year" && k != "semester" ==> p[k] == data[k]
  {
    WithNumbers(data, ParseIntValue(Get(data, "year")), ParseIntValue(Get(data, "semester")))
  }

  /** The spread with the two numeric fields written last. */
  function WithNumbers(data: Obj, year: JsNumber, semester: JsNumber): (p: Obj)
    ensures p.Keys == data.Keys + {"year", "semester"}
    ensures p["year"] == Num(year) && p["semester"] == Num(semester)
    ensures forall k :: k in data && k != "year" && k != "semester" ==> p[k] == data[k]
  {
    Spread(data, map["year" := Num(year), "semester" := Num(semester)])
  }

  function CreateStudent(data: Obj): Request {
    Post(CreateEndpoint, Record(Payload(data)))
  }

  function UpdateStudent(data: Obj): Request {
    Post(CreateEndpoint, Record(Payload(data)))
  }

  /** One bulk row: `{...student, batch: student.batch.toString(), regNo: student.regNo.toString()}`. */
  function FormatStudentRow(row: Obj): Result<Obj, JsError> {
    match StringifyField(row, "batch")
    case Err(e) => Err(e)
    case Ok(withBatch) => StringifyField(withBatch, "regNo")
  }

  /** `data.map(...)` over the sheet rows. */
  function FormatStudentRows(rows: seq<Obj>): Result<seq<Obj>, JsError> {
    MapOrThrow(rows, FormatStudentRow)
  }

  /** `bulkCreateStudents`: the formatted rows posted in one request; an error thrown while
      formatting is rethrown and nothing is posted. */
  function BulkCreateStudents(rows: seq<Obj>): Result<Request, JsError> {
    match FormatStudentRows(rows)
    case Err(e) => Err(e)
    case Ok(formatted) => Ok(Post(CreateManyEndpoint, Rows(formatted)))
  }

  // ---------------------------------------------------------------- lemmas

  /** Creating and updating post the same body to the same endpoint. */
  lemma UpdatePostsLikeCreate(data: Obj)
    ensures UpdateStudent(data).endpoint == "/user.student.create"
    ensures UpdateStudent(data) == CreateStudent(data)
  {
  }

  /** A form record with year and semester tokens is sent with those fields as the numbers
      they spell, every other field as it was. */
  lemma PayloadOfDigitTokens(data: Obj, y: char, s: char)
    requires Get(data, "year") == Str([y]) && Get(data, "semester") == Str([s])
    requires IsDigit(y) && IsDigit(s)
    ensures CreateStudent(data).body.record["year"] == Num(Int(DigitValue(y)))
    ensures CreateStudent(data).body.record["semester"] == Num(Int(DigitValue(s)))
    ensures forall k :: k in data && k != "year" && k != "semester" ==> CreateStudent(data).body.record[k] == data[k]
  {
    ParseIntOfDigit(y);
    ParseIntOfDigit(s);
  }

  /** A row is formatted when it has both a batch and a regNo; then both become their text,
      and every other field and the set of keys are unchanged. */
  lemma FormatStudentRowSpec(row: Obj)
    ensures FormatStudentRow(row).Err? <==> Nullish(Get(row, "batch")) || Nullish(Get(row, "regNo"))
    ensures FormatStudentRow(row).Ok? ==>
      var r := FormatStudentRow(row).value;
      && r.Keys == row.Keys
      && r["batch"] == Str(ToJsString(row["batch"]))
      && r["regNo"] == Str(ToJsString(row["regNo"]))
      && forall k :: k in row && k != "batch" && k != "regNo" ==> r[k] == row[k]
  {
  }

  /** The bulk request is built exactly when every row has a batch and a regNo. */
  lemma BulkFailsIffFieldMissing(rows: seq<Obj>)
    ensures BulkCreateStudents(rows).Err? <==>
      exists i :: 0 <= i < |rows| && (Nullish(Get(rows[i], "batch")) || Nullish(Get(rows[i], "regNo")))
  {
    forall i | 0 <= i < |rows| {
      FormatStudentRowSpec(rows[i]);
    }
  }

  /** The posted rows are the input rows, formatted one by one, in the same order. */
  lemma BulkKeepsOrder(rows: seq<Obj>)
    requires BulkCreateStudents(rows).Ok?
    ensures BulkCreateStudents(rows).value.endpoint == "/user.student.createMany"
    ensures |BulkCreateStudents(rows).value.body.rows| == |rows|
    ensures forall i :: 0 <= i < |rows| ==> BulkCreateStudents(rows).value.body.rows[i] == FormatStudentRow(rows[i]).value
  {
  }

  /** Formatting a formatted row again gives the same row. */
  lemma FormatStudentRowIdempotent(row: Obj)
    requires FormatStudentRow(row).Ok?
    ensures FormatStudentRow(FormatStudentRow(row).value) == FormatStudentRow(row)
  {
    FormatStudentRowSpec(row);
    var once := FormatStudentRow(row).value;
    StringifyFieldOfText(once, "batch");
    StringifyFieldOfText(once, "regNo");
  }

  /** Formatting the formatted rows again gives the same rows. */
  lemma FormatStudentRowsIdempotent(rows: seq<Obj>)
    requires FormatStudentRows(rows).Ok?
    ensures FormatStudentRows(FormatStudentRows(rows).value) == FormatStudentRows(rows)
  {
    var once := FormatStudentRows(rows).value;
    forall i | 0 <= i < |once|
      ensures FormatStudentRow(once[i]) == Ok(once[i])
    {
      FormatStudentRowIdempotent(rows[i]);
    }
    assert FormatStudentRows(once).Ok?;
    var twice := FormatStudentRows(once).value;
    assert twice == once;
  }
}
