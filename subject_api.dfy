/** The request `bulkCreateSubjects` builds: every sheet row with its `semester` turned into
    text, posted in one request. The HTTP call itself is not modelled. */
module SubjectApi {
  import opened Js
  import StudentApi

  const CreateManyEndpoint := "/subject.createMany"

  /** One row: `{...subject, semester: subject.semester.toString()}`. */
  function FormatSubjectRow(row: Obj): Result<Obj, JsError> {
    StringifyField(row, "semester")
  }

  function FormatSubjectRows(rows: seq<Obj>): Result<seq<Obj>, JsError> {
    MapOrThrow(rows, FormatSubjectRow)
  }

  /** `bulkCreateSubjects`: a formatting error is rethrown and nothing is posted. */
  function BulkCreateSubjects(rows: seq<Obj>): Result<StudentApi.Request, JsError> {
    match FormatSubjectRows(rows)
    case Err(e) => Err(e)
    case Ok(formatted) => Ok(StudentApi.Post(CreateManyEndpoint, StudentApi.Rows(formatted)))
  }

  // ---------------------------------------------------------------- lemmas

  /** The request is built exactly when every row has a semester. */
  lemma BulkFailsIffSemesterMissing(rows: seq<Obj>)
    ensures BulkCreateSubjects(rows).Err? <==> exists i :: 0 <= i < |rows| && Nullish(Get(rows[i], "semester"))
  {
  }

  /** Row `i` of the request comes from input row `i`: its semester is the text of the old
      one, and subjectCode, name, id and every other field are unchanged. */
  lemma BulkRowsFormatted(rows: seq<Obj>, i: nat)
    requires BulkCreateSubjects(rows).Ok? && i < |rows|
    ensures BulkCreateSubjects(rows).value.endpoint == "/subject.createMany"
    ensures |BulkCreateSubjects(rows).value.body.rows| == |rows|
    ensures var out := BulkCreateSubjects(rows).value.body.rows[i];
      && out.Keys == rows[i].Keys
      && out["semester"] == Str(ToJsString(rows[i]["semester"]))
      && forall k :: k in rows[i] && k != "semester" ==> out[k] == rows[i][k]
  {
    assert FormatSubjectRow(rows[i]).Ok?;
  }

  /** Rows whose semesters are already text are sent as they are. */
  lemma FormatSubjectRowsIdempotent(rows: seq<Obj>)
    requires FormatSubjectRows(rows).Ok?
    ensures FormatSubjectRows(FormatSubjectRows(rows).value) == FormatSubjectRows(rows)
  {
    var once := FormatSubjectRows(rows).value;
    forall i | 0 <= i < |once|
      ensures FormatSubjectRow(once[i]) == Ok(once[i])
    {
      assert FormatSubjectRow(rows[i]).Ok?;
      StringifyFieldOfText(once[i], "semester");
    }
    assert FormatSubjectRows(once).Ok?;
    assert FormatSubjectRows(once).value == once;
  }
}
