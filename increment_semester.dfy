/** The increment-semester form: a batch chosen from the same year list the student page
    builds, a maximum semester chosen from 4 to 12, and a schema that requires both. */
module IncrementSemester {
  import opened Js
  import opened Zod
  import Students

  const BatchMessage := "Batch is required"
  const MaxSemesterMessage := "Max semester is required"

  /** `incrementSemesterSchema.safeParse(o)`. */
  function IncrementStatus(o: Obj): Status {
    Merge(String("batch", Get(o, "batch"), [Rule(|Text(Get(o, "batch"))| >= 1, BatchMessage)]),
          String("maxSemester", Get(o, "maxSemester"), [Rule(|Text(Get(o, "maxSemester"))| >= 1, MaxSemesterMessage)]))
  }

  /** The schema accepts exactly the records whose batch and maximum semester are both
      non-empty texts. */
  lemma IncrementSchemaAccepts(o: Obj)
    ensures IncrementStatus(o).Valid? <==>
      Get(o, "batch").Str? && Get(o, "batch").s != "" && Get(o, "maxSemester").Str? && Get(o, "maxSemester").s != ""
  {
  }

  /** The form's defaults: no batch, maximum semester "8". */
  function Defaults(): Obj {
    map["batch" := Str(""), "maxSemester" := Str("8")]
  }

  /** The untouched form is rejected, and only for its batch. */
  lemma DefaultsRejected()
    ensures IssuesOf(IncrementStatus(Defaults())) == [Issue("batch", BatchMessage)]
  {
    var o := Defaults();
    assert Get(o, "batch") == Str("");
    assert Get(o, "maxSemester") == Str("8");
    var batch := String("batch", Get(o, "batch"), [Rule(|Text(Get(o, "batch"))| >= 1, BatchMessage)]);
    var maxSemester := String("maxSemester", Get(o, "maxSemester"), [Rule(|Text(Get(o, "maxSemester"))| >= 1, MaxSemesterMessage)]);
    assert IssuesOf(batch) == [Issue("batch", BatchMessage)];
    assert IssuesOf(maxSemester) == [];
  }

  /** `[4, 5, …, 12].map(semester => semester.toString())`: the texts of 4 to 12. */
  function MaxSemesterOptions(): (r: seq<string>)
    ensures |r| == 9
  {
    Students.YearRange(4, 12)
  }

  /** The options spell exactly the numbers 4 to 12. */
  lemma MaxSemesterOptionsRange(s: string)
    ensures s in MaxSemesterOptions() <==> exists n :: 4 <= n <= 12 && s == IntToString(n)
  {
    var r := MaxSemesterOptions();
    if s in r {
      var i :| 0 <= i < |r| && r[i] == s;
      assert s == IntToString(4 + i);
    }
    if n :| 4 <= n <= 12 && s == IntToString(n) {
      assert r[n - 4] == s;
    }
  }

  /** Option `i` reads back as `4 + i`, so the options ascend without repeats. */
  lemma MaxSemesterOptionsAscending(i: nat, j: nat)
    requires i < j < 9
    ensures ParseInt(MaxSemesterOptions()[i], Decimal) == Int(4 + i)
    ensures ParseInt(MaxSemesterOptions()[j], Decimal) == Int(4 + j)
    ensures MaxSemesterOptions()[i] != MaxSemesterOptions()[j]
  {
    ParseIntOfIntToString(4 + i, Decimal);
    ParseIntOfIntToString(4 + j, Decimal);
  }

  /** The default maximum semester is one of the options. */
  lemma DefaultMaxSemesterOffered()
    ensures Defaults()["maxSemester"].s in MaxSemesterOptions()
  {
    assert MaxSemesterOptions()[4] == IntToString(8) == [DigitChar(8)];
  }

  /** `generateYearOptions` here is the same loop as on the student page, so its batch
      options are `Students.YearOptions`; any batch and maximum semester picked from the two
      selects pass the schema. */
  lemma SelectedValuesAccepted(o: Obj, currentYear: int)
    requires Get(o, "batch").Str? && Get(o, "batch").s in Students.YearOptions(currentYear)
    requires Get(o, "maxSemester").Str? && Get(o, "maxSemester").s in MaxSemesterOptions()
    ensures IncrementStatus(o).Valid?
  {
    Students.YearOptionsMembership(Get(o, "batch").s, currentYear);
    var y :| 2000 <= y <= currentYear + 6 && Get(o, "batch").s == IntToString(y);
    assert AllDigits(NatToString(y));
    MaxSemesterOptionsRange(Get(o, "maxSemester").s);
    var n :| 4 <= n <= 12 && Get(o, "maxSemester").s == IntToString(n);
    assert AllDigits(NatToString(n));
  }
}
