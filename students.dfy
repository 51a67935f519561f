/** The student management page: the batch-year list, the page's own copy of the student
    schema (with a list-membership batch rule), the semester auto-fill on year change, the
    semester dropdown, the bulk-upload row formatting and the page slice. */
module Students {
  import opened Js
  import opened Zod
  import opened StudentSchema
  import Forms
  import Pagination
  import StudentApi

  // ---------------------------------------------------------------- batch-year options

  /** The decimal spellings of the years `lo..hi`, in ascending order. */
  function YearRange(lo: int, hi: int): (r: seq<string>)
    ensures |r| == if hi >= lo then hi - lo + 1 else 0
    ensures forall i :: 0 <= i < |r| ==> r[i] == IntToString(lo + i)
    decreases hi - lo
  {
    if lo > hi then [] else [IntToString(lo)] + YearRange(lo + 1, hi)
  }

  /** The batch years the page offers: 2000 up to six years ahead of the current year. */
  function YearOptions(currentYear: int): seq<string> {
    YearRange(2000, currentYear + 6)
  }

  /** `generateYearOptions`: a `for` loop from 2000 to `currentYear + 6` pushing each year's
      text. The same loop appears in the role-assignment and semester-increment forms. */
  method GenerateYearOptions(currentYear: int) returns (years: seq<string>)
    ensures years == YearOptions(currentYear)
    ensures |years| == if currentYear + 6 >= 2000 then currentYear - 1993 else 0
  {
    years := [];
    var year := 2000;
    while year <= currentYear + 6
      invariant 2000 <= year && (year <= currentYear + 7 || year == 2000)
      invariant years == YearRange(2000, year - 1)
    {
      YearRangeSnoc(2000, year - 1);
      years := years + [IntToString(year)];
      year := year + 1;
    }
  }

  /** Extending a range by one year appends that year's text. */
  lemma {:induction false} YearRangeSnoc(lo: int, hi: int)
    requires lo <= hi + 1
    ensures YearRange(lo, hi + 1) == YearRange(lo, hi) + [IntToString(hi + 1)]
    decreases hi - lo
  {
    if lo <= hi {
      YearRangeSnoc(lo + 1, hi);
    }
  }

  /** A text is offered exactly when it is the decimal spelling of a year in the window. */
  lemma YearOptionsMembership(s: string, currentYear: int)
    ensures s in YearOptions(currentYear) <==> exists y :: 2000 <= y <= currentYear + 6 && s == IntToString(y)
  {
    var r := YearOptions(currentYear);
    if s in r {
      var i :| 0 <= i < |r| && r[i] == s;
      assert s == IntToString(2000 + i);
    }
    if y :| 2000 <= y <= currentYear + 6 && s == IntToString(y) {
      assert r[y - 2000] == s;
    }
  }

  /** The options spell the years 2000, 2001, ... in order, so they are ascending and have
      no duplicates. */
  lemma YearOptionsAscending(currentYear: int, i: nat, j: nat)
    requires i < j < |YearOptions(currentYear)|
    ensures ParseInt(YearOptions(currentYear)[i], Decimal) == Int(2000 + i)
    ensures ParseInt(YearOptions(currentYear)[j], Decimal) == Int(2000 + j)
    ensures YearOptions(currentYear)[i] != YearOptions(currentYear)[j]
  {
    ParseIntOfIntToString(2000 + i, Decimal);
    ParseIntOfIntToString(2000 + j, Decimal);
  }

  /** Every option is a plain run of digits. */
  lemma YearOptionsAreDigits(currentYear: int)
    ensures forall s :: s in YearOptions(currentYear) ==> AllDigits(s)
  {
    forall s | s in YearOptions(currentYear) ensures AllDigits(s) {
      YearOptionsMembership(s, currentYear);
      var y :| 2000 <= y <= currentYear + 6 && s == IntToString(y);
    }
  }

  // ---------------------------------------------------------------- the page's schema

  const ListBatchMessage := "Invalid batch Year, please select from the dropdown"

  /** `z.string().min(1, ...).refine(v => generateYearOptions().includes(v), ...)`. */
  function ListBatchField(v: Value, currentYear: int): Status {
    String("batch", v, [Rule(|Text(v)| >= 1, "Batch is required"),
                        Rule(Text(v) in YearOptions(currentYear), ListBatchMessage)])
  }

  /** The page's `studentSchema.safeParse(o)`: the shared fields and pairing refinement, with
      the list rule on batch. */
  function PageStudentStatus(o: Obj, currentYear: int, isEmail: string -> bool): Status {
    StudentObject(o, ListBatchField(Get(o, "batch"), currentYear), isEmail)
  }

  lemma ListBatchFieldAccepts(v: Value, currentYear: int)
    ensures ListBatchField(v, currentYear).Valid? <==> v.Str? && v.s in YearOptions(currentYear)
  {
    var rules := [Rule(|Text(v)| >= 1, "Batch is required"),
                  Rule(Text(v) in YearOptions(currentYear), ListBatchMessage)];
    assert (forall i :: 0 <= i < |rules| ==> rules[i].holds) <==> rules[0].holds && rules[1].holds;
    YearOptionsAreDigits(currentYear);
  }

  /** The page's schema accepts a record exactly when the shared fields pass, the batch is
      one of the offered years, and year and semester pair up. */
  lemma PageSchemaAccepts(o: Obj, currentYear: int, isEmail: string -> bool)
    ensures PageStudentStatus(o, currentYear, isEmail).Valid? <==>
      && CommonFieldsValid(o, isEmail)
      && Get(o, "batch").Str? && Get(o, "batch").s in YearOptions(currentYear)
      && PairedTokens(o)
  {
    ListBatchFieldAccepts(Get(o, "batch"), currentYear);
    StudentObjectAccepts(o, ListBatchField(Get(o, "batch"), currentYear), isEmail);
  }

  /** Every offered year passes the shared schema's `parseInt` range rule. */
  lemma ListRuleImpliesRangeRule(s: string, currentYear: int)
    requires s in YearOptions(currentYear)
    ensures BatchInRange(s, currentYear)
  {
    YearOptionsMembership(s, currentYear);
    var y :| 2000 <= y <= currentYear + 6 && s == IntToString(y);
    ParseIntOfIntToString(y, Decimal);
  }

  /** So a record the page accepts is accepted by the shared schema too. */
  lemma PageSchemaStricter(o: Obj, currentYear: int, isEmail: string -> bool)
    requires PageStudentStatus(o, currentYear, isEmail).Valid?
    ensures StudentStatus(o, currentYear, isEmail).Valid?
  {
    PageSchemaAccepts(o, currentYear, isEmail);
    ListRuleImpliesRangeRule(Get(o, "batch").s, currentYear);
    StudentSchemaAccepts(o, currentYear, isEmail);
  }

  /** The converse fails: digits followed by other text, such as "2020abc", pass the range
      rule but are not offered. */
  lemma ListRejectsTrailingText(d: string, rest: string, currentYear: int)
    requires AllDigits(d) && rest != [] && !IsDigit(rest[0])
    requires 2000 <= DigitsValue(d, 10) <= currentYear + 6
    ensures BatchInRange(d + rest, currentYear)
    ensures d + rest !in YearOptions(currentYear)
  {
    BatchIgnoresTrailingText(d, rest, currentYear);
    YearOptionsAreDigits(currentYear);
    assert (d + rest)[|d|] == rest[0];
  }

  /** Nor is a year with leading white space, such as " 2020", which the range rule reads. */
  lemma ListRejectsLeadingSpace(c: char, s: string, currentYear: int)
    requires IsJsSpace(c)
    ensures BatchInRange([c] + s, currentYear) == BatchInRange(s, currentYear)
    ensures [c] + s !in YearOptions(currentYear)
  {
    BatchIgnoresLeadingSpace(c, s, currentYear);
    YearOptionsAreDigits(currentYear);
    assert ([c] + s)[0] == c;
  }

  // ---------------------------------------------------------------- year change

  /** `String(Number(year) * 2 - 1)`: the semester the year's first half maps to. */
  function AutoSemester(year: Value): string {
    ToJsString(Num(TwiceMinusOne(ToNumber(year))))
  }

  /** For years 1 to 4 the auto-filled semester is the first of the year's two, a valid
      semester token that pairs with the year. */
  lemma AutoSemesterPairs(c: char)
    requires '1' <= c <= '4'
    ensures AutoSemester(Str([c])) == [DigitChar(2 * DigitValue(c) - 1)]
    ensures AutoSemester(Str([c])) in SemesterEnum
    ensures PairingRefine(Str([c]), Str(AutoSemester(Str([c]))))
  {
    var semester := [DigitChar(2 * DigitValue(c) - 1)];
    AutoSemesterOfDigit(c);
    assert NatToString(2 * DigitValue(c) - 1) == semester;
    SemesterEnumTokens(semester);
    PairingMatchesTable([c], semester);
  }

  /** The auto-fill of a one-digit year `c` is the text of `2c - 1`. */
  lemma AutoSemesterOfDigit(c: char)
    requires IsDigit(c)
    ensures AutoSemester(Str([c])) == IntToString(2 * DigitValue(c) - 1)
  {
    ToNumberOfDigit(c);
  }

  /** For year 5 the auto-fill writes "9". */
  lemma AutoSemesterFive(c: char)
    requires c == '5'
    ensures AutoSemester(Str([c])) == "9"
  {
    AutoSemesterOfDigit(c);
    assert IntToString(9) == "9";
  }

  /** For year 6 the auto-fill writes "11". */
  lemma AutoSemesterSix(c: char)
    requires c == '6'
    ensures AutoSemester(Str([c])) == "11"
  {
    AutoSemesterOfDigit(c);
    NatToStringTwoDigits(11);
  }

  /** For years 5 and 6 the auto-fill writes a semester the enum rejects. */
  lemma AutoSemesterContinuing(c: char)
    requires c == '5' || c == '6'
    ensures AutoSemester(Str([c])) !in SemesterEnum
  {
    var text := AutoSemester(Str([c]));
    if c == '5' { AutoSemesterFive(c); } else { AutoSemesterSix(c); }
    SemesterEnumTokens(text);
  }

  /** Choosing "other" writes "NaN". */
  lemma AutoSemesterOther()
    ensures AutoSemester(Str("other")) == "NaN"
  {
    assert TrimStart("other") == "other";
    assert TrimEnd("other") == "other";
  }

  /** The year-watch effect: when the watched year is truthy, the semester is set to
      `String(Number(year) * 2 - 1)`; nothing else changes. */
  method YearEffect(form: Forms.Form)
    modifies form
    ensures Truthy(old(form.Value("year"))) ==>
      form.values == old(form.values)["semester" := Str(AutoSemester(old(form.Value("year"))))]
    ensures !Truthy(old(form.Value("year"))) ==> form.values == old(form.values)
    ensures form.errors == old(form.errors) && form.submitted == old(form.submitted) && form.defaults == old(form.defaults)
  {
    var year := form.Value("year");
    if Truthy(year) {
      form.SetValue("semester", Str(AutoSemester(year)));
    }
  }

  // ---------------------------------------------------------------- editing a student

  /** The record `handleEdit` resets the form to: the student with year and semester as text
      (`toString()`, which throws on a missing one) and a missing batch as "". */
  function EditValues(student: Obj): (r: Result<Obj, JsError>)
    ensures r.Err? <==> Nullish(Get(student, "year")) || Nullish(Get(student, "semester"))
    ensures r.Ok? ==> r.value.Keys == student.Keys + {"batch"}
    ensures r.Ok? ==> Get(r.value, "year") == Str(ToJsString(Get(student, "year")))
    ensures r.Ok? ==> Get(r.value, "semester") == Str(ToJsString(Get(student, "semester")))
    ensures r.Ok? ==> Get(r.value, "batch") == if Nullish(Get(student, "batch")) then Str("") else Get(student, "batch")
    ensures r.Ok? ==> forall k :: k in student && k != "year" && k != "semester" && k != "batch" ==> r.value[k] == student[k]
  {
    match ToStringMethod(Get(student, "year"))
    case Err(e) => Err(e)
    case Ok(year) =>
      match ToStringMethod(Get(student, "semester"))
      case Err(e) => Err(e)
      case Ok(semester) =>
        var batch := if Nullish(Get(student, "batch")) then Str("") else Get(student, "batch");
        Ok(Spread(student, map["year" := Str(year), "semester" := Str(semester), "batch" := batch]))
  }

  /** The values the page's form settles on after a reset to `record` when its watched year
      was `previousYear`: the year effect fires when the year changed, and then writes the
      auto-filled semester over the record's. */
  function ValuesAfterReset(previousYear: Value, record: Obj): Obj {
    if Get(record, "year") != previousYear && Truthy(Get(record, "year"))
    then record["semester" := Str(AutoSemester(Get(record, "year")))]
    else record
  }

  /** `handleEdit(student)` as written: `form.reset` to the edit values, then the year effect
      when the reset changed the watched year. A student without a year or semester throws
      before the form is touched. */
  method HandleEdit(form: Forms.Form, student: Obj) returns (thrown: bool)
    modifies form
    ensures thrown <==> EditValues(student).Err?
    ensures thrown ==>
      form.values == old(form.values) && form.defaults == old(form.defaults)
      && form.errors == old(form.errors) && form.submitted == old(form.submitted)
    ensures !thrown ==> form.defaults == EditValues(student).value && form.errors == map[] && !form.submitted
    ensures !thrown ==> form.values == ValuesAfterReset(old(form.Value("year")), EditValues(student).value)
  {
    match EditValues(student)
    case Err(_) =>
      thrown := true;
    case Ok(record) =>
      thrown := false;
      var previousYear := form.Value("year");
      form.Reset(record);
      if form.Value("year") != previousYear {
        YearEffect(form);
      }
  }

  /** Editing overwrites the record's semester exactly when the record's year differs from
      the form's previous one (and is not empty) and the auto-fill is not already the
      record's semester. */
  lemma EditKeepsSemesterIff(previousYear: Value, record: Obj)
    ensures Get(ValuesAfterReset(previousYear, record), "semester") == Get(record, "semester") <==>
      Get(record, "year") == previousYear || !Truthy(Get(record, "year"))
      || Get(record, "semester") == Str(AutoSemester(Get(record, "year")))
  {
  }

  /** A year-2 student in semester 4, edited after a year-1 student: the form shows semester
      "3", and an update of the form's data sends "3" over the record's 4. */
  lemma EditShowsWrongSemester()
    ensures var student := map["year" := Num(Int(2)), "semester" := Num(Int(4)), "batch" := Str("2023")];
      && EditValues(student).Ok?
      && Get(EditValues(student).value, "semester") == Str("4")
      && Get(ValuesAfterReset(Str("1"), EditValues(student).value), "semester") == Str("3")
      && Forms.Submit(Some(student), ValuesAfterReset(Str("1"), EditValues(student).value)).record["semester"] == Str("3")
  {
    var student := map["year" := Num(Int(2)), "semester" := Num(Int(4)), "batch" := Str("2023")];
    assert Get(student, "year") == Num(Int(2)) && Get(student, "semester") == Num(Int(4));
    var record := EditValues(student).value;
    assert IntToString(2) == "2" && IntToString(4) == "4";
    assert Get(record, "year") == Str(['2']) && Get(record, "semester") == Str("4");
    AutoSemesterOfDigit('2');
    assert IntToString(3) == "3";
    assert Get(ValuesAfterReset(Str("1"), record), "semester") == Str("3");
  }

  /** `handleEdit` with the auto-fill tied to the year select's own change (as the student
      dialog does) rather than to every change of the watched year: the reset alone, which
      leaves the record's year and semester in the form. */
  method CorrectedHandleEdit(form: Forms.Form, student: Obj) returns (thrown: bool)
    modifies form
    ensures thrown <==> EditValues(student).Err?
    ensures thrown ==>
      form.values == old(form.values) && form.defaults == old(form.defaults)
      && form.errors == old(form.errors) && form.submitted == old(form.submitted)
    ensures !thrown ==> form.values == form.defaults == EditValues(student).value && form.errors == map[] && !form.submitted
    ensures !thrown ==>
      form.Value("year") == Str(ToJsString(Get(student, "year")))
      && form.Value("semester") == Str(ToJsString(Get(student, "semester")))
  {
    match EditValues(student)
    case Err(_) =>
      thrown := true;
    case Ok(record) =>
      thrown := false;
      form.Reset(record);
  }

  /** With the corrected edit, the same year-2, semester-4 student is shown, and updated, in
      semester "4". */
  lemma CorrectedEditShowsSemester()
    ensures var student := map["year" := Num(Int(2)), "semester" := Num(Int(4)), "batch" := Str("2023")];
      && EditValues(student).Ok?
      && Forms.Submit(Some(student), EditValues(student).value).record["semester"] == Str("4")
  {
    var student := map["year" := Num(Int(2)), "semester" := Num(Int(4)), "batch" := Str("2023")];
    assert IntToString(4) == "4";
    assert Get(EditValues(student).value, "semester") == Str("4");
  }

  /** The semester dropdown: the year's two semesters for "1" to "4", nothing otherwise. */
  function SemesterChoices(year: Value): seq<string> {
    if year == Str("1") then ["1", "2"]
    else if year == Str("2") then ["3", "4"]
    else if year == Str("3") then ["5", "6"]
    else if year == Str("4") then ["7", "8"]
    else []
  }

  /** Every offered semester is a semester token that pairs with the year; something is
      offered exactly for the years "1" to "4". */
  lemma SemesterChoicesPair(year: Value)
    ensures SemesterChoices(year) != [] <==> year.Str? && IsToken(year.s, '1', '4')
    ensures forall i :: 0 <= i < |SemesterChoices(year)| ==>
      SemesterChoices(year)[i] in SemesterEnum && PairingRefine(year, Str(SemesterChoices(year)[i]))
  {
    if year.Str? && IsToken(year.s, '1', '4') {
      var c := year.s[0];
      assert year == Str([c]);
      SemesterChoicesOfToken(c);
    } else {
      SemesterChoicesOfNonToken(year);
    }
  }

  /** A year digit from 1 to 4 is offered two semesters, each in the enum and pairing. */
  lemma SemesterChoicesOfToken(c: char)
    requires '1' <= c <= '4'
    ensures |SemesterChoices(Str([c]))| == 2
    ensures forall i :: 0 <= i < |SemesterChoices(Str([c]))| ==>
      SemesterChoices(Str([c]))[i] in SemesterEnum && PairingRefine(Str([c]), Str(SemesterChoices(Str([c]))[i]))
  {
    SemesterChoicesOfDigit(c);
    OwnSemestersPair(c);
    ChoicesPairWith(Str([c]), [DigitChar(2 * DigitValue(c) - 1)], [DigitChar(2 * DigitValue(c))]);
  }

  /** Two offered semesters that are in the enum and pair give the dropdown's property. */
  lemma ChoicesPairWith(year: Value, first: string, second: string)
    requires SemesterChoices(year) == [first, second]
    requires first in SemesterEnum && second in SemesterEnum
    requires PairingRefine(year, Str(first)) && PairingRefine(year, Str(second))
    ensures forall i :: 0 <= i < |SemesterChoices(year)| ==>
      SemesterChoices(year)[i] in SemesterEnum && PairingRefine(year, Str(SemesterChoices(year)[i]))
  {
  }

  /** Any other value, text or not, is offered nothing. */
  lemma SemesterChoicesOfNonToken(year: Value)
    requires !(year.Str? && IsToken(year.s, '1', '4'))
    ensures SemesterChoices(year) == []
  {
    if year.Str? {
      YearEnumTokens(year.s);
      assert year.s !in YearEnum;
    }
  }

  /** For a year digit from 1 to 4 the dropdown offers semesters `2y - 1` and `2y`. */
  lemma SemesterChoicesOfDigit(c: char)
    requires '1' <= c <= '4'
    ensures SemesterChoices(Str([c])) == [[DigitChar(2 * DigitValue(c) - 1)], [DigitChar(2 * DigitValue(c))]]
  {
    if c == '1' {
      assert [c] == "1";
    } else if c == '2' {
      assert [c] == "2";
    } else if c == '3' {
      assert [c] == "3";
    } else {
      assert [c] == "4";
    }
  }

  /** A year of 5 or 6 typed into the "other" box leaves the form without a valid semester:
      the auto-fill writes one the enum rejects and the dropdown offers none. */
  lemma ContinuingYearHasNoSemester(c: char)
    requires c == '5' || c == '6'
    ensures AutoSemester(Str([c])) !in SemesterEnum
    ensures SemesterChoices(Str([c])) == []
  {
    AutoSemesterContinuing(c);
    SemesterChoicesPair(Str([c]));
  }

  // ---------------------------------------------------------------- bulk upload and paging

  /** The page's own `bulkCreateStudents`: only `batch` is turned into text. */
  function FormatBatchRows(rows: seq<Obj>): Result<seq<Obj>, JsError> {
    MapOrThrow(rows, (row: Obj) => StringifyField(row, "batch"))
  }

  function BulkCreateStudents(rows: seq<Obj>): Result<StudentApi.Request, JsError> {
    match FormatBatchRows(rows)
    case Err(e) => Err(e)
    case Ok(formatted) => Ok(StudentApi.Post(StudentApi.CreateManyEndpoint, StudentApi.Rows(formatted)))
  }

  /** The request is built exactly when every row has a batch; row `i` then carries the text
      of its batch and every other field of input row `i` unchanged. */
  lemma BulkBatchRowsFormatted(rows: seq<Obj>)
    ensures BulkCreateStudents(rows).Err? <==> exists i :: 0 <= i < |rows| && Nullish(Get(rows[i], "batch"))
    ensures BulkCreateStudents(rows).Ok? ==>
      && |BulkCreateStudents(rows).value.body.rows| == |rows|
      && forall i :: 0 <= i < |rows| ==>
        var out := BulkCreateStudents(rows).value.body.rows[i];
        && out.Keys == rows[i].Keys
        && out["batch"] == Str(ToJsString(rows[i]["batch"]))
        && forall k :: k in rows[i] && k != "batch" ==> out[k] == rows[i][k]
  {
  }

  const ItemsPerPage: nat := Pagination.DefaultPageSize

  /** The students page shows `Pagination.InlinePage(students, currentPage, 10)`. From
      page 1 on it holds the students at positions `(currentPage - 1) * 10` up to
      `currentPage * 10`, cut off at the end of the list. */
  lemma StudentPageIsPagerPage(students: seq<Obj>, currentPage: int)
    requires currentPage >= 1
    ensures Pagination.InlinePage(students, currentPage, ItemsPerPage) == Pagination.PageItems(students, currentPage, 10)
    ensures Pagination.InlinePage(students, currentPage, ItemsPerPage) ==
      students[Pagination.Min((currentPage - 1) * 10, |students|)..Pagination.Min(currentPage * 10, |students|)]
  {
    Pagination.InlinePageIsPage(students, currentPage, 10);
    Pagination.PageContents(students, currentPage, 10);
  }
}
