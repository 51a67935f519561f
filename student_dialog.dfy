/** The add/edit student dialog: its seven-year batch window, the semester options per
    year, the year handler that picks the first option, and its form defaults. The dialog
    validates with the shared student schema. */
module StudentDialog {
  import opened Js
  import opened Zod
  import opened StudentSchema
  import Forms
  import Students

  /** `Array.from({length: 7}, (_, i) => String(currentYear - 3 + i))`: the texts of the
      seven years `currentYear - 3 .. currentYear + 3`. */
  function DialogYearOptions(currentYear: int): (r: seq<string>)
    ensures |r| == 7
  {
    Students.YearRange(currentYear - 3, currentYear + 3)
  }

  /** Option `i` spells the year `currentYear - 3 + i`, and `parseInt` reads it back. */
  lemma DialogYearOption(currentYear: int, i: nat)
    requires i < 7
    ensures DialogYearOptions(currentYear)[i] == IntToString(currentYear - 3 + i)
    ensures ParseInt(DialogYearOptions(currentYear)[i], Decimal) == Int(currentYear - 3 + i)
  {
    ParseIntOfIntToString(currentYear - 3 + i, Decimal);
  }

  /** The window runs from three years back to three years ahead, in ascending order and
      without repeats. */
  lemma DialogYearsAscending(currentYear: int, i: nat, j: nat)
    requires i < j < 7
    ensures ParseInt(DialogYearOptions(currentYear)[i], Decimal) == Int(currentYear - 3 + i)
    ensures ParseInt(DialogYearOptions(currentYear)[j], Decimal) == Int(currentYear - 3 + j)
    ensures DialogYearOptions(currentYear)[i] != DialogYearOptions(currentYear)[j]
  {
    DialogYearOption(currentYear, i);
    DialogYearOption(currentYear, j);
  }

  /** From 2003 on, every offered batch passes the shared schema's range rule and is one of
      the student page's own batch options. */
  lemma DialogYearsAccepted(currentYear: int)
    requires currentYear >= 2003
    ensures forall s :: s in DialogYearOptions(currentYear) ==>
      BatchInRange(s, currentYear) && s in Students.YearOptions(currentYear)
  {
    var options := DialogYearOptions(currentYear);
    forall s | s in options
      ensures BatchInRange(s, currentYear) && s in Students.YearOptions(currentYear)
    {
      var i :| 0 <= i < 7 && options[i] == s;
      DialogYearOption(currentYear, i);
      Students.YearOptionsMembership(s, currentYear);
    }
  }

  /** Before 2003 the window starts below 2000, and its first year fails the range rule. */
  lemma EarlyWindowRejected(currentYear: int)
    requires currentYear < 2003
    ensures !BatchInRange(DialogYearOptions(currentYear)[0], currentYear)
  {
    ParseIntOfIntToString(currentYear - 3, Decimal);
  }

  /** `getSemesterOptions`: the year's two semesters for "1" to "4", otherwise just "1". */
  function GetSemesterOptions(year: string): (r: seq<string>)
    ensures |r| >= 1
  {
    if year == "1" then ["1", "2"]
    else if year == "2" then ["3", "4"]
    else if year == "3" then ["5", "6"]
    else if year == "4" then ["7", "8"]
    else ["1"]
  }

  /** For years "1" to "4" the options are the year's two semesters. */
  lemma SemesterOptionsOfYear(c: char)
    requires '1' <= c <= '4'
    ensures GetSemesterOptions([c]) == [[DigitChar(2 * DigitValue(c) - 1)], [DigitChar(2 * DigitValue(c))]]
  {
    if c == '1' {
      assert [c] == "1";
    } else if c == '2' {
      assert [c] == "2";
    } else if c == '3' {
      assert [c] == "3";
    } else {
      assert [c] == "4";
    }
  }

  /** For years "1" to "4" both options are semester tokens that pair with the year under
      the shared schema, and the first is `2y - 1`, the semester the student page's auto-fill
      writes. */
  lemma SemesterOptionsPair(year: string)
    requires IsToken(year, '1', '4')
    ensures |GetSemesterOptions(year)| == 2
    ensures forall i :: 0 <= i < 2 ==>
      GetSemesterOptions(year)[i] in SemesterEnum && PairingRefine(Str(year), Str(GetSemesterOptions(year)[i]))
    ensures GetSemesterOptions(year)[0] == Students.AutoSemester(Str(year))
  {
    var c := year[0];
    assert year == [c];
    OptionsOfYearPair(c);
    FirstOptionIsAutoFill(c);
  }

  lemma OptionsOfYearPair(c: char)
    requires '1' <= c <= '4'
    ensures |GetSemesterOptions([c])| == 2
    ensures forall i :: 0 <= i < 2 ==>
      GetSemesterOptions([c])[i] in SemesterEnum && PairingRefine(Str([c]), Str(GetSemesterOptions([c])[i]))
  {
    SemesterOptionsOfYear(c);
    var first := [DigitChar(2 * DigitValue(c) - 1)];
    var second := [DigitChar(2 * DigitValue(c))];
    SemesterEnumTokens(first);
    SemesterEnumTokens(second);
    PairingMatchesTable([c], first);
    PairingMatchesTable([c], second);
  }

  lemma FirstOptionIsAutoFill(c: char)
    requires '1' <= c <= '4'
    ensures GetSemesterOptions([c])[0] == Students.AutoSemester(Str([c]))
  {
    SemesterOptionsOfYear(c);
    Students.AutoSemesterPairs(c);
  }

  /** Any other text falls through to the default, a lone "1". */
  lemma OtherYearsDefault(year: string)
    requires !IsToken(year, '1', '4')
    ensures GetSemesterOptions(year) == ["1"]
  {
  }

  /** The year select offers "1" to "4" only. */
  const YearSelectOptions: seq<string> := ["1", "2", "3", "4"]

  lemma YearSelectOptionsAreYears()
    ensures forall i :: 0 <= i < |YearSelectOptions| ==> IsToken(YearSelectOptions[i], '1', '4')
  {
  }

  /** After a year change, the re-validated year error is there exactly when the new year is
      not one of "1" to "6". */
  lemma YearRevalidated(errors: map<string, string>, values: Obj, year: string, currentYear: int, isEmail: string -> bool)
    ensures "year" in Forms.Revalidated(errors, "year", IssuesOf(StudentStatus(values["year" := Str(year)], currentYear, isEmail)))
      <==> !IsYearToken(year)
  {
    var o := values["year" := Str(year)];
    assert Get(o, "year") == Str(year);
    StudentYearError(o, currentYear, isEmail);
    YearFieldError(Str(year));
  }

  /** The year handler: `field.onChange(year)`, then `setValue` of semester to the year's
      first option. For every year the select offers, the result pairs under the shared
      schema. Once the form has been submitted, `field.onChange` validates again (the schema's
      clock year and email check are `currentYear` and `isEmail`), on the values before the
      semester update, and replaces the year's error: it is cleared for "1" to "6" and kept
      for anything else. */
  method OnYearChange(form: Forms.Form, year: string, currentYear: int, isEmail: string -> bool)
    modifies form
    ensures form.values == old(form.values)["year" := Str(year)]["semester" := Str(GetSemesterOptions(year)[0])]
    ensures form.submitted == old(form.submitted)
    ensures form.errors ==
      if old(form.submitted) then Forms.Revalidated(old(form.errors), "year", IssuesOf(StudentStatus(old(form.values)["year" := Str(year)], currentYear, isEmail)))
      else old(form.errors)
    ensures old(form.submitted) ==> ("year" in form.errors <==> !IsYearToken(year))
    ensures year in YearSelectOptions ==>
      form.Value("semester").s in SemesterEnum && PairingRefine(form.Value("year"), form.Value("semester"))
  {
    YearRevalidated(form.errors, form.values, year, currentYear, isEmail);
    SelectedYearPairs(year);
    var options := GetSemesterOptions(year);
    form.FieldChange("year", Str(year), (o: Obj) => StudentStatus(o, currentYear, isEmail));
    form.SetValue("semester", Str(options[0]));
  }

  /** A year the select offers gets a first option that is a semester pairing with it. */
  lemma SelectedYearPairs(year: string)
    ensures year in YearSelectOptions ==>
      GetSemesterOptions(year)[0] in SemesterEnum && PairingRefine(Str(year), Str(GetSemesterOptions(year)[0]))
  {
    if year in YearSelectOptions {
      assert IsToken(year, '1', '4');
      SemesterOptionsPair(year);
    }
  }

  /** The dialog's defaults: empty regNo, name and department, roll number 1, year, semester
      "1", section "A", the current year as batch and no email. */
  function Defaults(currentYear: int): Obj {
    map["regNo" := Str(""), "rollno" := Num(Int(1)), "name" := Str(""), "year" := Str("1"),
        "section" := Str("A"), "semester" := Str("1"), "batch" := Str(IntToString(currentYear)),
        "email" := Null, "departmentId" := Str("")]
  }

  /** A record with empty regNo and name reports both. */
  lemma EmptyRegNoAndNameReported(o: Obj, batch: Status, isEmail: string -> bool)
    requires Get(o, "regNo") == Str("") && Get(o, "name") == Str("")
    ensures !StudentObject(o, batch, isEmail).Valid?
    ensures Issue("regNo", "Registration number is required") in IssuesOf(StudentObject(o, batch, isEmail))
    ensures Issue("name", "Name is required") in IssuesOf(StudentObject(o, batch, isEmail))
  {
    var regNo := String("regNo", Get(o, "regNo"), [Rule(|Text(Get(o, "regNo"))| >= 1, "Registration number is required")]);
    var name := String("name", Get(o, "name"), [Rule(|Text(Get(o, "name"))| >= 1, "Name is required")]);
    assert IssuesOf(regNo) == [Issue("regNo", "Registration number is required")];
    assert IssuesOf(name) == [Issue("name", "Name is required")];
    assert Issue("regNo", "Registration number is required") in IssuesOf(LeadingFields(o));
    assert Issue("name", "Name is required") in IssuesOf(LeadingFields(o));
  }

  /** The dialog cannot be submitted untouched: regNo and name are empty. */
  lemma DefaultsRejected(currentYear: int, isEmail: string -> bool)
    ensures !StudentStatus(Defaults(currentYear), currentYear, isEmail).Valid?
    ensures Issue("regNo", "Registration number is required") in IssuesOf(StudentStatus(Defaults(currentYear), currentYear, isEmail))
    ensures Issue("name", "Name is required") in IssuesOf(StudentStatus(Defaults(currentYear), currentYear, isEmail))
  {
    var o := Defaults(currentYear);
    assert Get(o, "regNo") == Str("");
    assert Get(o, "name") == Str("");
    EmptyRegNoAndNameReported(o, BatchField(Get(o, "batch"), currentYear), isEmail);
  }
}
