/** The shared student schema: field rules, the batch-year window read through `parseInt`,
    and the year/semester pairing refinement reported on `semester`. */
module StudentSchema {
  import opened Js
  import opened Zod

  const YearEnum: seq<string> := ["1", "2", "3", "4"]
  /** How zod lists the year enum's literals in its messages: `'1' | '2' | '3' | '4'`. */
  const YearExpected := "'1' | " + "'2' | " + "'3' | " + "'4'"
  const SectionEnum: seq<string> := ["A", "B", "C", "D"]
  const SemesterEnum: seq<string> := ["1", "2", "3", "4", "5", "6", "7", "8"]
  const PairingMessage := "Invalid year and semester combination"
  const PairingIssue := Issue("semester", PairingMessage)

  // ---------------------------------------------------------------- the schema as written

  /** `/^[5-6]$/`. */
  predicate IsContinuingYear(s: string) {
    |s| == 1 && '5' <= s[0] <= '6'
  }

  /** `z.union([z.enum(["1".."4"]), z.string().regex(/^[5-6]$/)])`. */
  function YearField(v: Value): Status {
    Union("year", Enum("year", YearEnum, v), String("year", v, [Rule(IsContinuingYear(Text(v)), "Invalid")]))
  }

  /** `z.union([z.enum(["A".."D"]), z.string().min(1, ...)])`. */
  function SectionField(v: Value): Status {
    Union("section", Enum("section", SectionEnum, v), String("section", v, [Rule(|Text(v)| >= 1, "Section is required")]))
  }

  function SemesterField(v: Value): Status {
    Enum("semester", SemesterEnum, v)
  }

  /** The batch refinement: `parseInt(value, 10)` lies in `[2000, currentYear + 6]`. */
  predicate BatchInRange(value: string, currentYear: int) {
    var year := ParseInt(value, Decimal);
    year.Int? && 2000 <= year.i <= currentYear + 6
  }

  function BatchField(v: Value, currentYear: int): Status {
    String("batch", v, [Rule(|Text(v)| >= 1, "Batch is required"),
                        Rule(BatchInRange(Text(v), currentYear), "Invalid batch year")])
  }

  /** `z.string().email().nullable()`. */
  function EmailField(v: Value, isEmail: string -> bool): Status {
    Nullable(v, String("email", v, [Rule(isEmail(Text(v)), "Invalid email")]))
  }

  /** The fields before batch, which the two student schemas share, in declaration order. */
  function LeadingFields(o: Obj): Status {
    Merge(String("regNo", Get(o, "regNo"), [Rule(|Text(Get(o, "regNo"))| >= 1, "Registration number is required")]),
    Merge(Number("rollno", Get(o, "rollno"), [Rule(IntOf(Get(o, "rollno")) >= 1, "Roll number is required")]),
    Merge(String("name", Get(o, "name"), [Rule(|Text(Get(o, "name"))| >= 1, "Name is required")]),
    Merge(YearField(Get(o, "year")),
    Merge(SectionField(Get(o, "section")),
          SemesterField(Get(o, "semester")))))))
  }

  /** The fields after batch: email and departmentId. */
  function TrailingFields(o: Obj, isEmail: string -> bool): Status {
    Merge(EmailField(Get(o, "email"), isEmail),
          Nullable(Get(o, "departmentId"), String("departmentId", Get(o, "departmentId"), [])))
  }

  /** The object refinement: `Number.parseInt` of year and semester against the pairing rule. */
  predicate PairingRefine(year: Value, semester: Value) {
    Pairs(ParseIntValue(year), ParseIntValue(semester))
  }

  /** The comparisons of the refinement on the parsed year `y` and semester `s`. */
  predicate Pairs(y: JsNumber, s: JsNumber) {
    (y == Int(1) && (s == Int(1) || s == Int(2)))
    || (y == Int(2) && (s == Int(3) || s == Int(4)))
    || (y == Int(3) && (s == Int(5) || s == Int(6)))
    || (y == Int(4) && (s == Int(7) || s == Int(8)))
    || (y.Int? && y.i >= 5 && s.Int? && s.i >= 1 && s.i <= 8)
  }

  /** A student object whose batch field has status `batch`: the fields in declaration order,
      then the pairing refinement. */
  function StudentObject(o: Obj, batch: Status, isEmail: string -> bool): Status {
    Refine(Merge(LeadingFields(o), Merge(batch, TrailingFields(o, isEmail))),
           PairingRefine(Get(o, "year"), Get(o, "semester")), PairingIssue)
  }

  /** `studentSchema.safeParse(o)`, with the current year and the email check as parameters. */
  function StudentStatus(o: Obj, currentYear: int, isEmail: string -> bool): Status {
    StudentObject(o, BatchField(Get(o, "batch"), currentYear), isEmail)
  }

  // ---------------------------------------------------------------- what the schema means

  /** A one-character token whose digit lies in `lo..hi`. */
  predicate IsToken(s: string, lo: char, hi: char) {
    |s| == 1 && lo <= s[0] <= hi
  }

  /** The years the schema admits: "1" to "6". */
  predicate IsYearToken(s: string) { IsToken(s, '1', '6') }

  /** The semesters the schema admits: "1" to "8". */
  predicate IsSemesterToken(s: string) { IsToken(s, '1', '8') }

  /** The number a token stands for. */
  function TokenValue(s: string): (n: nat)
    requires IsToken(s, '0', '9')
    ensures n < 10
  {
    DigitValue(s[0])
  }

  /** The pairing table: years 1 to 4 take semesters 2y-1 and 2y, years 5 and 6 any of 1 to 8. */
  function PairedSemesters(y: int): (r: set<int>)
    ensures forall k :: k in r ==> 1 <= k <= 8
  {
    if 1 <= y <= 4 then {2 * y - 1, 2 * y}
    else if 5 <= y <= 6 then {1, 2, 3, 4, 5, 6, 7, 8}
    else {}
  }

  predicate NonEmptyText(v: Value) {
    v.Str? && v.s != ""
  }

  /** regNo, name, section non-empty; rollno a number at least 1; year and semester tokens;
      email null or an email; departmentId null or any string. */
  predicate CommonFieldsValid(o: Obj, isEmail: string -> bool) {
    && NonEmptyText(Get(o, "regNo"))
    && Get(o, "rollno").Num? && Get(o, "rollno").n.Int? && Get(o, "rollno").n.i >= 1
    && NonEmptyText(Get(o, "name"))
    && Get(o, "year").Str? && IsYearToken(Get(o, "year").s)
    && NonEmptyText(Get(o, "section"))
    && Get(o, "semester").Str? && IsSemesterToken(Get(o, "semester").s)
    && (Get(o, "email").Null? || (Get(o, "email").Str? && isEmail(Get(o, "email").s)))
    && (Get(o, "departmentId").Null? || Get(o, "departmentId").Str?)
  }

  predicate StudentFieldsValid(o: Obj, currentYear: int, isEmail: string -> bool) {
    && CommonFieldsValid(o, isEmail)
    && NonEmptyText(Get(o, "batch")) && BatchInRange(Get(o, "batch").s, currentYear)
  }

  /** A student record of the shared schema. */
  predicate StudentValid(o: Obj, currentYear: int, isEmail: string -> bool) {
    && StudentFieldsValid(o, currentYear, isEmail)
    && PairedTokens(o)
  }

  // ---------------------------------------------------------------- lemmas

  lemma YearEnumTokens(s: string)
    ensures s in YearEnum <==> IsToken(s, '1', '4')
  {
    if IsToken(s, '1', '4') { assert s == [s[0]]; }
  }

  lemma SemesterEnumTokens(s: string)
    ensures s in SemesterEnum <==> IsSemesterToken(s)
  {
    if IsSemesterToken(s) { assert s == [s[0]]; }
  }

  /** The year union admits exactly the tokens "1" to "6". */
  lemma YearFieldAccepts(v: Value)
    ensures YearField(v).Valid? <==> v.Str? && IsYearToken(v.s)
  {
    if v.Str? { YearEnumTokens(v.s); }
  }

  /** The A-D enum adds nothing: any non-empty text is a section. */
  lemma SectionFieldAccepts(v: Value)
    ensures SectionField(v).Valid? <==> v.Str? && v.s != ""
  {
  }

  /** The refinement's comparisons agree with the pairing table. */
  lemma PairsMatchTable(y: int, k: int)
    requires 1 <= y <= 6 && 1 <= k <= 8
    ensures Pairs(Int(y), Int(k)) <==> k in PairedSemesters(y)
  {
  }

  /** On well-typed tokens the refinement agrees with the pairing table. */
  lemma PairingMatchesTable(year: string, semester: string)
    requires IsYearToken(year) && IsSemesterToken(semester)
    ensures PairingRefine(Str(year), Str(semester)) <==> TokenValue(semester) in PairedSemesters(TokenValue(year))
  {
    assert year == [year[0]] && semester == [semester[0]];
    ParseIntOfDigit(year[0]);
    ParseIntOfDigit(semester[0]);
    PairsMatchTable(TokenValue(year), TokenValue(semester));
  }

  /** A year digit from 1 to 4 pairs with its own semesters `2y - 1` and `2y`, both of
      which are in the semester enum. */
  lemma OwnSemestersPair(c: char)
    requires '1' <= c <= '4'
    ensures [DigitChar(2 * DigitValue(c) - 1)] in SemesterEnum
    ensures [DigitChar(2 * DigitValue(c))] in SemesterEnum
    ensures PairingRefine(Str([c]), Str([DigitChar(2 * DigitValue(c) - 1)]))
    ensures PairingRefine(Str([c]), Str([DigitChar(2 * DigitValue(c))]))
  {
    var y := DigitValue(c);
    var first := [DigitChar(2 * y - 1)];
    var second := [DigitChar(2 * y)];
    assert IsSemesterToken(first) && TokenValue(first) == 2 * y - 1;
    assert IsSemesterToken(second) && TokenValue(second) == 2 * y;
    assert IsYearToken([c]) && TokenValue([c]) == y;
    SemesterEnumTokens(first);
    SemesterEnumTokens(second);
    PairingMatchesTable([c], first);
    PairingMatchesTable([c], second);
  }

  /** Years 5 and 6 pair with every semester token. */
  lemma ContinuingYearPairsAll(year: string, semester: string)
    requires IsToken(year, '5', '6') && IsSemesterToken(semester)
    ensures PairingRefine(Str(year), Str(semester))
  {
    assert year == [year[0]] && semester == [semester[0]];
    ParseIntOfDigit(year[0]);
    ParseIntOfDigit(semester[0]);
  }

  lemma LeadingFieldsAccept(o: Obj)
    ensures LeadingFields(o).Valid? <==>
      && NonEmptyText(Get(o, "regNo"))
      && Get(o, "rollno").Num? && Get(o, "rollno").n.Int? && Get(o, "rollno").n.i >= 1
      && NonEmptyText(Get(o, "name"))
      && Get(o, "year").Str? && IsYearToken(Get(o, "year").s)
      && NonEmptyText(Get(o, "section"))
      && Get(o, "semester").Str? && IsSemesterToken(Get(o, "semester").s)
  {
    if Get(o, "semester").Str? { SemesterEnumTokens(Get(o, "semester").s); }
    YearFieldAccepts(Get(o, "year"));
    SectionFieldAccepts(Get(o, "section"));
  }

  lemma TrailingFieldsAccept(o: Obj, isEmail: string -> bool)
    ensures TrailingFields(o, isEmail).Valid? <==>
      && (Get(o, "email").Null? || (Get(o, "email").Str? && isEmail(Get(o, "email").s)))
      && (Get(o, "departmentId").Null? || Get(o, "departmentId").Str?)
  {
  }

  /** The year and semester tokens of a record whose fields pass pair up. */
  predicate PairedTokens(o: Obj)
    requires Get(o, "year").Str? && IsYearToken(Get(o, "year").s)
    requires Get(o, "semester").Str? && IsSemesterToken(Get(o, "semester").s)
  {
    TokenValue(Get(o, "semester").s) in PairedSemesters(TokenValue(Get(o, "year").s))
  }

  /** A student object passes exactly when its shared fields and its batch pass and the year
      and semester pair up. */
  lemma StudentObjectAccepts(o: Obj, batch: Status, isEmail: string -> bool)
    ensures StudentObject(o, batch, isEmail).Valid? <==>
      CommonFieldsValid(o, isEmail) && batch.Valid? && PairedTokens(o)
  {
    LeadingFieldsAccept(o);
    TrailingFieldsAccept(o, isEmail);
    if CommonFieldsValid(o, isEmail) {
      PairingMatchesTable(Get(o, "year").s, Get(o, "semester").s);
    }
  }

  /** With every field passing and the pairing failing, the one issue is the pairing message
      on `semester`. */
  lemma StudentObjectPairingFailure(o: Obj, batch: Status, isEmail: string -> bool)
    requires CommonFieldsValid(o, isEmail) && batch.Valid? && !PairedTokens(o)
    ensures IssuesOf(StudentObject(o, batch, isEmail)) == [Issue("semester", "Invalid year and semester combination")]
  {
    LeadingFieldsAccept(o);
    TrailingFieldsAccept(o, isEmail);
    PairingMatchesTable(Get(o, "year").s, Get(o, "semester").s);
  }

  lemma BatchFieldAccepts(v: Value, currentYear: int)
    ensures BatchField(v, currentYear).Valid? <==> NonEmptyText(v) && BatchInRange(v.s, currentYear)
  {
    var rules := [Rule(|Text(v)| >= 1, "Batch is required"),
                  Rule(BatchInRange(Text(v), currentYear), "Invalid batch year")];
    assert (forall i :: 0 <= i < |rules| ==> rules[i].holds) <==> rules[0].holds && rules[1].holds;
  }

  /** The schema accepts a record exactly when it is a valid student record. */
  lemma StudentSchemaAccepts(o: Obj, currentYear: int, isEmail: string -> bool)
    ensures StudentStatus(o, currentYear, isEmail).Valid? <==> StudentValid(o, currentYear, isEmail)
  {
    BatchFieldAccepts(Get(o, "batch"), currentYear);
    StudentObjectAccepts(o, BatchField(Get(o, "batch"), currentYear), isEmail);
  }

  /** When every field passes but the pairing does not, the only issue is the pairing
      message, reported on `semester`. */
  lemma PairingFailureReported(o: Obj, currentYear: int, isEmail: string -> bool)
    requires StudentFieldsValid(o, currentYear, isEmail) && !StudentValid(o, currentYear, isEmail)
    ensures IssuesOf(StudentStatus(o, currentYear, isEmail)) == [Issue("semester", "Invalid year and semester combination")]
  {
    BatchFieldAccepts(Get(o, "batch"), currentYear);
    StudentObjectPairingFailure(o, BatchField(Get(o, "batch"), currentYear), isEmail);
  }

  /** `parseInt` ignores what follows the digits: a digit run in the window followed by any
      text that does not start with a digit passes the batch refinement. */
  lemma BatchIgnoresTrailingText(d: string, rest: string, currentYear: int)
    requires AllDigits(d) && (rest == [] || !IsDigit(rest[0]))
    requires 2000 <= DigitsValue(d, 10) <= currentYear + 6
    ensures BatchInRange(d + rest, currentYear)
  {
    ParseIntOfDigitsThen(d, rest);
  }

  /** Leading white space is skipped. */
  lemma BatchIgnoresLeadingSpace(c: char, value: string, currentYear: int)
    requires IsJsSpace(c)
    ensures BatchInRange([c] + value, currentYear) == BatchInRange(value, currentYear)
  {
    ParseIntAfterSpace(c, value, Decimal);
  }

  /** Text that starts with a letter never passes. */
  lemma BatchRejectsNonNumeric(value: string, currentYear: int)
    requires |value| > 0 && !IsJsSpace(value[0]) && !IsDigit(value[0]) && value[0] != '-' && value[0] != '+'
    ensures !BatchInRange(value, currentYear)
  {
    ParseIntOfNonNumeric(value, Decimal);
  }

  /** An empty batch reports both messages: the refinement still runs after `min(1)` fails. */
  lemma EmptyBatchIssues(currentYear: int)
    ensures IssuesOf(BatchField(Str(""), currentYear)) ==
      [Issue("batch", "Batch is required"), Issue("batch", "Invalid batch year")]
  {
    assert ParseInt("", Decimal) == NaN;
    var rules := [Rule(false, "Batch is required"), Rule(false, "Invalid batch year")];
    assert BatchField(Str(""), currentYear) == Rules("batch", rules);
    assert rules[1..][1..] == [];
    assert Failed("batch", rules) == [Issue("batch", "Batch is required")] + Failed("batch", rules[1..]);
  }

  // ---------------------------------------------------------------- the year error

  /** The resolver's message for "year": none for the tokens "1" to "6", the regex branch's
      "Invalid" for any other text, and for a non-string the year enum's wrong-type message
      (the first member's first issue): "Required" when the year is missing, otherwise
      "Expected '1' | '2' | '3' | '4', received" and the value's type. */
  lemma YearFieldError(v: Value)
    ensures FirstMessage(IssuesOf(YearField(v)), "year") ==
      if v.Str? && IsYearToken(v.s) then None
      else if v.Str? then Some("Invalid")
      else if v.Undefined? then Some("Required")
      else Some("Expected " + YearExpected + ", received " + TypeName(v))
  {
    YearFieldAccepts(v);
    if v.Str? && !IsYearToken(v.s) {
      YearEnumTokens(v.s);
      var rules := [Rule(IsContinuingYear(Text(v)), "Invalid")];
      assert Failed("year", rules) == [Issue("year", "Invalid")] + Failed("year", rules[1..]);
      assert String("year", v, rules) == Dirty([Issue("year", "Invalid")]);
    } else if !v.Str? {
      NonTextYearError(v);
    }
  }

  /** A year that is not text fails both members outright; the resolver shows the enum's
      wrong-type message. */
  lemma NonTextYearError(v: Value)
    requires !v.Str?
    ensures FirstMessage(IssuesOf(YearField(v)), "year") ==
      Some(if v.Undefined? then "Required" else "Expected " + YearExpected + ", received " + TypeName(v))
  {
    var shown := if v.Undefined? then "Required" else "Expected " + YearExpected + ", received " + TypeName(v);
    EnumWrongType(v);
    assert Enum("year", YearEnum, v) == Aborted([Issue("year", shown)]);
    assert String("year", v, [Rule(IsContinuingYear(Text(v)), "Invalid")]).Aborted?;
    assert YearField(v) == Aborted([UnionIssue("year", "Invalid input", [Issue("year", shown)])]);
  }

  /** The year enum's wrong-type message lists the four literals. */
  lemma EnumWrongType(v: Value)
    requires !v.Str?
    ensures Enum("year", YearEnum, v) ==
      Aborted([Issue("year", if v.Undefined? then "Required" else "Expected " + YearExpected + ", received " + TypeName(v))])
  {
    YearEnumListed();
  }

  lemma YearEnumListed()
    ensures JoinValues(YearEnum) == YearExpected
  {
    var tail := YearEnum[1..];
    assert tail == ["2", "3", "4"] && tail[1..] == ["3", "4"] && tail[1..][1..] == ["4"];
    assert JoinValues(tail[1..][1..]) == "'4'";
    assert JoinValues(tail[1..]) == "'3' | " + "'4'";
    assert JoinValues(tail) == "'2' | " + "'3' | " + "'4'";
  }

  /** The fields around the year union report nothing on "year", so the year error of a student
      object is the year union's own, whatever the other fields hold. */
  lemma StudentYearError(o: Obj, currentYear: int, isEmail: string -> bool)
    ensures FirstMessage(IssuesOf(StudentStatus(o, currentYear, isEmail)), "year") ==
      FirstMessage(IssuesOf(YearField(Get(o, "year"))), "year")
  {
    var batch := BatchField(Get(o, "batch"), currentYear);
    var tail := Merge(batch, TrailingFields(o, isEmail));
    var merged := Merge(LeadingFields(o), tail);
    RefineMessage(merged, PairingRefine(Get(o, "year"), Get(o, "semester")), PairingIssue, "year");
    MergeMessage(LeadingFields(o), tail, "year");
    LeadingYearError(o);
    StringOnPath("batch", Get(o, "batch"), [Rule(|Text(Get(o, "batch"))| >= 1, "Batch is required"),
                                            Rule(BatchInRange(Text(Get(o, "batch")), currentYear), "Invalid batch year")]);
    OffPathSilent(batch, "batch", "year");
    TrailingYearSilent(o, isEmail);
    MergeMessage(batch, TrailingFields(o, isEmail), "year");
  }

  /** Among the leading fields only the year union reports on "year". */
  lemma LeadingYearError(o: Obj)
    ensures FirstMessage(IssuesOf(LeadingFields(o)), "year") == FirstMessage(IssuesOf(YearField(Get(o, "year"))), "year")
  {
    var regNo := String("regNo", Get(o, "regNo"), [Rule(|Text(Get(o, "regNo"))| >= 1, "Registration number is required")]);
    var rollno := Number("rollno", Get(o, "rollno"), [Rule(IntOf(Get(o, "rollno")) >= 1, "Roll number is required")]);
    var name := String("name", Get(o, "name"), [Rule(|Text(Get(o, "name"))| >= 1, "Name is required")]);
    var year := YearField(Get(o, "year"));
    var rest := Merge(SectionField(Get(o, "section")), SemesterField(Get(o, "semester")));
    assert LeadingFields(o) == Merge(regNo, Merge(rollno, Merge(name, Merge(year, rest))));
    FirstFieldsYearSilent(o);
    RestYearSilent(o);
    MergeMessage(year, rest, "year");
    SilentFirst(name, Merge(year, rest), "year");
    SilentFirst(rollno, Merge(name, Merge(year, rest)), "year");
    SilentFirst(regNo, Merge(rollno, Merge(name, Merge(year, rest))), "year");
  }

  /** regNo, rollno and name report nothing on "year". */
  lemma FirstFieldsYearSilent(o: Obj)
    ensures FirstMessage(IssuesOf(String("regNo", Get(o, "regNo"), [Rule(|Text(Get(o, "regNo"))| >= 1, "Registration number is required")])), "year").None?
    ensures FirstMessage(IssuesOf(Number("rollno", Get(o, "rollno"), [Rule(IntOf(Get(o, "rollno")) >= 1, "Roll number is required")])), "year").None?
    ensures FirstMessage(IssuesOf(String("name", Get(o, "name"), [Rule(|Text(Get(o, "name"))| >= 1, "Name is required")])), "year").None?
  {
    StringOnPath("regNo", Get(o, "regNo"), [Rule(|Text(Get(o, "regNo"))| >= 1, "Registration number is required")]);
    NumberOnPath("rollno", Get(o, "rollno"), [Rule(IntOf(Get(o, "rollno")) >= 1, "Roll number is required")]);
    StringOnPath("name", Get(o, "name"), [Rule(|Text(Get(o, "name"))| >= 1, "Name is required")]);
    OffPathSilent(String("regNo", Get(o, "regNo"), [Rule(|Text(Get(o, "regNo"))| >= 1, "Registration number is required")]), "regNo", "year");
    OffPathSilent(Number("rollno", Get(o, "rollno"), [Rule(IntOf(Get(o, "rollno")) >= 1, "Roll number is required")]), "rollno", "year");
    OffPathSilent(String("name", Get(o, "name"), [Rule(|Text(Get(o, "name"))| >= 1, "Name is required")]), "name", "year");
  }

  /** Section and semester report nothing on "year". */
  lemma RestYearSilent(o: Obj)
    ensures FirstMessage(IssuesOf(Merge(SectionField(Get(o, "section")), SemesterField(Get(o, "semester")))), "year").None?
  {
    var section := SectionField(Get(o, "section"));
    var semester := SemesterField(Get(o, "semester"));
    SectionOnPath(Get(o, "section"));
    EnumOnPath("semester", SemesterEnum, Get(o, "semester"));
    OffPathSilent(section, "section", "year");
    OffPathSilent(semester, "semester", "year");
    MergeMessage(section, semester, "year");
  }

  lemma SectionOnPath(v: Value)
    ensures OnPath(SectionField(v), "section")
  {
    EnumOnPath("section", SectionEnum, v);
    StringOnPath("section", v, [Rule(|Text(v)| >= 1, "Section is required")]);
    UnionOnPath("section", Enum("section", SectionEnum, v), String("section", v, [Rule(|Text(v)| >= 1, "Section is required")]));
  }

  /** Email and departmentId report nothing on "year". */
  lemma TrailingYearSilent(o: Obj, isEmail: string -> bool)
    ensures FirstMessage(IssuesOf(TrailingFields(o, isEmail)), "year").None?
  {
    var email := String("email", Get(o, "email"), [Rule(isEmail(Text(Get(o, "email"))), "Invalid email")]);
    var dept := String("departmentId", Get(o, "departmentId"), []);
    StringOnPath("email", Get(o, "email"), [Rule(isEmail(Text(Get(o, "email"))), "Invalid email")]);
    StringOnPath("departmentId", Get(o, "departmentId"), []);
    NullableOnPath(Get(o, "email"), email, "email");
    NullableOnPath(Get(o, "departmentId"), dept, "departmentId");
    OffPathSilent(Nullable(Get(o, "email"), email), "email", "year");
    OffPathSilent(Nullable(Get(o, "departmentId"), dept), "departmentId", "year");
    MergeMessage(Nullable(Get(o, "email"), email), Nullable(Get(o, "departmentId"), dept), "year");
  }
}
