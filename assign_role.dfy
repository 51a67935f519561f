/** The role-assignment form: a union of three object schemas keyed on `role`, the
    year/semester pairing refinement for the two class-bound roles, the semester auto-fill
    on year change, and the semester options offered per year. */
module AssignRole {
  import opened Js
  import opened Zod
  import opened StudentSchema
  import Forms
  import Students

  // ---------------------------------------------------------------- the schema as written

  datatype Role = Tutor | YearInCharge | Hod

  const DiscriminatorMessage := "Invalid discriminator value. Expected 'TUTOR' | 'YEAR_IN_CHARGE' | 'HOD'"

  /** The option of the union the `role` tag selects, if any. */
  function RoleOf(v: Value): (r: Option<Role>)
    ensures r == Some(Tutor) <==> v == Str("TUTOR")
    ensures r == Some(YearInCharge) <==> v == Str("YEAR_IN_CHARGE")
    ensures r == Some(Hod) <==> v == Str("HOD")
  {
    if v == Str("TUTOR") then Some(Tutor)
    else if v == Str("YEAR_IN_CHARGE") then Some(YearInCharge)
    else if v == Str("HOD") then Some(Hod)
    else None
  }

  /** `z.string().min(1, message)`. */
  function Required(path: string, v: Value, message: string): Status {
    String(path, v, [Rule(|Text(v)| >= 1, message)])
  }

  /** `z.number().min(1, message)`. */
  function Positive(path: string, v: Value, message: string): Status {
    Number(path, v, [Rule(IntOf(v) >= 1, message)])
  }

  /** teacherId and departmentId, which every role has. */
  function StaffFields(o: Obj): Status {
    Merge(Required("teacherId", Get(o, "teacherId"), "Teacher is required"),
          Required("departmentId", Get(o, "departmentId"), "Department is required"))
  }

  /** batch, year and semester, which the two class-bound roles have. */
  function ClassFields(o: Obj): Status {
    Merge(Required("batch", Get(o, "batch"), "Batch is required"),
    Merge(YearField(Get(o, "year")),
          SemesterField(Get(o, "semester"))))
  }

  /** section and the roll-number range, which only a tutor has. */
  function TutorFields(o: Obj): Status {
    Merge(SectionField(Get(o, "section")),
    Merge(Positive("startRollNo", Get(o, "startRollNo"), "Start Roll No is required"),
          Positive("endRollNo", Get(o, "endRollNo"), "End Roll No is required")))
  }

  /** The object schema of one role, its fields in declaration order. */
  function RoleFields(o: Obj, role: Role): Status {
    match role
    case Hod => StaffFields(o)
    case YearInCharge => Merge(StaffFields(o), ClassFields(o))
    case Tutor => Merge(StaffFields(o), Merge(ClassFields(o), TutorFields(o)))
  }

  /** The union's refinement: the pairing rule for the class-bound roles, nothing for HOD. */
  predicate RolePairing(o: Obj, role: Role) {
    role == Hod || PairingRefine(Get(o, "year"), Get(o, "semester"))
  }

  /** `assignRoleSchema.safeParse(o)`. An unknown tag aborts with one issue on `role`. */
  function AssignStatus(o: Obj): Status {
    match RoleOf(Get(o, "role"))
    case None => Aborted([Issue("role", DiscriminatorMessage)])
    case Some(role) => Refine(RoleFields(o, role), RolePairing(o, role), PairingIssue)
  }

  // ---------------------------------------------------------------- what the schema means

  /** A role assignment, one constructor per role. */
  datatype Assignment =
    | TutorOf(teacherId: string, departmentId: string, batch: string, year: string,
              semester: string, section: string, startRollNo: int, endRollNo: int)
    | YearInChargeOf(teacherId: string, departmentId: string, batch: string, year: string,
                     semester: string)
    | HodOf(teacherId: string, departmentId: string)

  predicate IsText(o: Obj, key: string) { Get(o, key).Str? }

  predicate IsInteger(o: Obj, key: string) { Get(o, key).Num? && Get(o, key).n.Int? }

  /** The assignment a form object spells, when its tag is known and its fields have the
      types of that role's option. */
  function AsAssignment(o: Obj): (r: Option<Assignment>)
    ensures r.Some? ==> RoleOf(Get(o, "role")).Some?
  {
    match RoleOf(Get(o, "role"))
    case None => None
    case Some(Hod) => AsHod(o)
    case Some(YearInCharge) => AsYearInCharge(o)
    case Some(Tutor) => AsTutor(o)
  }

  function AsHod(o: Obj): (r: Option<Assignment>)
    ensures r.Some? <==> IsText(o, "teacherId") && IsText(o, "departmentId")
    ensures r.Some? ==> r.value == HodOf(Get(o, "teacherId").s, Get(o, "departmentId").s)
  {
    if IsText(o, "teacherId") && IsText(o, "departmentId")
    then Some(HodOf(Get(o, "teacherId").s, Get(o, "departmentId").s))
    else None
  }

  function AsYearInCharge(o: Obj): (r: Option<Assignment>)
    ensures r.Some? <==>
      IsText(o, "teacherId") && IsText(o, "departmentId") && IsText(o, "batch")
      && IsText(o, "year") && IsText(o, "semester")
    ensures r.Some? ==> r.value.YearInChargeOf? && r.value.year == Get(o, "year").s
  {
    if IsText(o, "teacherId") && IsText(o, "departmentId") && IsText(o, "batch")
       && IsText(o, "year") && IsText(o, "semester")
    then Some(YearInChargeOf(Get(o, "teacherId").s, Get(o, "departmentId").s, Get(o, "batch").s,
                             Get(o, "year").s, Get(o, "semester").s))
    else None
  }

  function AsTutor(o: Obj): (r: Option<Assignment>)
    ensures r.Some? <==>
      IsText(o, "teacherId") && IsText(o, "departmentId") && IsText(o, "batch")
      && IsText(o, "year") && IsText(o, "semester") && IsText(o, "section")
      && IsInteger(o, "startRollNo") && IsInteger(o, "endRollNo")
    ensures r.Some? ==> r.value.TutorOf? && r.value.startRollNo == Get(o, "startRollNo").n.i
  {
    if IsText(o, "teacherId") && IsText(o, "departmentId") && IsText(o, "batch")
       && IsText(o, "year") && IsText(o, "semester") && IsText(o, "section")
       && IsInteger(o, "startRollNo") && IsInteger(o, "endRollNo")
    then Some(TutorOf(Get(o, "teacherId").s, Get(o, "departmentId").s, Get(o, "batch").s,
                      Get(o, "year").s, Get(o, "semester").s, Get(o, "section").s,
                      Get(o, "startRollNo").n.i, Get(o, "endRollNo").n.i))
    else None
  }

  /** A class the assignment names: a non-empty batch, a year token "1" to "6" and a
      semester token "1" to "8" that pair up by the table. */
  predicate ClassValid(batch: string, year: string, semester: string) {
    && batch != ""
    && IsYearToken(year) && IsSemesterToken(semester)
    && TokenValue(semester) in PairedSemesters(TokenValue(year))
  }

  /** Non-empty ids; for a tutor also a non-empty section and roll numbers at least 1, with
      no order between them. */
  predicate AssignmentValid(a: Assignment) {
    match a
    case HodOf(t, d) => t != "" && d != ""
    case YearInChargeOf(t, d, b, y, s) => t != "" && d != "" && ClassValid(b, y, s)
    case TutorOf(t, d, b, y, s, sec, first, last) =>
      t != "" && d != "" && ClassValid(b, y, s) && sec != "" && first >= 1 && last >= 1
  }

  // ---------------------------------------------------------------- lemmas

  /** The shared fields pass: both ids are non-empty text. */
  predicate StaffOk(o: Obj) {
    NonEmptyText(Get(o, "teacherId")) && NonEmptyText(Get(o, "departmentId"))
  }

  /** The class fields pass: a non-empty batch, a year token and a semester token. */
  predicate ClassOk(o: Obj) {
    && NonEmptyText(Get(o, "batch"))
    && IsText(o, "year") && IsYearToken(Get(o, "year").s)
    && IsText(o, "semester") && IsSemesterToken(Get(o, "semester").s)
  }

  /** The tutor fields pass: a non-empty section and roll numbers at least 1. */
  predicate TutorOk(o: Obj) {
    && NonEmptyText(Get(o, "section"))
    && IsInteger(o, "startRollNo") && Get(o, "startRollNo").n.i >= 1
    && IsInteger(o, "endRollNo") && Get(o, "endRollNo").n.i >= 1
  }

  lemma StaffFieldsAccept(o: Obj)
    ensures StaffFields(o).Valid? <==> StaffOk(o)
    ensures !StaffFields(o).Aborted? <==> IsText(o, "teacherId") && IsText(o, "departmentId")
  {
  }

  lemma ClassFieldsAccept(o: Obj)
    ensures ClassFields(o).Valid? <==> ClassOk(o)
  {
    YearFieldAccepts(Get(o, "year"));
    if IsText(o, "semester") { SemesterEnumTokens(Get(o, "semester").s); }
  }

  lemma TutorFieldsAccept(o: Obj)
    ensures TutorFields(o).Valid? <==> TutorOk(o)
  {
    SectionFieldAccepts(Get(o, "section"));
  }

  /** The pairing refinement of a class-bound role agrees with the table. */
  lemma ClassPairing(o: Obj)
    requires ClassOk(o)
    ensures PairingRefine(Get(o, "year"), Get(o, "semester")) <==>
      ClassValid(Get(o, "batch").s, Get(o, "year").s, Get(o, "semester").s)
  {
    PairingMatchesTable(Get(o, "year").s, Get(o, "semester").s);
  }

  /** A tutor object passes exactly when every field of its option passes and the year and
      semester pair up. */
  lemma TutorAccepts(o: Obj)
    requires RoleOf(Get(o, "role")) == Some(Tutor)
    ensures AssignStatus(o).Valid? <==>
      StaffOk(o) && ClassOk(o) && TutorOk(o) && PairingRefine(Get(o, "year"), Get(o, "semester"))
  {
    StaffFieldsAccept(o);
    ClassFieldsAccept(o);
    TutorFieldsAccept(o);
  }

  lemma YearInChargeAccepts(o: Obj)
    requires RoleOf(Get(o, "role")) == Some(YearInCharge)
    ensures AssignStatus(o).Valid? <==>
      StaffOk(o) && ClassOk(o) && PairingRefine(Get(o, "year"), Get(o, "semester"))
  {
    StaffFieldsAccept(o);
    ClassFieldsAccept(o);
  }

  /** HOD needs only the two ids: year, semester and the rest are not looked at, and the
      refinement holds whatever they are. */
  lemma HodAccepts(o: Obj)
    requires Get(o, "role") == Str("HOD")
    ensures AssignStatus(o).Valid? <==> NonEmptyText(Get(o, "teacherId")) && NonEmptyText(Get(o, "departmentId"))
    ensures RolePairing(o, Hod)
  {
    StaffFieldsAccept(o);
  }

  /** The datatype reading of a tutor object. */
  lemma TutorAssignment(o: Obj)
    ensures (AsTutor(o).Some? && AssignmentValid(AsTutor(o).value)) <==>
      StaffOk(o) && ClassOk(o) && TutorOk(o) && PairingRefine(Get(o, "year"), Get(o, "semester"))
  {
    if ClassOk(o) { ClassPairing(o); }
  }

  lemma YearInChargeAssignment(o: Obj)
    ensures (AsYearInCharge(o).Some? && AssignmentValid(AsYearInCharge(o).value)) <==>
      StaffOk(o) && ClassOk(o) && PairingRefine(Get(o, "year"), Get(o, "semester"))
  {
    if AsYearInCharge(o).Some? {
      var a := YearInChargeOf(Get(o, "teacherId").s, Get(o, "departmentId").s, Get(o, "batch").s,
                              Get(o, "year").s, Get(o, "semester").s);
      assert AsYearInCharge(o).value == a;
      assert AssignmentValid(a) <==> StaffOk(o) && ClassValid(a.batch, a.year, a.semester);
      if ClassOk(o) {
        ClassPairing(o);
      } else {
        assert !ClassValid(a.batch, a.year, a.semester);
      }
    } else {
      assert !(StaffOk(o) && ClassOk(o));
    }
  }

  /** The schema accepts a form object exactly when it spells a valid assignment. */
  lemma AssignSchemaAccepts(o: Obj)
    ensures AssignStatus(o).Valid? <==> AsAssignment(o).Some? && AssignmentValid(AsAssignment(o).value)
  {
    match RoleOf(Get(o, "role"))
    case None =>
    case Some(Hod) => HodAccepts(o);
    case Some(YearInCharge) => YearInChargeSchemaAccepts(o);
    case Some(Tutor) => TutorSchemaAccepts(o);
  }

  lemma YearInChargeSchemaAccepts(o: Obj)
    requires RoleOf(Get(o, "role")) == Some(YearInCharge)
    ensures AssignStatus(o).Valid? <==> AsAssignment(o).Some? && AssignmentValid(AsAssignment(o).value)
  {
    YearInChargeAccepts(o);
    YearInChargeAssignment(o);
  }

  lemma TutorSchemaAccepts(o: Obj)
    requires RoleOf(Get(o, "role")) == Some(Tutor)
    ensures AssignStatus(o).Valid? <==> AsAssignment(o).Some? && AssignmentValid(AsAssignment(o).value)
  {
    TutorAccepts(o);
    TutorAssignment(o);
  }

  /** Both class-bound roles apply the same pairing: when every field of the option passes
      but year and semester do not pair, the only issue is the pairing message on
      `semester`. */
  lemma ClassRolesCheckPairing(o: Obj)
    requires RoleOf(Get(o, "role")) == Some(Tutor) || RoleOf(Get(o, "role")) == Some(YearInCharge)
    requires StaffOk(o) && ClassOk(o) && (RoleOf(Get(o, "role")) == Some(Tutor) ==> TutorOk(o))
    requires !PairingRefine(Get(o, "year"), Get(o, "semester"))
    ensures IssuesOf(AssignStatus(o)) == [Issue("semester", "Invalid year and semester combination")]
  {
    StaffFieldsAccept(o);
    ClassFieldsAccept(o);
    TutorFieldsAccept(o);
  }

  /** Any tag other than the three literals aborts with the discriminator message. */
  lemma UnknownRoleAborts(o: Obj)
    requires Get(o, "role") != Str("TUTOR") && Get(o, "role") != Str("YEAR_IN_CHARGE") && Get(o, "role") != Str("HOD")
    ensures AssignStatus(o) == Aborted([Issue("role", DiscriminatorMessage)])
  {
  }

  /** The roll-number range is not ordered: a valid tutor assignment stays valid whatever
      roll numbers of at least 1 replace its own, a start above the end included. */
  lemma RollOrderIgnored(o: Obj, o': Obj)
    requires RoleOf(Get(o, "role")) == Some(Tutor) && AssignStatus(o).Valid?
    requires Get(o', "role") == Get(o, "role")
    requires Get(o', "teacherId") == Get(o, "teacherId") && Get(o', "departmentId") == Get(o, "departmentId")
    requires Get(o', "batch") == Get(o, "batch") && Get(o', "year") == Get(o, "year")
    requires Get(o', "semester") == Get(o, "semester") && Get(o', "section") == Get(o, "section")
    requires IsInteger(o', "startRollNo") && Get(o', "startRollNo").n.i >= 1
    requires IsInteger(o', "endRollNo") && Get(o', "endRollNo").n.i >= 1
    ensures AssignStatus(o').Valid?
  {
    TutorAccepts(o);
    TutorAccepts(o');
  }

  /** Batch only has to be non-empty: a valid tutor assignment stays valid whatever
      non-empty text replaces its batch, one outside every year window included. */
  lemma AnyBatchAccepted(o: Obj, o': Obj)
    requires RoleOf(Get(o, "role")) == Some(Tutor) && AssignStatus(o).Valid?
    requires Get(o', "role") == Get(o, "role")
    requires Get(o', "teacherId") == Get(o, "teacherId") && Get(o', "departmentId") == Get(o, "departmentId")
    requires Get(o', "year") == Get(o, "year") && Get(o', "semester") == Get(o, "semester")
    requires Get(o', "section") == Get(o, "section")
    requires Get(o', "startRollNo") == Get(o, "startRollNo") && Get(o', "endRollNo") == Get(o, "endRollNo")
    requires NonEmptyText(Get(o', "batch"))
    ensures AssignStatus(o').Valid?
  {
    TutorAccepts(o);
    TutorAccepts(o');
  }

  /** Every batch year the form offers passes the batch rule. */
  lemma BatchOptionsAccepted(currentYear: int)
    ensures forall s :: s in Students.YearOptions(currentYear) ==>
      Required("batch", Str(s), "Batch is required").Valid?
  {
    Students.YearOptionsAreDigits(currentYear);
  }

  /** The form's defaults: role TUTOR, the teacher's id, an empty department and batch, year
      and semester "1", section "A" and roll numbers 1 and 30. */
  function Defaults(teacherId: string): Obj {
    map["role" := Str("TUTOR"), "teacherId" := Str(teacherId), "departmentId" := Str(""),
        "batch" := Str(""), "year" := Str("1"), "semester" := Str("1"), "section" := Str("A"),
        "startRollNo" := Num(Int(1)), "endRollNo" := Num(Int(30))]
  }

  /** A class-bound object with an empty department and batch reports both. */
  lemma EmptyDepartmentAndBatchReported(o: Obj)
    requires RoleOf(Get(o, "role")) == Some(Tutor) || RoleOf(Get(o, "role")) == Some(YearInCharge)
    requires Get(o, "departmentId") == Str("") && Get(o, "batch") == Str("")
    ensures !AssignStatus(o).Valid?
    ensures Issue("departmentId", "Department is required") in IssuesOf(AssignStatus(o))
    ensures Issue("batch", "Batch is required") in IssuesOf(AssignStatus(o))
  {
    var department := Required("departmentId", Get(o, "departmentId"), "Department is required");
    var batch := Required("batch", Get(o, "batch"), "Batch is required");
    assert IssuesOf(department) == [Issue("departmentId", "Department is required")];
    assert IssuesOf(batch) == [Issue("batch", "Batch is required")];
    assert Issue("departmentId", "Department is required") in IssuesOf(StaffFields(o));
    assert Issue("batch", "Batch is required") in IssuesOf(ClassFields(o));
  }

  /** The defaults cannot be submitted: department and batch are empty. */
  lemma DefaultsRejected(teacherId: string)
    ensures !AssignStatus(Defaults(teacherId)).Valid?
    ensures Issue("departmentId", "Department is required") in IssuesOf(AssignStatus(Defaults(teacherId)))
    ensures Issue("batch", "Batch is required") in IssuesOf(AssignStatus(Defaults(teacherId)))
  {
    var o := Defaults(teacherId);
    assert Get(o, "role") == Str("TUTOR");
    assert Get(o, "departmentId") == Str("");
    assert Get(o, "batch") == Str("");
    EmptyDepartmentAndBatchReported(o);
  }

  /** `Number.parseInt(e.target.value)` of a roll-number box. */
  function RollNoInput(text: string): Value {
    Num(ParseInt(text, Auto))
  }

  /** Any text in either roll-number box that `parseInt` cannot read stores NaN, which
      `z.number()` rejects as a wrong type before the `min(1)` rule is looked at. A number
      input hands over only the empty text or a valid number, so the texts that reach the
      handler this way are the cleared box and numbers without a leading digit, such as
      ".5". */
  lemma UnreadableRollNoRejected(path: string, message: string, text: string)
    requires ParseInt(text, Auto) == NaN
    ensures Positive(path, RollNoInput(text), message) == Aborted([Issue(path, "Expected number, received nan")])
  {
    assert RollNoInput(text) == Num(NaN);
    NaNRejected(path, [Rule(IntOf(Num(NaN)) >= 1, message)]);
  }

  /** Clearing the start roll-number box is one such text. */
  lemma EmptyRollNoRejected()
    ensures Positive("startRollNo", RollNoInput(""), "Start Roll No is required") ==
      Aborted([Issue("startRollNo", "Expected number, received nan")])
  {
    assert ParseInt("", Auto) == NaN;
    UnreadableRollNoRejected("startRollNo", "Start Roll No is required", "");
  }

  /** A fraction typed without its leading zero is another: `parseInt(".5")` is NaN. */
  lemma FractionRollNoRejected()
    ensures Positive("endRollNo", RollNoInput(".5"), "End Roll No is required") ==
      Aborted([Issue("endRollNo", "Expected number, received nan")])
  {
    ParseIntOfNonNumeric(".5", Auto);
    UnreadableRollNoRejected("endRollNo", "End Roll No is required", ".5");
  }

  // ---------------------------------------------------------------- the year error

  /** The roles whose schema has a year field. */
  predicate ClassBound(o: Obj) {
    RoleOf(Get(o, "role")) == Some(Tutor) || RoleOf(Get(o, "role")) == Some(YearInCharge)
  }

  /** teacherId and departmentId report nothing on "year". */
  lemma StaffYearSilent(o: Obj)
    ensures FirstMessage(IssuesOf(StaffFields(o)), "year").None?
  {
    var teacher := Required("teacherId", Get(o, "teacherId"), "Teacher is required");
    var dept := Required("departmentId", Get(o, "departmentId"), "Department is required");
    StringOnPath("teacherId", Get(o, "teacherId"), [Rule(|Text(Get(o, "teacherId"))| >= 1, "Teacher is required")]);
    StringOnPath("departmentId", Get(o, "departmentId"), [Rule(|Text(Get(o, "departmentId"))| >= 1, "Department is required")]);
    OffPathSilent(teacher, "teacherId", "year");
    OffPathSilent(dept, "departmentId", "year");
    MergeMessage(teacher, dept, "year");
  }

  /** Of batch, year and semester only the year union reports on "year". */
  lemma ClassYearError(o: Obj)
    ensures FirstMessage(IssuesOf(ClassFields(o)), "year") == FirstMessage(IssuesOf(YearField(Get(o, "year"))), "year")
  {
    var batch := Required("batch", Get(o, "batch"), "Batch is required");
    var semester := SemesterField(Get(o, "semester"));
    StringOnPath("batch", Get(o, "batch"), [Rule(|Text(Get(o, "batch"))| >= 1, "Batch is required")]);
    EnumOnPath("semester", SemesterEnum, Get(o, "semester"));
    OffPathSilent(batch, "batch", "year");
    OffPathSilent(semester, "semester", "year");
    MergeMessage(YearField(Get(o, "year")), semester, "year");
    MergeMessage(batch, Merge(YearField(Get(o, "year")), semester), "year");
  }

  /** section and the roll-number range report nothing on "year". */
  lemma TutorYearSilent(o: Obj)
    ensures FirstMessage(IssuesOf(TutorFields(o)), "year").None?
  {
    var start := Positive("startRollNo", Get(o, "startRollNo"), "Start Roll No is required");
    var end := Positive("endRollNo", Get(o, "endRollNo"), "End Roll No is required");
    SectionOnPath(Get(o, "section"));
    NumberOnPath("startRollNo", Get(o, "startRollNo"), [Rule(IntOf(Get(o, "startRollNo")) >= 1, "Start Roll No is required")]);
    NumberOnPath("endRollNo", Get(o, "endRollNo"), [Rule(IntOf(Get(o, "endRollNo")) >= 1, "End Roll No is required")]);
    OffPathSilent(SectionField(Get(o, "section")), "section", "year");
    OffPathSilent(start, "startRollNo", "year");
    OffPathSilent(end, "endRollNo", "year");
    MergeMessage(start, end, "year");
    MergeMessage(SectionField(Get(o, "section")), Merge(start, end), "year");
  }

  /** The resolver's "year" error of an assignment is the year union's for the two
      class-bound roles, and there is none for HOD or an unknown role, whatever the other
      fields hold. */
  lemma AssignYearError(o: Obj)
    ensures FirstMessage(IssuesOf(AssignStatus(o)), "year") ==
      if ClassBound(o) then FirstMessage(IssuesOf(YearField(Get(o, "year"))), "year") else None
  {
    match RoleOf(Get(o, "role"))
    case None =>
    case Some(role) =>
      RefineMessage(RoleFields(o, role), RolePairing(o, role), PairingIssue, "year");
      StaffYearSilent(o);
      match role
      case Hod =>
      case YearInCharge =>
        ClassYearError(o);
        MergeMessage(StaffFields(o), ClassFields(o), "year");
      case Tutor =>
        ClassYearError(o);
        TutorYearSilent(o);
        MergeMessage(ClassFields(o), TutorFields(o), "year");
        MergeMessage(StaffFields(o), Merge(ClassFields(o), TutorFields(o)), "year");
  }

  // ---------------------------------------------------------------- year change and options

  /** After a year change, the re-validated year error is there exactly when the role has a
      year and the new year is not one of "1" to "6". */
  lemma YearRevalidated(errors: map<string, string>, values: Obj, year: string)
    ensures "year" in Forms.Revalidated(errors, "year", IssuesOf(AssignStatus(values["year" := Str(year)])))
      <==> ClassBound(values) && !IsYearToken(year)
  {
    var o := values["year" := Str(year)];
    assert Get(o, "year") == Str(year);
    assert Get(o, "role") == Get(values, "role");
    AssignYearError(o);
    YearFieldError(Str(year));
  }

  /** The year handlers of the select and of the "other" box: `field.onChange(year)`, then
      `setValue` of semester to `String(Number(year) * 2 - 1)`. For years 1 to 4 the semester
      pairs; for 5 and 6 it is outside the semester enum. Once the form has been submitted,
      `field.onChange` validates again, on the values before the semester update, and replaces
      the year's error: it is cleared for "1" to "6" and kept for anything else, when the role
      has a year. */
  method OnYearChange(form: Forms.Form, year: string)
    modifies form
    ensures form.values == old(form.values)["year" := Str(year)]["semester" := Str(Students.AutoSemester(Str(year)))]
    ensures form.submitted == old(form.submitted)
    ensures form.errors ==
      if old(form.submitted) then Forms.Revalidated(old(form.errors), "year", IssuesOf(AssignStatus(old(form.values)["year" := Str(year)])))
      else old(form.errors)
    ensures old(form.submitted) ==> ("year" in form.errors <==> ClassBound(old(form.values)) && !IsYearToken(year))
    ensures IsToken(year, '1', '4') ==>
      form.Value("semester").s in SemesterEnum && PairingRefine(form.Value("year"), form.Value("semester"))
    ensures IsToken(year, '5', '6') ==> form.Value("semester").s !in SemesterEnum
  {
    YearRevalidated(form.errors, form.values, year);
    AutoFillOfYear(year);
    form.FieldChange("year", Str(year), (o: Obj) => AssignStatus(o));
    form.SetValue("semester", Str(Students.AutoSemester(Str(year))));
  }

  /** The auto-filled semester pairs for years "1" to "4" and is outside the enum for "5"
      and "6". */
  lemma AutoFillOfYear(year: string)
    ensures IsToken(year, '1', '4') ==>
      Students.AutoSemester(Str(year)) in SemesterEnum && PairingRefine(Str(year), Str(Students.AutoSemester(Str(year))))
    ensures IsToken(year, '5', '6') ==> Students.AutoSemester(Str(year)) !in SemesterEnum
  {
    if IsToken(year, '1', '4') {
      assert year == [year[0]];
      Students.AutoSemesterPairs(year[0]);
    }
    if IsToken(year, '5', '6') {
      assert year == [year[0]];
      Students.AutoSemesterContinuing(year[0]);
    }
  }

  /** The semester select's items: the year's two semesters for "1" to "4", all eight for
      "5", "6" and "other" (the semester enum's list), nothing otherwise. */
  function SemesterOptions(year: Value): seq<string> {
    if year == Str("1") then ["1", "2"]
    else if year == Str("2") then ["3", "4"]
    else if year == Str("3") then ["5", "6"]
    else if year == Str("4") then ["7", "8"]
    else if year == Str("5") || year == Str("6") || year == Str("other") then SemesterEnum
    else []
  }

  /** For years "1" to "4" the options are the year's two semesters. */
  lemma SemesterOptionsOfYear(c: char)
    requires '1' <= c <= '4'
    ensures SemesterOptions(Str([c])) == [[DigitChar(2 * DigitValue(c) - 1)], [DigitChar(2 * DigitValue(c))]]
  {
    if c == '1' {
      assert [c] == "1";
    } else if c == '2' {
      assert [c] == "2";
    } else if c == '3' {
      assert [c] == "3";
    } else {
      assert [c] == "4";
    }
  }

  /** For years "1" to "4" the two offered semesters are in the enum and pair. */
  lemma OfferedSemestersOfYear(year: string)
    requires IsToken(year, '1', '4')
    ensures |SemesterOptions(Str(year))| == 2
    ensures forall i :: 0 <= i < |SemesterOptions(Str(year))| ==>
      SemesterOptions(Str(year))[i] in SemesterEnum && PairingRefine(Str(year), Str(SemesterOptions(Str(year))[i]))
  {
    var c := year[0];
    assert year == [c];
    OfferedSemestersOfDigit(c);
  }

  lemma OfferedSemestersOfDigit(c: char)
    requires '1' <= c <= '4'
    ensures |SemesterOptions(Str([c]))| == 2
    ensures forall i :: 0 <= i < 2 ==>
      SemesterOptions(Str([c]))[i] in SemesterEnum && PairingRefine(Str([c]), Str(SemesterOptions(Str([c]))[i]))
  {
    SemesterOptionsOfYear(c);
    var first := [DigitChar(2 * DigitValue(c) - 1)];
    var second := [DigitChar(2 * DigitValue(c))];
    SemesterEnumTokens(first);
    SemesterEnumTokens(second);
    PairingMatchesTable([c], first);
    PairingMatchesTable([c], second);
  }

  /** For years "5" and "6" all eight semesters are offered, and each pairs. */
  lemma OfferedSemestersOfContinuingYear(year: string)
    requires IsToken(year, '5', '6')
    ensures SemesterOptions(Str(year)) == SemesterEnum
    ensures forall i :: 0 <= i < |SemesterEnum| ==> PairingRefine(Str(year), Str(SemesterEnum[i]))
  {
    var c := year[0];
    assert year == [c];
    ContinuingOptions(c);
    ContinuingPairsEnum(year);
  }

  /** Years "5" and "6" get the enum's list. */
  lemma ContinuingOptions(c: char)
    requires c == '5' || c == '6'
    ensures SemesterOptions(Str([c])) == SemesterEnum
  {
    if c == '5' {
      assert [c] == "5";
    } else {
      assert [c] == "6";
    }
  }

  /** Years "5" and "6" pair with every semester of the enum. */
  lemma ContinuingPairsEnum(year: string)
    requires IsToken(year, '5', '6')
    ensures forall i :: 0 <= i < |SemesterEnum| ==> PairingRefine(Str(year), Str(SemesterEnum[i]))
  {
    forall i | 0 <= i < |SemesterEnum|
      ensures PairingRefine(Str(year), Str(SemesterEnum[i]))
    {
      SemesterEnumTokens(SemesterEnum[i]);
      ContinuingYearPairsAll(year, SemesterEnum[i]);
    }
  }

  /** For every year token something is offered, and each offered semester is in the enum
      and pairs with the year. */
  lemma OfferedSemestersPair(year: string)
    requires IsYearToken(year)
    ensures |SemesterOptions(Str(year))| >= 2
    ensures forall i :: 0 <= i < |SemesterOptions(Str(year))| ==>
      SemesterOptions(Str(year))[i] in SemesterEnum && PairingRefine(Str(year), Str(SemesterOptions(Str(year))[i]))
  {
    if year[0] <= '4' { OfferedSemestersOfYear(year); } else { OfferedSemestersOfContinuingYear(year); }
  }

  /** "other" is offered all eight semesters, yet it is no year: it fails the year union,
      and the pairing refinement fails for each offered semester. */
  lemma OtherYearOffersUnpairable(i: nat)
    requires i < |SemesterOptions(Str("other"))|
    ensures SemesterOptions(Str("other")) == SemesterEnum
    ensures !YearField(Str("other")).Valid?
    ensures !PairingRefine(Str("other"), Str(SemesterOptions(Str("other"))[i]))
  {
    var other := "other";
    assert other[0] == 'o' && |other| == 5;
    assert Str(other) != Str("1") && Str(other) != Str("2") && Str(other) != Str("3") && Str(other) != Str("4");
    assert SemesterOptions(Str(other)) == SemesterEnum;
    YearFieldAccepts(Str(other));
    assert !IsYearToken(other);
    assert ToJsString(Str(other)) == other;
    ParseIntOfNonNumeric(other, Auto);
    assert ParseIntValue(Str(other)) == NaN;
  }
}
