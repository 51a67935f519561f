# OD-Automation dashboard: forms, schemas and pagers

This project models the logic of the OD-Automation web client, the college dashboard
where staff manage students, teachers, subjects and role assignments and where users sign in.
It covers:

- the zod schemas that decide which form records may be submitted;
- the handlers and effects that rewrite form values (year to semester auto-fill, username
  classification on the login form);
- the option lists the selects offer;
- the payload transforms the API helpers apply before posting;
- the client-side pagers.

JavaScript values are modelled as a small datatype: integral numbers and NaN, text,
booleans, `null` and `undefined`. Objects are maps from keys to values. `parseInt`, `Number`,
`String`, `toString` and `slice` are written out with the JavaScript rules that matter here.

zod is modelled as a status algebra (`Zod.Status`: valid, dirty with issues, or aborted with
issues, each issue a path and a message). It keeps zod's ordering: a wrong type aborts, while
failing `min`, `max` and refinement checks accumulate. An object refinement runs only when no
field aborted. The parse rules and default messages are those of zod 3: "Required",
"Expected number, received nan", "Invalid enum value. Expected …, received '…'",
"String must contain at least N character(s)", the discriminator's "Invalid discriminator
value. Expected 'TUTOR' | 'YEAR_IN_CHARGE' | 'HOD'", and a union that reports the issues of
its first dirty member. A union whose members all abort reports one union issue that carries
its members' issues; the zod resolver shows the first issue of its first member
(`unionErrors[0].errors[0]`), so an undefined year shows "Required". zod 4 words these
messages and builds union issues differently.

A react-hook-form instance is the class `Forms.Form`, with its values, its error
messages and its submitted flag as fields that `setValue`, `setError`, `clearErrors`,
`field.onChange` and `handleSubmit` update. Each form here uses the default modes: the
zod resolver runs on submit and, once the form has been submitted, again on each
`field.onChange`, which then replaces that field's error with the first message the resolver
reports on its path (`Zod.FirstMessage`), or removes it. The clock
(`new Date().getFullYear()`) and zod's e-mail check are parameters (`currentYear` and
`isEmail`).

The same code appears more than once in the repository. Each copy is modelled once:

- The `generateYearOptions` loop is `Students.GenerateYearOptions`. It appears in
  `src/routes/protected/students.tsx:93-100`, `src/routes/protected/assign-role.tsx:41-48`
  and `src/routes/protected/increment-semester-form.tsx:28-35`.
- The create/update payload is `StudentApi.Payload`. It appears in
  `src/routes/protected/students.tsx:156-182` and `src/lib/api/StudentApi.ts:15-40`.
- The edit-merge `onSubmit` is `Forms.Submit`. It appears in the students page, the student
  dialog and the teachers page.
- Previous, next and the numbered links are `Pagination.Pager`. It models the hook
  `src/hooks/UsePagination.tsx:19-35` and the handlers at
  `src/routes/protected/students.tsx:754-773` and `src/routes/protected/teachers.tsx:434-453`.
  The inline slice of the two management pages is `Pagination.InlinePage`.

## Model

| member | source | states |
|---|---|---|
| StudentSchema.YearFieldAccepts | src/lib/schemas/studentSchema.ts:8 | the year union admits exactly the one-character texts "1" to "6" |
| StudentSchema.SectionFieldAccepts | src/lib/schemas/studentSchema.ts:9-12 | the section union admits exactly the non-empty texts; the A–D enum adds nothing |
| StudentSchema.YearEnumTokens | src/lib/schemas/studentSchema.ts:8 | a text is in the year enum iff it is one of "1" to "4" |
| StudentSchema.SemesterEnumTokens | src/lib/schemas/studentSchema.ts:13 | a text is in the semester enum iff it is one of "1" to "8" |
| StudentSchema.BatchFieldAccepts | src/lib/schemas/studentSchema.ts:14-26 | batch passes iff it is non-empty text whose `parseInt(…, 10)` lies in 2000..currentYear+6 |
| StudentSchema.BatchIgnoresTrailingText | src/lib/schemas/studentSchema.ts:17-22 | digits in the window followed by other text (e.g. "2020abc") still pass the batch refinement |
| StudentSchema.BatchIgnoresLeadingSpace | src/lib/schemas/studentSchema.ts:17-22 | leading white space does not change the batch refinement's verdict |
| StudentSchema.BatchRejectsNonNumeric | src/lib/schemas/studentSchema.ts:17-22 | text starting with a letter or other non-numeric character always fails the refinement |
| StudentSchema.EmptyBatchIssues | src/lib/schemas/studentSchema.ts:14-26 | an empty batch reports "Batch is required" and then "Invalid batch year" |
| StudentSchema.YearFieldError | src/lib/schemas/studentSchema.ts:8 | the year field's error is none for "1" to "6", the regex's "Invalid" for any other text, and for a non-string the enum member's own message as the resolver shows it: "Required" when undefined, else "Expected '1' \| '2' \| '3' \| '4', received" and the value's type |
| StudentSchema.EnumWrongType | src/lib/schemas/studentSchema.ts:8 | the year enum aborts a non-string with "Required" when undefined, else "Expected '1' \| '2' \| '3' \| '4', received" and its type |
| StudentSchema.SectionOnPath | src/lib/schemas/studentSchema.ts:9-12 | the section union reports only on `section` |
| StudentSchema.LeadingYearError | src/lib/schemas/studentSchema.ts:5-13 | of the fields before batch only the year union reports on `year` |
| StudentSchema.TrailingYearSilent | src/lib/schemas/studentSchema.ts:27-28 | email and departmentId report nothing on `year` |
| StudentSchema.StudentYearError | src/lib/schemas/studentSchema.ts:3-46 | the whole schema's `year` error is the year union's own, whatever the other fields hold; the pairing refinement reports on `semester` |
| StudentSchema.TokenValue | src/lib/schemas/studentSchema.ts:32-33 | the number a year or semester token stands for is a single digit |
| StudentSchema.PairedSemesters | src/lib/schemas/studentSchema.ts:34-40 | the pairing table only ever names semesters 1 to 8 |
| StudentSchema.PairsMatchTable | src/lib/schemas/studentSchema.ts:34-40 | the refinement's comparisons agree with the table: years 1–4 take 2y−1 and 2y, years 5–6 any semester |
| StudentSchema.PairingMatchesTable | src/lib/schemas/studentSchema.ts:30-40 | on year and semester tokens, the `parseInt`-based refinement holds iff the pair is in the table |
| StudentSchema.ContinuingYearPairsAll | src/lib/schemas/studentSchema.ts:39 | years 5 and 6 pair with every semester 1 to 8 |
| StudentSchema.LeadingFieldsAccept | src/lib/schemas/studentSchema.ts:5-13 | regNo, rollno, name, year, section and semester pass iff each has its required type and content |
| StudentSchema.TrailingFieldsAccept | src/lib/schemas/studentSchema.ts:27-28 | email passes iff null or an e-mail; departmentId iff null or any text |
| StudentSchema.StudentObjectAccepts | src/lib/schemas/studentSchema.ts:3-46 | an object passes iff its shared fields and its batch pass and year and semester pair |
| StudentSchema.StudentObjectPairingFailure | src/lib/schemas/studentSchema.ts:42-45 | with every field passing and the pairing failing, the one issue is "Invalid year and semester combination" on `semester` |
| StudentSchema.StudentSchemaAccepts | src/lib/schemas/studentSchema.ts:3-46 | the schema accepts a record iff it is a valid student record (reference predicate `StudentValid`) |
| StudentSchema.PairingFailureReported | src/lib/schemas/studentSchema.ts:30-46 | when only the pairing fails, the error list is exactly the pairing message on `semester` |
| Students.YearRange | src/routes/protected/students.tsx:96-98 | entry i of the range lo..hi is the text of lo+i, and the range has hi−lo+1 entries |
| Students.YearRangeSnoc | src/routes/protected/students.tsx:96-98 | one more pass of the loop appends exactly the next year's text to the list built so far |
| Students.GenerateYearOptions | src/routes/protected/students.tsx:93-100 | the loop's result is the list of years 2000..currentYear+6 as text, of length currentYear−1993 |
| Students.YearOptionsMembership | src/routes/protected/students.tsx:93-100 | a text is offered iff it spells a year between 2000 and currentYear+6 |
| Students.YearOptionsAscending | src/routes/protected/students.tsx:96-98 | option i reads back as 2000+i, so the options ascend without duplicates |
| Students.YearOptionsAreDigits | src/routes/protected/students.tsx:96-98 | every option is a plain run of digits |
| Students.ListBatchFieldAccepts | src/routes/protected/students.tsx:114-124 | the page's batch passes iff it is one of the offered years |
| Students.PageSchemaAccepts | src/routes/protected/students.tsx:103-144 | the page's schema accepts iff the shared fields pass, the batch is offered and the pair is in the table |
| Students.ListRuleImpliesRangeRule | src/routes/protected/students.tsx:117-120 | every offered year passes the shared schema's range rule |
| Students.PageSchemaStricter | src/routes/protected/students.tsx:103-144 | a record the page accepts is accepted by the shared schema |
| Students.ListRejectsTrailingText | src/routes/protected/students.tsx:117-120 | "2020abc"-style text passes the range rule but is not offered: the converse fails |
| Students.ListRejectsLeadingSpace | src/routes/protected/students.tsx:117-120 | a year with leading white space passes the range rule exactly as without it, but is not offered |
| Students.AutoSemesterPairs | src/routes/protected/students.tsx:304-320 | for years "1"–"4" the auto-filled semester is 2y−1, in the enum, and pairs with the year |
| Students.AutoSemesterOfDigit | src/routes/protected/students.tsx:307-309 | for a one-digit year c the auto-fill writes the text of 2c−1 |
| Students.AutoSemesterFive | src/routes/protected/students.tsx:307-309 | year "5" auto-fills "9" |
| Students.AutoSemesterSix | src/routes/protected/students.tsx:307-309 | year "6" auto-fills "11" |
| Students.AutoSemesterContinuing | src/routes/protected/students.tsx:307-309 | for years "5" and "6" the auto-fill is outside the semester enum |
| Students.AutoSemesterOther | src/routes/protected/students.tsx:307-309 | the text "other" auto-fills "NaN" |
| Students.YearEffect | src/routes/protected/students.tsx:304-320 | a truthy year rewrites only `semester`, to `String(Number(year) * 2 - 1)`; otherwise nothing changes |
| Students.EditValues | src/routes/protected/students.tsx:330-335 | the reset record is the student with year and semester as text and a nullish batch as ""; its keys are the student's plus batch; a nullish year or semester throws |
| Students.HandleEdit | src/routes/protected/students.tsx:304-336 | as written: a throwing student leaves the form alone; otherwise the record becomes the defaults, errors and submitted state are cleared, and the values are the record with the year effect applied when the reset changed the year |
| Students.EditKeepsSemesterIff | src/routes/protected/students.tsx:304-336 | editing keeps the record's semester iff its year equals the form's previous year, is empty, or its auto-fill already is that semester |
| Students.EditShowsWrongSemester | src/routes/protected/students.tsx:328-336 | as written: after a year-1 form, a year-2 semester-4 student is shown in semester "3", and an update sends "3" |
| Students.CorrectedHandleEdit | src/routes/protected/students.tsx:328-336 | with the auto-fill tied to the year select's change: the form holds exactly the record, with the student's own year and semester texts |
| Students.CorrectedEditShowsSemester | src/routes/protected/students.tsx:328-336 | with the corrected edit the same student is updated in semester "4" |
| Students.SemesterChoicesPair | src/routes/protected/students.tsx:553-579 | the dropdown offers something iff the year is "1"–"4", and every offered semester is in the enum and pairs |
| Students.ContinuingYearHasNoSemester | src/routes/protected/students.tsx:553-579 | for years "5" and "6" the auto-fill is outside the enum and the dropdown offers nothing |
| Students.BulkBatchRowsFormatted | src/routes/protected/students.tsx:194-206 | the bulk request fails iff some row lacks a batch; otherwise row i is row i with its batch as text |
| Students.StudentPageIsPagerPage | src/routes/protected/students.tsx:383-388 | the inline slice of page p is the pager's page: the students at (p−1)·10 up to p·10, cut at the end |
| Js.StringifyField | src/lib/api/StudentApi.ts:52-53 | `row[key].toString()` throws iff the field is null or undefined; otherwise only that field changes, to its text |
| Js.MapOrThrow | src/lib/api/StudentApi.ts:50-54 | a `map` whose callback may throw succeeds iff every element succeeds, giving the results in order |
| Js.CeilDiv | src/hooks/UsePagination.tsx:12 | `Math.ceil(n / k)` is the least number of k-sized pages that hold n items |
| Js.ParseIntOfIntToString | src/lib/schemas/studentSchema.ts:17-22 | `parseInt` of an integer's text gives back that integer |
| StudentApi.Payload | src/lib/api/StudentApi.ts:17-21 | the payload keeps every field and replaces year and semester by `Number.parseInt` of them |
| StudentApi.WithNumbers | src/lib/api/StudentApi.ts:18-20 | the spread writes the two numbers last, over every other field unchanged |
| StudentApi.UpdatePostsLikeCreate | src/lib/api/StudentApi.ts:28-40 | update posts the same body to the same create endpoint as create |
| StudentApi.PayloadOfDigitTokens | src/lib/api/StudentApi.ts:15-21 | year and semester tokens are sent as the numbers they spell, every other field as it was |
| StudentApi.FormatStudentRowSpec | src/lib/api/StudentApi.ts:50-54 | a row is formatted iff it has a batch and a regNo; both become text and nothing else changes |
| StudentApi.BulkFailsIffFieldMissing | src/lib/api/StudentApi.ts:47-65 | the bulk call throws iff some row lacks a batch or a regNo |
| StudentApi.BulkKeepsOrder | src/lib/api/StudentApi.ts:50-59 | the posted rows are the input rows formatted one by one, same length and order |
| StudentApi.FormatStudentRowIdempotent | src/lib/api/StudentApi.ts:50-54 | formatting a formatted row again gives the same row |
| StudentApi.FormatStudentRowsIdempotent | src/lib/api/StudentApi.ts:50-54 | formatting formatted rows again gives the same rows |
| SubjectApi.BulkFailsIffSemesterMissing | src/lib/api/SubjectApi.ts:25-40 | the bulk call throws, and nothing is posted, iff some row lacks a semester |
| SubjectApi.BulkRowsFormatted | src/lib/api/SubjectApi.ts:28-33 | row i of the request is row i with its semester as text and subjectCode, name, id unchanged |
| SubjectApi.FormatSubjectRowsIdempotent | src/lib/api/SubjectApi.ts:28-31 | formatting rows whose semesters are already text changes nothing |
| Subject.SubjectSchemaAccepts | src/routes/components/subjects/subject.ts:10-14 | the schema accepts iff subjectCode, name and semester are non-empty texts |
| Subject.EmptyFieldsReported | src/routes/components/subjects/subject.ts:11-13 | each empty field is reported with its own message |
| Subject.FilledFieldsSilent | src/routes/components/subjects/subject.ts:11-13 | a filled field's message is not among the issues |
| Subject.FieldReported | src/routes/components/subjects/subject.ts:11-13 | `min(1, message)` reports exactly its message on its own path for the empty text and nothing for a filled one |
| Subject.NinthSemesterAccepted | src/routes/components/subjects/subject.ts:13 | a semester outside 1–8 such as "9" is accepted |
| Subject.FormattedRowAccepted | src/lib/api/SubjectApi.ts:28-31 | a bulk row with a numeric semester and filled code and name passes the subject schema once formatted |
| Forms.Form.constructor | src/routes/protected/teachers.tsx:210-216 | a new form holds its defaults and no errors |
| Forms.Form.SetValue | src/components/auth/LoginForm.tsx:83-84 | `setValue` changes that one value and no error |
| Forms.Form.Reset | src/routes/protected/students.tsx:330-335 | `reset(record)` makes the record both the values and the defaults, clears the errors and the submitted state, and leaves the form pristine |
| Forms.Form.SetError | src/components/auth/LoginForm.tsx:95-98 | `setError` sets that one message and no value |
| Forms.Form.ClearErrors | src/components/auth/LoginForm.tsx:85 | `clearErrors` removes that one message and no value |
| Forms.Form.FieldChange | src/routes/components/students/AddEditStudentDialog.tsx:57-70 | `field.onChange` stores the value; before the first submit no error changes, afterwards that field's error becomes the resolver's message for it on the new values, or is removed, and no other error changes |
| Forms.Form.HandleSubmit | src/routes/components/students/AddEditStudentDialog.tsx:124 | `handleSubmit` marks the form submitted, replaces the errors by the resolver's error map of the values, changes no value, and calls `onSubmit` exactly when the schema accepts |
| Forms.Revalidated | src/routes/components/students/AddEditStudentDialog.tsx:57-70 | re-validating one field changes no other field's error |
| Forms.RevalidatedAgreesWithSubmit | src/routes/components/students/AddEditStudentDialog.tsx:57-70 | a re-validated field has exactly the error a full validation of the same values gives it |
| Zod.FirstMessage | src/routes/components/students/AddEditStudentDialog.tsx:58 | the resolver's message for a path is absent iff no issue lies on that path, and is otherwise the message of an issue on it |
| Zod.ErrorsOf | src/routes/components/students/AddEditStudentDialog.tsx:58 | the resolver's error map holds exactly the paths with an issue, each with its first message |
| Zod.FirstMessageAppend | src/lib/schemas/studentSchema.ts:3-29 | issues in sequence: a path's message comes from the first list if it has one there, else from the second |
| Zod.FirstMessageBetween | src/lib/schemas/studentSchema.ts:3-29 | issues on other paths before and after a field do not change that field's message |
| Zod.MergeMessage | src/lib/schemas/studentSchema.ts:3-29 | an object's message for a path is its first field's message for it, if that field has one |
| Zod.RefineMessage | src/lib/schemas/studentSchema.ts:30-46 | an object refinement reporting on another path does not change a path's message |
| Zod.OffPathSilent | src/lib/schemas/studentSchema.ts:3-29 | a field reporting only on its own path has no message for any other |
| Forms.Submit | src/routes/protected/teachers.tsx:218-224 | no record under edit: create the data; otherwise update with the form's fields over the record, the record's other fields kept |
| Forms.ResubmitStable | src/routes/protected/students.tsx:321-327 | submitting the same data over the updated record changes nothing |
| Pagination.PageItems | src/hooks/UsePagination.tsx:7-10 | a page never holds more than the page size |
| Pagination.InlinePage | src/routes/protected/teachers.tsx:286-289 | the inline slice never holds more than the list |
| Pagination.TotalPages | src/hooks/UsePagination.tsx:12 | `ceil(n / k)`: the pages cover n items, and one page fewer would not |
| Pagination.PageContents | src/hooks/UsePagination.tsx:7-10 | from page 1 on, page p holds the items at (p−1)·k up to p·k, cut off at the end |
| Pagination.InlinePageIsPage | src/routes/protected/students.tsx:383-386 | the inline `slice((p−1)·k, p·k)` equals the hook's `slice(start, start + k)` |
| Pagination.PageZeroEmpty | src/hooks/UsePagination.tsx:35 | page 0, where "next" lands on an empty list, shows nothing |
| Pagination.PagePastEndEmpty | src/hooks/UsePagination.tsx:7-12 | pages past the last one are empty |
| Pagination.PagesPrefix | src/hooks/UsePagination.tsx:7-10 | pages 1..m laid end to end are the first m·k items |
| Pagination.PagesCoverItems | src/hooks/UsePagination.tsx:7-12 | pages 1..ceil(n/k) laid end to end give back the whole list in order |
| Pagination.Pager.constructor | src/hooks/UsePagination.tsx:4-5 | a pager starts on page 1 over the given items |
| Pagination.Pager.WithDefaultSize | src/hooks/UsePagination.tsx:4-5 | a pager made without a page size shows ten items a page and starts on page 1 |
| Pagination.Pager.Previous | src/hooks/UsePagination.tsx:19 | "previous" moves to max(p−1, 1) and never below page 1 |
| Pagination.Pager.Next | src/hooks/UsePagination.tsx:35 | "next" moves to min(p+1, totalPages) and never past the last page |
| Pagination.Pager.Jump | src/hooks/UsePagination.tsx:23-26 | link i goes to page i+1, which shows the items at i·k up to (i+1)·k |
| Pagination.Pager.SetItems | src/hooks/UsePagination.tsx:4-10 | a refreshed list keeps the page number |
| Pagination.NextOnEmptyList | src/hooks/UsePagination.tsx:12-35 | "next" on an empty list goes to page 0, which shows nothing |
| AssignRole.RoleOf | src/routes/protected/assign-role.tsx:52-85 | the tag selects the tutor, year-in-charge or HOD option iff it is exactly that literal |
| AssignRole.AsAssignment | src/routes/protected/assign-role.tsx:52-85 | an object reads as an assignment only when its tag is known |
| AssignRole.AsHod | src/routes/protected/assign-role.tsx:81-85 | an object reads as an HOD assignment iff both ids are text |
| AssignRole.AsYearInCharge | src/routes/protected/assign-role.tsx:70-80 | an object reads as a year-in-charge assignment iff its five fields are text |
| AssignRole.AsTutor | src/routes/protected/assign-role.tsx:53-69 | an object reads as a tutor assignment iff its six texts are text and its roll numbers integers |
| AssignRole.StaffFieldsAccept | src/routes/protected/assign-role.tsx:55-56 | teacherId and departmentId pass iff both are non-empty text, and abort iff either is not text |
| AssignRole.ClassFieldsAccept | src/routes/protected/assign-role.tsx:57-62 | batch, year and semester pass iff batch is non-empty and year and semester are tokens |
| AssignRole.TutorFieldsAccept | src/routes/protected/assign-role.tsx:63-68 | section and roll numbers pass iff the section is non-empty and both numbers are at least 1 |
| AssignRole.ClassPairing | src/routes/protected/assign-role.tsx:88-98 | for well-typed class fields the refinement holds iff the class is valid by the table |
| AssignRole.TutorAccepts | src/routes/protected/assign-role.tsx:53-106 | a tutor object passes iff every field of its option passes and the pair is in the table |
| AssignRole.YearInChargeAccepts | src/routes/protected/assign-role.tsx:70-106 | a year-in-charge object passes iff its fields pass and the pair is in the table |
| AssignRole.HodAccepts | src/routes/protected/assign-role.tsx:81-100 | an HOD object passes iff both ids are non-empty; the refinement holds whatever the rest is |
| AssignRole.TutorAssignment | src/routes/protected/assign-role.tsx:53-69 | a tutor object reads as a valid assignment iff its fields pass and the pair is in the table |
| AssignRole.YearInChargeAssignment | src/routes/protected/assign-role.tsx:70-80 | a year-in-charge object reads as a valid assignment iff its fields pass and the pair is in the table |
| AssignRole.AssignSchemaAccepts | src/routes/protected/assign-role.tsx:51-106 | the schema accepts iff the object spells a valid assignment (reference predicate `AssignmentValid`) |
| AssignRole.ClassRolesCheckPairing | src/routes/protected/assign-role.tsx:87-105 | for both class-bound roles, with all fields passing and the pair not in the table, the one issue is the pairing message on `semester` |
| AssignRole.StaffYearSilent | src/routes/protected/assign-role.tsx:55-56 | teacherId and departmentId report nothing on `year` |
| AssignRole.ClassYearError | src/routes/protected/assign-role.tsx:57-62 | of batch, year and semester only the year union reports on `year` |
| AssignRole.TutorYearSilent | src/routes/protected/assign-role.tsx:63-68 | section and the roll-number range report nothing on `year` |
| AssignRole.AssignYearError | src/routes/protected/assign-role.tsx:51-106 | the schema's `year` error is the year union's own for TUTOR and YEAR_IN_CHARGE, whatever the other fields hold, and there is none for HOD or an unknown role |
| AssignRole.UnknownRoleAborts | src/routes/protected/assign-role.tsx:52 | any other tag aborts with the one discriminator issue on `role` |
| AssignRole.RollOrderIgnored | src/routes/protected/assign-role.tsx:67-68 | a valid tutor stays valid with any roll numbers of at least 1, a start above the end included |
| AssignRole.AnyBatchAccepted | src/routes/protected/assign-role.tsx:57 | a valid tutor stays valid with any non-empty batch, one outside every year window included |
| AssignRole.BatchOptionsAccepted | src/routes/protected/assign-role.tsx:41-48 | every offered batch year passes the batch rule |
| AssignRole.EmptyDepartmentAndBatchReported | src/routes/protected/assign-role.tsx:56-57 | a class-bound object with empty department and batch is rejected with both messages |
| AssignRole.DefaultsRejected | src/routes/protected/assign-role.tsx:121-131 | the defaults cannot be submitted: department and batch are reported |
| AssignRole.UnreadableRollNoRejected | src/routes/protected/assign-role.tsx:378-399 | in either roll-number box, any text `Number.parseInt` reads as NaN aborts with "Expected number, received nan" on that box |
| Zod.NaNRejected | src/routes/protected/assign-role.tsx:67-68 | `z.number()` rejects NaN as a wrong type, "Expected number, received nan", before any rule |
| AssignRole.EmptyRollNoRejected | src/routes/protected/assign-role.tsx:381 | clearing a roll-number box stores NaN, which aborts with "Expected number, received nan" |
| AssignRole.OnYearChange | src/routes/protected/assign-role.tsx:230-236 | the handler sets year and then the auto-filled semester, and no other value; before the first submit no error changes; afterwards the year's error is re-validated on the new year: it is there exactly when the role has a year and the year is not "1" to "6"; years 1–4 then pair, years 5–6 leave a semester outside the enum |
| AssignRole.YearRevalidated | src/routes/protected/assign-role.tsx:230-231 | after a year change on a submitted form, the year error is there exactly when the role has a year field and the new year is not "1" to "6" |
| AssignRole.AutoFillOfYear | src/routes/protected/assign-role.tsx:232-235 | the auto-filled semester of years "1"–"4" is in the enum and pairs with the year; that of years "5" and "6" is not in the enum |
| AssignRole.SemesterOptionsOfYear | src/routes/protected/assign-role.tsx:291-314 | years "1"–"4" are offered their two semesters 2y−1 and 2y |
| AssignRole.OfferedSemestersOfYear | src/routes/protected/assign-role.tsx:291-314 | for years "1"–"4" both offered semesters are in the enum and pair |
| AssignRole.OfferedSemestersOfContinuingYear | src/routes/protected/assign-role.tsx:315-326 | years "5" and "6" are offered all eight semesters, each of which pairs |
| AssignRole.OfferedSemestersPair | src/routes/protected/assign-role.tsx:291-326 | every year token is offered at least two semesters, each in the enum and pairing |
| AssignRole.OtherYearOffersUnpairable | src/routes/protected/assign-role.tsx:315-326 | "other" is offered all eight semesters yet fails the year union and pairs with none of them |
| StudentDialog.DialogYearOptions | src/routes/components/students/AddEditStudentDialog.tsx:92-95 | the batch window has exactly seven entries |
| StudentDialog.DialogYearOption | src/routes/components/students/AddEditStudentDialog.tsx:94 | option i spells currentYear−3+i and reads back as it |
| StudentDialog.DialogYearsAscending | src/routes/components/students/AddEditStudentDialog.tsx:94 | the window ascends from three years back to three ahead, without repeats |
| StudentDialog.DialogYearsAccepted | src/routes/components/students/AddEditStudentDialog.tsx:92-95 | from 2003 on, every offered batch passes the range rule and is one of the students page's options |
| StudentDialog.EarlyWindowRejected | src/routes/components/students/AddEditStudentDialog.tsx:94 | before 2003 the window's first year is below 2000 and fails the range rule |
| StudentDialog.GetSemesterOptions | src/routes/components/students/AddEditStudentDialog.tsx:97-110 | every year, known or not, gets at least one option |
| StudentDialog.SemesterOptionsOfYear | src/routes/components/students/AddEditStudentDialog.tsx:99-106 | years "1"–"4" get their two semesters 2y−1 and 2y |
| StudentDialog.SemesterOptionsPair | src/routes/components/students/AddEditStudentDialog.tsx:97-110 | for years "1"–"4" both options pair, and the first is the semester the students page auto-fills |
| StudentDialog.OptionsOfYearPair | src/routes/components/students/AddEditStudentDialog.tsx:99-106 | both options of years "1"–"4" are enum semesters that pair with the year |
| StudentDialog.FirstOptionIsAutoFill | src/routes/components/students/AddEditStudentDialog.tsx:220-221 | the first option of years "1"–"4" is `String(Number(year) * 2 - 1)` |
| StudentDialog.OtherYearsDefault | src/routes/components/students/AddEditStudentDialog.tsx:107-108 | any other text gets the lone option "1" |
| StudentDialog.YearSelectOptionsAreYears | src/routes/components/students/AddEditStudentDialog.tsx:231 | the year select offers only "1"–"4" |
| StudentDialog.OnYearChange | src/routes/components/students/AddEditStudentDialog.tsx:218-222 | the handler sets year and then the first semester option, and no other value; before the first submit no error changes; afterwards the year's error is re-validated on the new year: it is there exactly when the year is not "1" to "6"; every offered year then pairs |
| StudentDialog.YearRevalidated | src/routes/components/students/AddEditStudentDialog.tsx:218-222 | after a year change on a submitted form, the year error is there exactly when the new year is not "1" to "6" |
| StudentDialog.SelectedYearPairs | src/routes/components/students/AddEditStudentDialog.tsx:218-222 | for every year the select offers, the semester the handler writes is in the enum and pairs with it |
| StudentDialog.EmptyRegNoAndNameReported | src/lib/schemas/studentSchema.ts:5-7 | a record with empty regNo and name is rejected with both messages |
| StudentDialog.DefaultsRejected | src/routes/components/students/AddEditStudentDialog.tsx:59-69 | the untouched dialog cannot be submitted: regNo and name are reported |
| LoginForm.PhoneAccepts | src/components/auth/LoginForm.tsx:26-32 | the phone schema accepts exactly text of 10 to 15 characters, all digits |
| LoginForm.UsernameRules | src/components/auth/LoginForm.tsx:36 | a username passes iff it is text of 2 to 50 characters |
| LoginForm.LoginSchemaAccepts | src/components/auth/LoginForm.tsx:34-52 | the schema accepts iff the fields pass and exactly one of email and phone is truthy (reference predicate `LoginValid`) |
| LoginForm.Classify | src/components/auth/LoginForm.tsx:80-94 | a username is e-mail-like iff it contains "@", phone-like iff not and all digits, otherwise neither |
| LoginForm.UsernameEffect | src/components/auth/LoginForm.tsx:78-102 | on a dirty form the effect's values and errors are those of `EffectValues` and `EffectErrors`; a pristine form is untouched |
| LoginForm.ValidUsernameSetsOne | src/components/auth/LoginForm.tsx:80-93 | after a valid e-mail or phone exactly one contact is set, it is the username, and its error is cleared |
| LoginForm.NeitherRejected | src/components/auth/LoginForm.tsx:94-100 | a username that is neither clears both contacts, is flagged "Invalid email", and the schema then rejects |
| LoginForm.InvalidUsernameKeepsState | src/components/auth/LoginForm.tsx:80-93 | an invalid e-mail or phone changes neither values nor errors |
| LoginForm.RequestCarriesContact | src/components/auth/LoginForm.tsx:109-112 | on accepted data the request's username is the one truthy contact |
| LoginForm.OnSubmit | src/components/auth/LoginForm.tsx:104-120 | the request carries `email`, else `phone || email`; without an e-mail the username is flagged and the request still goes out |
| LoginForm.StalePhoneSent | src/components/auth/LoginForm.tsx:87-93 | as written: editing a valid phone into an invalid digit string keeps the old phone, which the schema accepts and the request sends |
| LoginForm.CorrectedRequestIsUsername | src/components/auth/LoginForm.tsx:78-120 | with invalid usernames clearing both contacts, any accepted form logs in with exactly the typed username |
| LoginPage.PageSchemaAccepts | src/routes/auth/login.tsx:27-34 | the schema accepts iff the username has at least 2 and the password at least 3 characters |
| LoginPage.ShortPasswordAccepted | src/routes/auth/login.tsx:31-33 | as written: passwords of 3 to 5 characters pass although the message demands 6 |
| LoginPage.CorrectedPasswordMessage | src/routes/auth/login.tsx:31-33 | with the rule at 6, the password message appears iff the password is shorter than 6 |
| LoginPage.PageEffectFlags | src/routes/auth/login.tsx:52-82 | on a dirty form the username has an error iff it is neither a valid e-mail nor 10–15 digits; the message names what it looks like; other errors are untouched |
| LoginPage.UsernameEffect | src/routes/auth/login.tsx:52-82 | the effect changes no value and leaves the errors `PageEffectErrors` describes |
| LoginPage.FlaggedUsernameSubmitted | src/routes/auth/login.tsx:27-34 | a flagged username of 2 or more characters still passes the schema and is submitted |
| LoginPage.SubmitRequest | src/routes/auth/login.tsx:84-89 | submit posts to `/login`, and accepted data carries a text username of at least 2 characters |
| IncrementSemester.IncrementSchemaAccepts | src/routes/protected/increment-semester-form.tsx:37-40 | the schema accepts iff batch and maxSemester are non-empty texts |
| IncrementSemester.DefaultsRejected | src/routes/protected/increment-semester-form.tsx:51-54 | the defaults are rejected with exactly the one issue "Batch is required" |
| IncrementSemester.MaxSemesterOptions | src/routes/protected/increment-semester-form.tsx:117 | there are nine max-semester options |
| IncrementSemester.MaxSemesterOptionsRange | src/routes/protected/increment-semester-form.tsx:117 | a text is offered iff it spells a number from 4 to 12 |
| IncrementSemester.MaxSemesterOptionsAscending | src/routes/protected/increment-semester-form.tsx:117 | option i reads back as 4+i, so the options ascend without duplicates |
| IncrementSemester.DefaultMaxSemesterOffered | src/routes/protected/increment-semester-form.tsx:53 | the default "8" is one of the options |
| IncrementSemester.SelectedValuesAccepted | src/routes/protected/increment-semester-form.tsx:28-40 | any batch and maximum semester picked from the two selects pass the schema |
| Teachers.TeacherSchemaAccepts | src/routes/protected/teachers.tsx:117-120 | the schema accepts iff name is non-empty text and email is text that passes the e-mail check |
| Teachers.DefaultsRejected | src/routes/protected/teachers.tsx:212-215 | the defaults are rejected for the name, and for the email iff "" is not an e-mail |
| Teachers.Parsed | src/routes/protected/teachers.tsx:117-120 | the parsed data has exactly the keys name and email |
| Teachers.EditSubmitKeepsIdentity | src/routes/protected/teachers.tsx:218-224 | an edit sends the record with the form's name and email and its id, userId, role and other fields unchanged; otherwise the data is created |
| Teachers.TeacherPages | src/routes/protected/teachers.tsx:286-291 | pages 1..ceil(n/10) are non-empty and hold teachers (p−1)·10 up to p·10; later pages are empty |

## Findings

| source | as written | input that shows it | evidently intended | confidence | as-written member | corrected member |
|---|---|---|---|---|---|---|
| src/components/auth/LoginForm.tsx:87-93 | a digit (or "@") username that fails the phone (or e-mail) schema leaves the previously set phone (or e-mail) in place, and no error is shown | type "9876543210" (phone set), then delete a digit: username "987654321", phone still "9876543210"; the form is accepted and `/login` receives "9876543210" | an invalid username clears both contacts, so what is sent is what was typed | not executed; medium | LoginForm.StalePhoneSent | LoginForm.CorrectedRequestIsUsername |
| src/routes/auth/login.tsx:31-33 | `password: z.string().min(3, …)` with the message "Password must be at least 6 characters." | password "abcd" passes | the rule and the message agree on 6 characters | not executed; medium | LoginPage.ShortPasswordAccepted | LoginPage.CorrectedPasswordMessage |
| src/routes/protected/students.tsx:304-336 | `handleEdit` resets the form to the record; the reset changes the watched `year`, so the year effect writes `String(Number(year) * 2 - 1)` over the record's semester | the form last held year "1"; edit a year-2, semester-4 student: the dialog shows semester "3", and Update sends 3 | editing shows and keeps the record's own semester; the auto-fill follows only the year select | not executed; medium | Students.EditShowsWrongSemester | Students.CorrectedEditShowsSemester |

## Left out

- Rendering: JSX, dialogs, toasts, styling, `navigate`, `loginCallback` and `confirm()` are not modelled. They hold no decision logic.
- react-query: mutation state and `invalidateQueries` are not modelled.
- HTTP calls: only the endpoint and the body of each request are modelled, as `StudentApi.Request` and `LoginForm.LoginRequest`. Responses, errors after posting and the fetch helpers are not modelled.
- Spreadsheet upload: `FileReader` and `XLSX` parsing are not modelled. The parsed rows are the input of the bulk helpers.
- The teachers page's `bulkCreateTeachers`, `assignRole` and `deleteTeacher`, and the increment-semester form's `onSubmit` (`src/routes/protected/increment-semester-form.tsx:58-60` and `73-75`, a post to `/user.student.incrementSemester`), send their argument unchanged, so nothing is left to model.
- Clock: `new Date().getFullYear()` is the parameter `currentYear`.
- E-mail check: zod's regular expression in `z.string().email()` is the parameter `isEmail`.
- JS numbers: only integers and NaN are modelled. `Js.StringToNumber` reads text with a fraction, an exponent or a hex prefix as NaN rather than its value, and Infinity is not modelled.
- Students.YearEffect and AssignRole.OnYearChange: the "other" year boxes (`src/routes/protected/students.tsx:522-529`, `src/routes/protected/assign-role.tsx:253-266`) are number inputs whose text can be a fraction or an exponent such as "2.5" or "1e1". The source then writes the semester `String(Number(v) * 2 - 1)`, which is "4" or "19"; the model writes "NaN". Such a year fails the year union either way, so the form cannot be submitted with it.
- Js.IntToString: every integer is written as plain digits. `String(n)` and `toString()` switch to exponent form from 1e21 on ("1e+21"), which `Js.StringifyField` would reach for a spreadsheet regNo of 22 or more digits.
- Strings are sequences of characters. UTF-16 surrogate pairs are not distinguished, so `min`/`max` lengths count characters.
- Forms.Form.IsDirty: this is `values != defaults`. react-hook-form compares deeply against the defaults, which is the same thing for these flat records.
- Forms.Form keeps each error's message, not its `type`.
- Forms.Form.FieldChange is used only by the two year handlers (AssignRole.OnYearChange, StudentDialog.OnYearChange). The other inputs' `field.onChange` is not modelled as a method. On a submitted form it re-validates its own field in the same way. Students.YearEffect and the username effects model `setValue` calls, which do not validate.
- Forms.Form.FieldChange: the resolver runs asynchronously. The model validates at the `field.onChange` call, on the values the resolver reads there: the new year, with the semester not yet updated. The year error does not depend on the semester (StudentSchema.StudentYearError, AssignRole.AssignYearError).
- Forms.Form.HandleSubmit is not called by the screen models. Their `onSubmit` bodies are functions of the data it passes on (`Forms.Submit` and the payload transforms).
- `handleDelete` is not modelled: it asks for confirmation and posts the id unchanged. The teachers page's `handleEdit` resets its form to the record's name and email, which no effect watches, so it states nothing further.
- Effects run once per change, as one method call. React's scheduling and dependency arrays are not modelled.
- Pagination.TotalPages: requires a page size above 0. Every page in the source uses 10, and the hook's default is 10.
- LoginForm.UsernameEffect: reads the watched username as text (`Js.Text`). The input field only ever holds text, so the case of a non-text username is not modelled.
- The year range and the year-to-semester auto-fill read year texts char by char (`Students.AutoSemesterPairs` and its siblings), one lemma per case.
