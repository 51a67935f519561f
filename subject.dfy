/** The subject schema: three required texts, each reported with its own message. */
module Subject {
  import opened Js
  import opened Zod
  import SubjectApi

  const CodeMessage := "Subject code is required"
  const NameMessage := "Subject name is required"
  const SemesterMessage := "Semester is required"

  /** `z.string().min(1, message)`. */
  function RequiredText(path: string, v: Value, message: string): Status {
    String(path, v, [Rule(|Text(v)| >= 1, message)])
  }

  /** `subjectSchema.safeParse(o)`. */
  function SubjectStatus(o: Obj): Status {
    Merge(RequiredText("subjectCode", Get(o, "subjectCode"), CodeMessage),
    Merge(RequiredText("name", Get(o, "name"), NameMessage),
          RequiredText("semester", Get(o, "semester"), SemesterMessage)))
  }

  /** A field holding non-empty text. */
  predicate Filled(o: Obj, key: string) {
    Get(o, key).Str? && Get(o, key).s != ""
  }

  /** The schema accepts exactly the records whose three fields are non-empty texts; the
      semester is not checked against any range. */
  lemma SubjectSchemaAccepts(o: Obj)
    ensures SubjectStatus(o).Valid? <==> Filled(o, "subjectCode") && Filled(o, "name") && Filled(o, "semester")
  {
  }

  /** Each empty field is reported with its own message. */
  lemma EmptyFieldsReported(o: Obj)
    ensures Get(o, "subjectCode") == Str("") ==> Issue("subjectCode", CodeMessage) in IssuesOf(SubjectStatus(o))
    ensures Get(o, "name") == Str("") ==> Issue("name", NameMessage) in IssuesOf(SubjectStatus(o))
    ensures Get(o, "semester") == Str("") ==> Issue("semester", SemesterMessage) in IssuesOf(SubjectStatus(o))
  {
    var sc := RequiredText("subjectCode", Get(o, "subjectCode"), CodeMessage);
    var sn := RequiredText("name", Get(o, "name"), NameMessage);
    var ss := RequiredText("semester", Get(o, "semester"), SemesterMessage);
    var code, name, semester := IssuesOf(sc), IssuesOf(sn), IssuesOf(ss);
    assert SubjectStatus(o) == Merge(sc, Merge(sn, ss));
    assert IssuesOf(Merge(sn, ss)) == name + semester;
    var all := IssuesOf(SubjectStatus(o));
    assert all == code + (name + semester);
    if Get(o, "subjectCode") == Str("") {
      FieldReported("subjectCode", Get(o, "subjectCode"), CodeMessage);
      assert all[0] == Issue("subjectCode", CodeMessage);
    }
    if Get(o, "name") == Str("") {
      FieldReported("name", Get(o, "name"), NameMessage);
      assert (name + semester)[0] == Issue("name", NameMessage);
      Reported(code, name + semester, Issue("name", NameMessage));
    }
    if Get(o, "semester") == Str("") {
      FieldReported("semester", Get(o, "semester"), SemesterMessage);
      assert semester[0] == Issue("semester", SemesterMessage);
      Reported(name, semester, Issue("semester", SemesterMessage));
      Reported(code, name + semester, Issue("semester", SemesterMessage));
    }
  }

  /** A filled field is not reported. */
  lemma FilledFieldsSilent(o: Obj)
    ensures Filled(o, "subjectCode") ==> Issue("subjectCode", CodeMessage) !in IssuesOf(SubjectStatus(o))
    ensures Filled(o, "name") ==> Issue("name", NameMessage) !in IssuesOf(SubjectStatus(o))
    ensures Filled(o, "semester") ==> Issue("semester", SemesterMessage) !in IssuesOf(SubjectStatus(o))
  {
    var sc := RequiredText("subjectCode", Get(o, "subjectCode"), CodeMessage);
    var sn := RequiredText("name", Get(o, "name"), NameMessage);
    var ss := RequiredText("semester", Get(o, "semester"), SemesterMessage);
    assert SubjectStatus(o) == Merge(sc, Merge(sn, ss));
    FieldReported("subjectCode", Get(o, "subjectCode"), CodeMessage);
    FieldReported("name", Get(o, "name"), NameMessage);
    FieldReported("semester", Get(o, "semester"), SemesterMessage);
    ThreeFieldsSilent(sc, sn, ss, "subjectCode", "name", "semester");
  }

  /** In an object of three fields, each reporting only on its own distinct path, a field
      with no issue leaves no issue on its path. */
  lemma ThreeFieldsSilent(a: Status, b: Status, c: Status, pa: string, pb: string, pc: string)
    requires OnPath(a, pa) && OnPath(b, pb) && OnPath(c, pc)
    requires pa != pb && pb != pc && pa != pc
    ensures forall m :: IssuesOf(a) == [] ==> Issue(pa, m) !in IssuesOf(Merge(a, Merge(b, c)))
    ensures forall m :: IssuesOf(b) == [] ==> Issue(pb, m) !in IssuesOf(Merge(a, Merge(b, c)))
    ensures forall m :: IssuesOf(c) == [] ==> Issue(pc, m) !in IssuesOf(Merge(a, Merge(b, c)))
  {
    var all := IssuesOf(Merge(a, Merge(b, c)));
    assert all == IssuesOf(a) + (IssuesOf(b) + IssuesOf(c));
    forall i | 0 <= i < |all|
      ensures all[i].path == pa || all[i].path == pb || all[i].path == pc
      ensures IssuesOf(a) == [] ==> all[i].path != pa
      ensures IssuesOf(b) == [] ==> all[i].path != pb
      ensures IssuesOf(c) == [] ==> all[i].path != pc
    {
      if i < |IssuesOf(a)| {
        assert all[i] == IssuesOf(a)[i];
      } else if i < |IssuesOf(a)| + |IssuesOf(b)| {
        assert all[i] == IssuesOf(b)[i - |IssuesOf(a)|];
      } else {
        assert all[i] == IssuesOf(c)[i - |IssuesOf(a)| - |IssuesOf(b)|];
      }
    }
  }

  /** An issue in the later part of a list is in the list. */
  lemma Reported(before: seq<Issue>, after: seq<Issue>, issue: Issue)
    requires issue in after
    ensures issue in before + after
  {
    var i :| 0 <= i < |after| && after[i] == issue;
    assert (before + after)[|before| + i] == issue;
  }

  /** A required text field reports exactly its message when it is the empty text, nothing
      when it is filled, and only issues on its own path. */
  lemma FieldReported(path: string, v: Value, message: string)
    ensures v == Str("") ==> IssuesOf(RequiredText(path, v, message)) == [Issue(path, message)]
    ensures v.Str? && v.s != "" ==> IssuesOf(RequiredText(path, v, message)) == []
    ensures forall i :: 0 <= i < |IssuesOf(RequiredText(path, v, message))| ==>
      IssuesOf(RequiredText(path, v, message))[i].path == path
  {
  }

  /** A semester outside 1 to 8, such as "9", passes. */
  lemma NinthSemesterAccepted(o: Obj)
    requires Filled(o, "subjectCode") && Filled(o, "name")
    requires Get(o, "semester") == Str("9")
    ensures SubjectStatus(o).Valid?
  {
  }

  /** A sheet row formatted for the bulk upload whose semester was a number, with filled
      code and name, passes the subject schema. */
  lemma FormattedRowAccepted(row: Obj)
    requires Get(row, "semester").Num?
    requires Filled(row, "subjectCode") && Filled(row, "name")
    ensures SubjectApi.FormatSubjectRow(row).Ok?
    ensures SubjectStatus(SubjectApi.FormatSubjectRow(row).value).Valid?
  {
    var out := SubjectApi.FormatSubjectRow(row).value;
    assert Get(out, "subjectCode") == Get(row, "subjectCode");
    assert Get(out, "name") == Get(row, "name");
    var n := Get(row, "semester").n;
    assert ToJsString(Get(row, "semester")) != "" by {
      if n.Int? {
        var i := n.i;
        if i < 0 {
          assert IntToString(i) == "-" + NatToString(-i);
        } else {
          assert AllDigits(NatToString(i));
        }
      }
    }
  }
}
