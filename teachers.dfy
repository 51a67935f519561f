/** The teacher management page: its two-field schema, the submit that creates a teacher or
    merges the form over the one being edited, and the inline page slice of ten teachers.
    The page's previous/next/number handlers are those of `Pagination.Pager`. */
module Teachers {
  import opened Js
  import opened Zod
  import Forms
  import Pagination

  const NameMessage := "Name is required"
  const EmailMessage := "Invalid email address"

  function NameField(v: Value): Status {
    String("name", v, [Rule(|Text(v)| >= 1, NameMessage)])
  }

  function EmailField(v: Value, isEmail: string -> bool): Status {
    String("email", v, [Rule(isEmail(Text(v)), EmailMessage)])
  }

  /** `teacherSchema.safeParse(o)`. */
  function TeacherStatus(o: Obj, isEmail: string -> bool): Status {
    Merge(NameField(Get(o, "name")), EmailField(Get(o, "email"), isEmail))
  }

  /** The schema accepts exactly a non-empty text name with a text email that passes the
      email check. */
  lemma TeacherSchemaAccepts(o: Obj, isEmail: string -> bool)
    ensures TeacherStatus(o, isEmail).Valid? <==>
      && Get(o, "name").Str? && Get(o, "name").s != ""
      && Get(o, "email").Str? && isEmail(Get(o, "email").s)
  {
  }

  /** The form's defaults: empty name and email. */
  function Defaults(): Obj {
    map["name" := Str(""), "email" := Str("")]
  }

  /** The untouched form is rejected for its name, and for its email too unless the empty
      text counted as an email. */
  lemma DefaultsRejected(isEmail: string -> bool)
    ensures !TeacherStatus(Defaults(), isEmail).Valid?
    ensures Issue("name", NameMessage) in IssuesOf(TeacherStatus(Defaults(), isEmail))
    ensures Issue("email", EmailMessage) in IssuesOf(TeacherStatus(Defaults(), isEmail)) <==> !isEmail("")
  {
    var o := Defaults();
    assert Get(o, "name") == Str("");
    assert Get(o, "email") == Str("");
    assert IssuesOf(NameField(Str(""))) == [Issue("name", NameMessage)];
    assert IssuesOf(EmailField(Str(""), isEmail)) == if isEmail("") then [] else [Issue("email", EmailMessage)];
  }

  /** The data zod hands to `onSubmit`: the two schema fields, unknown keys stripped. */
  function Parsed(o: Obj): (data: Obj)
    ensures data.Keys == {"name", "email"}
  {
    map["name" := Get(o, "name"), "email" := Get(o, "email")]
  }

  /** Editing a teacher sends an update of the edited record with the form's name and email
      and everything else (its id, userId and role) as it was; with no teacher under edit
      the form data is created as it is. */
  lemma EditSubmitKeepsIdentity(editing: Option<Obj>, o: Obj)
    ensures Forms.Submit(editing, Parsed(o)).Create? <==> editing.None?
    ensures editing.None? ==> Forms.Submit(editing, Parsed(o)).record == Parsed(o)
    ensures var r := Forms.Submit(editing, Parsed(o)).record;
      && r["name"] == Get(o, "name") && r["email"] == Get(o, "email")
    ensures editing.Some? ==>
      var r := Forms.Submit(editing, Parsed(o)).record;
      && r.Keys == editing.value.Keys + {"name", "email"}
      && forall k :: k in editing.value && k != "name" && k != "email" ==> r[k] == editing.value[k]
  {
    var data := Parsed(o);
    assert "name" in data && "email" in data;
    assert forall k :: k != "name" && k != "email" ==> k !in data;
  }

  const ItemsPerPage: nat := Pagination.DefaultPageSize

  /** The page shows `Pagination.InlinePage(teachers, currentPage, 10)`. Every page from 1
      to `ceil(n / 10)` is non-empty and holds the teachers at positions
      `(currentPage - 1) * 10` up to `currentPage * 10`, cut off at the end of the list;
      pages past the last are empty. */
  lemma TeacherPages(teachers: seq<Obj>, currentPage: int)
    requires currentPage >= 1
    ensures currentPage <= Pagination.TotalPages(|teachers|, ItemsPerPage) ==>
      && Pagination.InlinePage(teachers, currentPage, ItemsPerPage) ==
           teachers[(currentPage - 1) * 10..Pagination.Min(currentPage * 10, |teachers|)]
      && |Pagination.InlinePage(teachers, currentPage, ItemsPerPage)| >= 1
    ensures currentPage > Pagination.TotalPages(|teachers|, ItemsPerPage) ==>
      Pagination.InlinePage(teachers, currentPage, ItemsPerPage) == []
  {
    var t := Pagination.TotalPages(|teachers|, ItemsPerPage);
    Pagination.InlinePageIsPage(teachers, currentPage, ItemsPerPage);
    Pagination.PageContents(teachers, currentPage, ItemsPerPage);
    if currentPage <= t {
      Pagination.MulMonotone(currentPage - 1, t - 1, ItemsPerPage);
      assert (currentPage - 1) * 10 < |teachers|;
    } else {
      Pagination.PagePastEndEmpty(teachers, currentPage, ItemsPerPage);
    }
  }
}
