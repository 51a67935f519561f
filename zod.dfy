/** The part of the zod validation library the schemas use. A parse ends in one of zod's three
    statuses: `Valid`; `Dirty` when only a refinement-style check failed (a length, a pattern,
    a `refine`), in which case later refinements still run; or `Aborted` when a value has the
    wrong type, is not in an enum or matches no member of a union, in which case the
    enclosing object's refinements are skipped. */
module Zod {
  import opened Js

  /** One reported problem: the field it is attached to and its message. A union that no
      member accepts reports `UnionIssue`, which also carries the issues of its first member
      (the first entry of zod's `unionErrors`). */
  datatype Issue =
    | Issue(path: string, message: string)
    | UnionIssue(path: string, message: string, firstMember: seq<Issue>)

  datatype Status = Valid | Dirty(issues: seq<Issue>) | Aborted(issues: seq<Issue>)

  /** A refinement-style check: the message is reported when `holds` is false. */
  datatype Rule = Rule(holds: bool, message: string)

  function IssuesOf(st: Status): seq<Issue> {
    match st
    case Valid => []
    case Dirty(found) => found
    case Aborted(found) => found
  }

  /** zod's name for the runtime type of a value. */
  function TypeName(v: Value): string {
    match v
    case Undefined => "undefined"
    case Null => "null"
    case Str(_) => "string"
    case Num(n) => if n.NaN? then "nan" else "number"
    case Bool(_) => "boolean"
  }

  /** The wrong-type issue: "Required" for a missing value, otherwise expected vs. received. */
  function InvalidType(path: string, expected: string, v: Value): (st: Status)
    ensures st.Aborted? && |IssuesOf(st)| == 1 && IssuesOf(st)[0].path == path
    ensures v.Undefined? ==> IssuesOf(st)[0].message == "Required"
  {
    Aborted([Issue(path, if v.Undefined? then "Required" else "Expected " + expected + ", received " + TypeName(v))])
  }

  /** The messages of the failing rules, in order. */
  function Failed(path: string, rules: seq<Rule>): (found: seq<Issue>)
    ensures found == [] <==> forall i :: 0 <= i < |rules| ==> rules[i].holds
    ensures forall j :: 0 <= j < |found| ==> found[j].path == path
  {
    if rules == [] then []
    else (if rules[0].holds then [] else [Issue(path, rules[0].message)]) + Failed(path, rules[1..])
  }

  /** The checks of a value that already has the right type: every rule runs. */
  function Rules(path: string, rules: seq<Rule>): (st: Status)
    ensures st.Valid? <==> forall i :: 0 <= i < |rules| ==> rules[i].holds
    ensures !st.Aborted?
    ensures IssuesOf(st) == Failed(path, rules)
  {
    var found := Failed(path, rules);
    if found == [] then Valid else Dirty(found)
  }

  /** `z.string()` followed by refinement-style checks on the text. */
  function String(path: string, v: Value, rules: seq<Rule>): (st: Status)
    ensures st.Valid? <==> v.Str? && forall i :: 0 <= i < |rules| ==> rules[i].holds
  {
    if v.Str? then Rules(path, rules) else InvalidType(path, "string", v)
  }

  /** `z.number()` followed by refinement-style checks; NaN is a wrong type for zod. */
  function Number(path: string, v: Value, rules: seq<Rule>): (st: Status)
    ensures st.Valid? <==> v.Num? && v.n.Int? && forall i :: 0 <= i < |rules| ==> rules[i].holds
  {
    if v.Num? && v.n.Int? then Rules(path, rules) else InvalidType(path, "number", v)
  }

  /** NaN is reported as a number of the wrong type. */
  lemma NaNRejected(path: string, rules: seq<Rule>)
    ensures Number(path, Num(NaN), rules) == Aborted([Issue(path, "Expected number, received nan")])
  {
    assert "Expected " + "number" + ", received " + "nan" == "Expected number, received nan";
  }

  /** The integral value of a number value; other values have none. */
  function IntOf(v: Value): (i: int)
    ensures v.Num? && v.n.Int? ==> i == v.n.i
  {
    if v.Num? && v.n.Int? then v.n.i else 0
  }

  /** `.nullable()`: `null` passes without running the inner checks. */
  function Nullable(v: Value, inner: Status): (st: Status)
    ensures st.Valid? <==> v.Null? || inner.Valid?
  {
    if v.Null? then Valid else inner
  }

  /** `'1' | '2' | ...`, the way zod lists expected literals. */
  function JoinValues(options: seq<string>): string {
    if options == [] then ""
    else if |options| == 1 then "'" + options[0] + "'"
    else "'" + options[0] + "' | " + JoinValues(options[1..])
  }

  /** `z.enum(options)`. */
  function Enum(path: string, options: seq<string>, v: Value): (st: Status)
    ensures st.Valid? <==> v.Str? && v.s in options
    ensures !st.Valid? ==> st.Aborted?
  {
    if !v.Str? then InvalidType(path, JoinValues(options), v)
    else if v.s in options then Valid
    else Aborted([Issue(path, "Invalid enum value. Expected " + JoinValues(options) + ", received '" + v.s + "'")])
  }

  /** `z.union([a, b])`: the first member that passes wins; otherwise the issues of the first
      member that only went dirty; otherwise a single "Invalid input" that keeps the first
      member's issues. */
  function Union(path: string, a: Status, b: Status): (st: Status)
    ensures st.Valid? <==> a.Valid? || b.Valid?
  {
    if a.Valid? || b.Valid? then Valid
    else if a.Dirty? then a
    else if b.Dirty? then b
    else Aborted([UnionIssue(path, "Invalid input", IssuesOf(a))])
  }

  /** How `z.object({...})` combines its fields' statuses: every field is checked, issues are
      kept in declaration order, and one aborted field aborts the object. An object of fields
      `f1, f2, ..., fn` is `Merge(f1, Merge(f2, ... fn))`. */
  function Merge(a: Status, b: Status): (st: Status)
    ensures st.Valid? <==> a.Valid? && b.Valid?
    ensures st.Aborted? <==> a.Aborted? || b.Aborted?
    ensures IssuesOf(st) == IssuesOf(a) + IssuesOf(b)
  {
    var found := IssuesOf(a) + IssuesOf(b);
    if a.Aborted? || b.Aborted? then Aborted(found)
    else if a.Valid? && b.Valid? then Valid
    else Dirty(found)
  }

  /** `.refine(check, {message, path})`: skipped after an abort, otherwise adds the issue when
      the check fails. */
  function Refine(st: Status, holds: bool, issue: Issue): (r: Status)
    ensures r.Valid? <==> st.Valid? && holds
    ensures st.Aborted? ==> r == st
    ensures st.Valid? && !holds ==> r == Dirty([issue])
    ensures IssuesOf(r) == IssuesOf(st) + (if st.Aborted? || holds then [] else [issue])
  {
    match st
    case Aborted(_) => st
    case Valid => if holds then Valid else Dirty([issue])
    case Dirty(found) => Dirty(if holds then found else found + [issue])
  }

  // ---------------------------------------------------------------- issues per field

  /** Every issue of `st` is reported on `path`. */
  predicate OnPath(st: Status, path: string) {
    forall i :: 0 <= i < |IssuesOf(st)| ==> IssuesOf(st)[i].path == path
  }

  lemma StringOnPath(path: string, v: Value, rules: seq<Rule>)
    ensures OnPath(String(path, v, rules), path)
  {
  }

  lemma NumberOnPath(path: string, v: Value, rules: seq<Rule>)
    ensures OnPath(Number(path, v, rules), path)
  {
  }

  lemma EnumOnPath(path: string, options: seq<string>, v: Value)
    ensures OnPath(Enum(path, options, v), path)
  {
  }

  lemma UnionOnPath(path: string, a: Status, b: Status)
    requires OnPath(a, path) && OnPath(b, path)
    ensures OnPath(Union(path, a, b), path)
  {
  }

  lemma NullableOnPath(v: Value, inner: Status, path: string)
    requires OnPath(inner, path)
    ensures OnPath(Nullable(v, inner), path)
  {
  }

  /** The message `zodResolver` shows for one issue: its own, except that for a union no
      member accepts it shows the message of the first member's first issue. An aborted
      member always carries an issue in zod; for an empty list the union's own message is
      kept. */
  function Shown(issue: Issue): (m: string)
    ensures issue.Issue? ==> m == issue.message
    ensures issue.UnionIssue? && issue.firstMember != [] ==> m == issue.firstMember[0].message
  {
    match issue
    case Issue(_, message) => message
    case UnionIssue(_, message, first) => if first == [] then message else first[0].message
  }

  /** The message `zodResolver` gives the field at `path`: the shown message of the first
      issue reported on it, if any. */
  function FirstMessage(issues: seq<Issue>, path: string): (m: Option<string>)
    ensures m.None? <==> forall i :: 0 <= i < |issues| ==> issues[i].path != path
    ensures m.Some? ==> exists i :: 0 <= i < |issues| && issues[i].path == path && Shown(issues[i]) == m.value
                                    && (forall j :: 0 <= j < i ==> issues[j].path != path)
  {
    if issues == [] then None
    else if issues[0].path == path then Some(Shown(issues[0]))
    else FirstMessage(issues[1..], path)
  }

  /** The issues of a concatenation: the first list's message for the path, if it has one,
      else the second's. */
  lemma {:induction false} FirstMessageAppend(a: seq<Issue>, b: seq<Issue>, path: string)
    ensures FirstMessage(a + b, path) == if FirstMessage(a, path).Some? then FirstMessage(a, path) else FirstMessage(b, path)
  {
    if a != [] {
      assert (a + b)[1..] == a[1..] + b;
      FirstMessageAppend(a[1..], b, path);
    } else {
      assert a + b == b;
    }
  }

  /** Issues before and after that are reported elsewhere do not change a path's message. */
  lemma FirstMessageBetween(before: seq<Issue>, middle: seq<Issue>, after: seq<Issue>, path: string)
    requires FirstMessage(before, path).None? && FirstMessage(after, path).None?
    ensures FirstMessage(before + middle + after, path) == FirstMessage(middle, path)
  {
    FirstMessageAppend(before, middle + after, path);
    FirstMessageAppend(middle, after, path);
    assert before + middle + after == before + (middle + after);
  }

  /** An object's message for a path is its first field's, if that field has one. */
  lemma MergeMessage(a: Status, b: Status, path: string)
    ensures FirstMessage(IssuesOf(Merge(a, b)), path) ==
      if FirstMessage(IssuesOf(a), path).Some? then FirstMessage(IssuesOf(a), path) else FirstMessage(IssuesOf(b), path)
  {
    FirstMessageAppend(IssuesOf(a), IssuesOf(b), path);
  }

  /** A field with nothing on a path leaves the path's message to the fields after it. */
  lemma SilentFirst(a: Status, b: Status, path: string)
    requires FirstMessage(IssuesOf(a), path).None?
    ensures FirstMessage(IssuesOf(Merge(a, b)), path) == FirstMessage(IssuesOf(b), path)
  {
    MergeMessage(a, b, path);
  }

  /** A refinement reporting elsewhere leaves a path's message alone. */
  lemma RefineMessage(st: Status, holds: bool, issue: Issue, path: string)
    requires issue.path != path
    ensures FirstMessage(IssuesOf(Refine(st, holds, issue)), path) == FirstMessage(IssuesOf(st), path)
  {
    FirstMessageAppend(IssuesOf(st), if st.Aborted? || holds then [] else [issue], path);
  }

  /** A status reporting on another path has no message for this one. */
  lemma OffPathSilent(st: Status, on: string, path: string)
    requires OnPath(st, on) && on != path
    ensures FirstMessage(IssuesOf(st), path).None?
  {
  }

  /** The error map `zodResolver` hands to the form: each path with an issue, mapped to its
      first message. */
  function ErrorsOf(issues: seq<Issue>): (errors: map<string, string>)
    ensures forall p :: p in errors <==> FirstMessage(issues, p).Some?
    ensures forall p :: p in errors ==> errors[p] == FirstMessage(issues, p).value
  {
    if issues == [] then map[]
    else ErrorsOf(issues[1..])[issues[0].path := Shown(issues[0])]
  }

  /** The default messages of `.min(n)` and `.max(n)` on strings. */
  function MinMessage(n: nat): string {
    "String must contain at least " + IntToString(n) + " character(s)"
  }

  function MaxMessage(n: nat): string {
    "String must contain at most " + IntToString(n) + " character(s)"
  }
}
