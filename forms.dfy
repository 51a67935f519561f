/** The part of react-hook-form the screens drive by hand: a form's current values, its
    field errors, `setValue`, `setError`, `clearErrors`, `reset` and `isDirty`; validation through a
    zod resolver on submit and, once submitted, on each change of a field (the default
    `mode: "onSubmit"` with `reValidateMode: "onChange"`); and the edit-or-create choice the
    management screens make on submit. */
module Forms {
  import opened Js
  import opened Zod

  /** A form instance. `isDirty` is read as "the values differ from the defaults", which
      `reset` replaces; `submitted` is `formState.isSubmitted`. */
  class Form {
    var defaults: Obj
    var values: Obj
    var errors: map<string, string>
    var submitted: bool

    constructor (defaults: Obj)
      ensures this.defaults == defaults && values == defaults && errors == map[] && !submitted
    {
      this.defaults := defaults;
      values := defaults;
      errors := map[];
      submitted := false;
    }

    predicate IsDirty()
      reads this
    {
      values != defaults
    }

    /** `watch(key)`. */
    function Value(key: string): Value
      reads this
    {
      Get(values, key)
    }

    /** `setValue(key, v)`. */
    method SetValue(key: string, v: Value)
      modifies this
      ensures values == old(values)[key := v] && errors == old(errors) && submitted == old(submitted)
      ensures defaults == old(defaults)
    {
      values := values[key := v];
    }

    /** `field.onChange(v)` of a registered input: the value is stored and, once the form has
        been submitted, the resolver runs again and this field's error is replaced by the one it
        reports for the field, or removed when it reports none. */
    method FieldChange(key: string, v: Value, schema: Obj -> Status)
      modifies this
      ensures values == old(values)[key := v] && submitted == old(submitted) && defaults == old(defaults)
      ensures errors == if old(submitted) then Revalidated(old(errors), key, IssuesOf(schema(values))) else old(errors)
    {
      values := values[key := v];
      if submitted {
        errors := Revalidated(errors, key, IssuesOf(schema(values)));
      }
    }

    /** `handleSubmit(onSubmit)`: the resolver runs on the current values, its errors replace
        the form's, and `onSubmit` is called (`valid`) exactly when the schema accepts them. */
    method HandleSubmit(schema: Obj -> Status) returns (valid: bool)
      modifies this
      ensures values == old(values) && submitted && defaults == old(defaults)
      ensures errors == ErrorsOf(IssuesOf(schema(values)))
      ensures valid <==> schema(values).Valid?
    {
      var status := schema(values);
      errors := ErrorsOf(IssuesOf(status));
      submitted := true;
      valid := status.Valid?;
    }

    /** `reset(record)`: the record becomes both the values and the new defaults, and the
        errors and the submitted state are cleared. */
    method Reset(record: Obj)
      modifies this
      ensures values == record && defaults == record && errors == map[] && !submitted
      ensures !IsDirty()
    {
      values := record;
      defaults := record;
      errors := map[];
      submitted := false;
    }

    /** `setError(key, {message})`. */
    method SetError(key: string, message: string)
      modifies this
      ensures errors == old(errors)[key := message] && values == old(values) && submitted == old(submitted)
      ensures defaults == old(defaults)
    {
      errors := errors[key := message];
    }

    /** `clearErrors(key)`. */
    method ClearErrors(key: string)
      modifies this
      ensures errors == old(errors) - {key} && values == old(values) && submitted == old(submitted)
      ensures defaults == old(defaults)
    {
      errors := errors - {key};
    }
  }

  /** The error map after the field `key` is validated again against `issues`: `key` takes
      the resolver's message for it, or is removed; no other field's error changes. */
  function Revalidated(errors: map<string, string>, key: string, issues: seq<Issue>): (r: map<string, string>)
    ensures forall k :: k != key ==> (k in r <==> k in errors) && (k in r ==> r[k] == errors[k])
  {
    match FirstMessage(issues, key)
    case Some(message) => errors[key := message]
    case None => errors - {key}
  }

  /** Re-validating one field leaves it with exactly the error a full validation of the same
      values would give it. */
  lemma RevalidatedAgreesWithSubmit(errors: map<string, string>, key: string, issues: seq<Issue>)
    ensures key in Revalidated(errors, key, issues) <==> key in ErrorsOf(issues)
    ensures key in ErrorsOf(issues) ==> Revalidated(errors, key, issues)[key] == ErrorsOf(issues)[key]
  {
  }

  /** What a management screen's `onSubmit` sends: a create of the form data, or an update of
      the record being edited. */
  datatype Mutation = Create(record: Obj) | Update(record: Obj)

  /** `editing ? update({...editing, ...data}) : create(data)`: the form's fields override the
      edited record's, and the record's other fields (its id and the like) are kept. */
  function Submit(editing: Option<Obj>, data: Obj): (m: Mutation)
    ensures m.Create? <==> editing.None?
    ensures editing.None? ==> m.record == data
    ensures editing.Some? ==> m.record.Keys == editing.value.Keys + data.Keys
    ensures forall k :: k in data ==> k in m.record && m.record[k] == data[k]
    ensures editing.Some? ==>
      forall k :: k in editing.value && k !in data ==> k in m.record && m.record[k] == editing.value[k]
  {
    match editing
    case None => Create(data)
    case Some(record) => Update(Spread(record, data))
  }

  /** Submitting the same data again over the updated record changes nothing. */
  lemma ResubmitStable(editing: Obj, data: Obj)
    ensures Submit(Some(Submit(Some(editing), data).record), data) == Submit(Some(editing), data)
  {
    var once := Submit(Some(editing), data).record;
    var twice := Submit(Some(once), data).record;
    assert twice.Keys == once.Keys;
    assert forall k :: k in twice ==> twice[k] == once[k];
  }
}
