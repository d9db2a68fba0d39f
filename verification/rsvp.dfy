/** The RSVP form's state: a record of named text fields that an input's
    change event updates one field at a time. The component keys the update
    by the input's name attribute, so the record is a map from field names to
    values. */
module Rsvp {

  /** The four fields the form's inputs are named after. */
  const FormFields: set<string> := {"name", "phone", "guests", "message"}

  /** The form on mount: everything empty except one guest. */
  const InitialForm: map<string, string> :=
    map["name" := "", "phone" := "", "guests" := "1", "message" := ""]

  /** The form on mount has exactly the four fields, with one guest and the
      rest empty. */
  lemma InitialFormShape()
    ensures InitialForm.Keys == FormFields
    ensures InitialForm["guests"] == "1"
    ensures forall f :: f in InitialForm && f != "guests" ==> InitialForm[f] == ""
  {
  }

  /** The record after a change event on the input called `field` that now
      holds `value`: that field takes the value, every other field keeps its
      own. */
  function WithField(form: map<string, string>, field: string, value: string): (r: map<string, string>)
    ensures field in r && r[field] == value
    ensures r.Keys == form.Keys + {field}
    ensures forall f :: f in form && f != field ==> r[f] == form[f]
  {
    form[field := value]
  }

  /** Changing one of the form's own fields keeps the record's set of fields
      exactly as it was. */
  lemma WithFieldKeepsFields(form: map<string, string>, field: string, value: string)
    requires form.Keys == FormFields && field in FormFields
    ensures WithField(form, field, value).Keys == FormFields
  {
  }

  /** Two edits of one field leave only the later value; edits of two
      different fields do not interfere and may be applied in either order. */
  lemma WithFieldOverwrites(form: map<string, string>, f: string, g: string, v: string, w: string)
    ensures WithField(WithField(form, f, v), f, w) == WithField(form, f, w)
    ensures f != g ==> WithField(WithField(form, f, v), g, w) == WithField(WithField(form, g, w), f, v)
  {
  }

  /** Writing back the value a field already holds changes nothing. */
  lemma WithSameValue(form: map<string, string>, field: string)
    requires field in form
    ensures WithField(form, field, form[field]) == form
  {
  }
}
