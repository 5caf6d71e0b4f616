/** Reading submitted form fields the way both create actions do:
    `(formData.get(key) ?? "").toString().trim()`, and storing an optional
    text as `text || null`. */
module Forms {
  import opened Wrappers
  import opened JsString

  /** A submitted form: field name to submitted text. A name that is not a
      key was not submitted. */
  type Form = map<string, string>

  /** The submitted text, or "" when the field is absent. */
  function Raw(form: Form, key: string): string {
    if key in form then form[key] else ""
  }

  /** A field as the actions read it: absent means "", and the text is trimmed. */
  function Field(form: Form, key: string): (v: string)
    ensures IsTrimmed(v)
    ensures |v| <= |Raw(form, key)|
    ensures key !in form ==> v == []
  {
    Trim(Raw(form, key))
  }

  /** A field reads as empty exactly when it is absent or only white space. */
  lemma FieldEmptyIff(form: Form, key: string)
    ensures Field(form, key) == [] <==> AllWhitespace(Raw(form, key))
  {
    TrimEmptyIff(Raw(form, key));
  }

  /** A submitted value with no white space at either end is read as is. */
  lemma FieldOfTrimmed(form: Form, key: string)
    requires IsTrimmed(Raw(form, key))
    ensures Field(form, key) == Raw(form, key)
  {
    TrimOfTrimmed(Raw(form, key));
  }

  /** A trimmed text with something in it: what a required field must be. */
  predicate IsPresent(s: string) {
    s != [] && IsTrimmed(s)
  }

  /** An optional text as stored: null, or trimmed text with something in it. */
  predicate IsStoredOptional(o: Option<string>) {
    o.Some? ==> IsPresent(o.value)
  }

  /** `text || null`: the empty string is stored as null, any other text as is. */
  function OrNull(text: string): (r: Option<string>)
    ensures r.None? <==> text == []
    ensures r.Some? ==> r.value == text
  {
    if text == [] then None else Some(text)
  }

  /** The text a form submits for a stored optional value: null as "". */
  function OrEmpty(o: Option<string>): string {
    if o.Some? then o.value else ""
  }

  /** `OrNull` undoes `OrEmpty` on every value that is null or non-empty text. */
  lemma OrNullUndoesOrEmpty(o: Option<string>)
    requires o.Some? ==> o.value != []
    ensures OrNull(OrEmpty(o)) == o
  {
  }

  /** Two forms the actions cannot tell apart: every field reads the same. */
  ghost predicate SameFields(f1: Form, f2: Form) {
    forall key :: Field(f1, key) == Field(f2, key)
  }

  /** Submitting a field as the empty string is the same as leaving it out. */
  lemma MissingFieldReadsEmpty(form: Form, key: string)
    requires key !in form
    ensures SameFields(form[key := ""], form)
  {
    forall k ensures Field(form[key := ""], k) == Field(form, k) {
      assert Raw(form[key := ""], k) == Raw(form, k);
    }
  }

  /** White space around a submitted value is never seen by the actions. */
  lemma PaddedFieldReadsSame(form: Form, key: string, p: string, q: string)
    requires key in form
    requires AllWhitespace(p) && AllWhitespace(q)
    ensures SameFields(form[key := p + form[key] + q], form)
  {
    forall k ensures Field(form[key := p + form[key] + q], k) == Field(form, k) {
      if k == key {
        TrimIgnoresPadding(p, form[key], q);
        assert Raw(form[key := p + form[key] + q], k) == p + form[key] + q;
      } else {
        assert Raw(form[key := p + form[key] + q], k) == Raw(form, k);
      }
    }
  }
}
