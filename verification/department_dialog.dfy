/** The department form, `src/components/department/DepartmentDialog.jsx`:
    its validation rule, its default values, the mode-dependent title and
    button caption, and the order of the two calls a valid submission
    makes. The parent's `onSubmit` is an input that resolves or rejects. */
module DepartmentForm {
  import opened Wrappers
  import opened Json
  import opened FormRules

  /** The two registered fields. */
  datatype DepartmentValues = DepartmentValues(name: string, description: string)

  const NameRequiredMessage: string := "Le nom est requis"
  const NameTooShortMessage: string := "Le nom doit contenir au moins 2 caractères"

  /** `register("name", { required, minLength: 2 })`. */
  const NameRules: Rules := Rules(Some(NameRequiredMessage), Some(Limit(2, NameTooShortMessage)), None, None)

  /** `register("description")`: no rule at all. */
  const DescriptionRules: Rules := NoRules

  /** The form's `errors`, keyed by field name. */
  function FormErrors(v: DepartmentValues): map<string, string>
  {
    var e := WithError(map[], "name", FieldError(NameRules, v.name));
    WithError(e, "description", FieldError(DescriptionRules, v.description))
  }

  /** The form is valid exactly when the name is at least two UTF-16 code
      units long; the description never matters. An empty name reports the
      required message, a one-unit name the length message. */
  lemma FormValidIff(v: DepartmentValues)
    ensures FormErrors(v) == map[] <==> Utf16Length(v.name) >= 2
    ensures v.name == "" ==> FormErrors(v) == map["name" := NameRequiredMessage]
    ensures Utf16Length(v.name) == 1 ==> FormErrors(v) == map["name" := NameTooShortMessage]
  {
    assert FieldError(DescriptionRules, v.description).None?;
    if Utf16Length(v.name) < 2 {
      assert "name" in FormErrors(v);
    }
  }

  /** A single character outside the Basic Multilingual Plane is two code
      units, so it is accepted as a name. */
  lemma AstralNameAccepted()
    ensures FormErrors(DepartmentValues("\U{1F600}", "")) == map[]
  {
    var name := "\U{1F600}";
    assert name[..0] == [];
    FormValidIff(DepartmentValues(name, ""));
  }

  /** `initialData || { name: '', description: '' }`: the given department
      (an object, so truthy) or the empty form. */
  function DefaultValues(initialData: Option<Object>): (v: Object)
    ensures initialData.Some? ==> v == initialData.value
    ensures initialData.None? ==> v.Keys == {"name", "description"}
  {
    if initialData.Some? then initialData.value
    else map["name" := JStr(""), "description" := JStr("")]
  }

  /** Submitting the empty defaults is refused with the required message. */
  lemma EmptyDefaultsRefused()
    ensures DefaultValues(None)["name"] == JStr("") && DefaultValues(None)["description"] == JStr("")
    ensures FormErrors(DepartmentValues("", "")) == map["name" := NameRequiredMessage]
  {
    FormValidIff(DepartmentValues("", ""));
  }

  /** The `mode` prop after its default: `undefined` (`None`) becomes
      `'create'`. */
  function Mode(mode: Option<string>): (m: string)
    ensures mode.None? ==> m == "create"
    ensures mode.Some? ==> m == mode.value
  {
    if mode.None? then "create" else mode.value
  }

  /** The dialog's title: the creation title exactly in create mode. */
  function Title(mode: Option<string>): (t: string)
    ensures t == "Nouveau Département" <==> Mode(mode) == "create"
  {
    assert "Nouveau Département"[0] != "Modifier le Département"[0];
    if Mode(mode) == "create" then "Nouveau Département" else "Modifier le Département"
  }

  /** The submit button's caption: the creation caption exactly in create
      mode. */
  function SubmitCaption(mode: Option<string>): (c: string)
    ensures c == "Créer" <==> Mode(mode) == "create"
  {
    assert "Créer"[0] != "Mettre à jour"[0];
    if Mode(mode) == "create" then "Créer" else "Mettre à jour"
  }

  /** Title and caption are chosen by the same test: both read as creation
      exactly when the mode is absent or `'create'`, and any other mode,
      even a misspelt one, reads as editing. */
  lemma TitleAndCaptionAgree(mode: Option<string>)
    ensures Title(mode) == "Nouveau Département" <==> SubmitCaption(mode) == "Créer"
    ensures Title(mode) == "Nouveau Département" <==> mode.None? || mode.value == "create"
  {
    assert "Nouveau Département" != "Modifier le Département" by {
      assert "Nouveau Département"[0] != "Modifier le Département"[0];
    }
    assert "Créer" != "Mettre à jour" by {
      assert "Créer"[0] != "Mettre à jour"[0];
    }
  }

  /** The values `handleSubmit` hands to `onSubmit`. The form's values
      start as a copy of its default values, and typing overwrites the two
      registered fields, so every other key of `initialData` (a
      department's `id`, say) is passed along unchanged. */
  function SubmittedValues(initialData: Option<Object>, v: DepartmentValues): (data: Object)
    ensures data.Keys == DefaultValues(initialData).Keys + {"name", "description"}
    ensures data["name"] == JStr(v.name) && data["description"] == JStr(v.description)
    ensures forall k :: k in DefaultValues(initialData) && k != "name" && k != "description" ==>
      data[k] == DefaultValues(initialData)[k]
  {
    Spread(DefaultValues(initialData), map["name" := JStr(v.name), "description" := JStr(v.description)])
  }

  /** Editing a department hands its `id` back to the parent together with
      the edited name and description. */
  lemma EditPassesId(department: Object, v: DepartmentValues)
    requires "id" in department
    ensures "id" in SubmittedValues(Some(department), v)
    ensures SubmittedValues(Some(department), v)["id"] == department["id"]
  {
    assert "id" != "name" && "id" != "description" by {
      assert |"id"| != |"name"| && "id"[0] != "description"[0];
    }
  }

  /** A call the dialog makes on its parent. */
  datatype DialogCall = SubmitCall(data: Object) | CloseCall

  /** What a submission does: the calls made on the parent, in order, the
      errors shown, and how the submission settled. */
  datatype Submission = Submission(calls: seq<DialogCall>, errors: map<string, string>, settled: Outcome)

  /** `handleSubmit(onSubmitForm)`, with `initialData` as it was when the
      dialog first rendered (the form reads its default values once) and
      `v` the two fields as typed: an invalid form shows its errors and
      calls nothing; a valid one awaits `onSubmit(data)` and then calls
      `onClose()`, so a rejected `onSubmit` leaves the dialog open and the
      rejection propagates. */
  function Submit(initialData: Option<Object>, v: DepartmentValues, onSubmit: Outcome): (s: Submission)
    ensures s.errors == FormErrors(v)
    ensures s.calls == [] <==> FormErrors(v) != map[]
    ensures s.calls != [] ==> s.calls[0] == SubmitCall(SubmittedValues(initialData, v))
    ensures CloseCall in s.calls <==> FormErrors(v) == map[] && onSubmit.Done?
    ensures FormErrors(v) == map[] ==> s.settled == onSubmit
  {
    if FormErrors(v) != map[] then Submission([], FormErrors(v), Done)
    else
      var call := SubmitCall(SubmittedValues(initialData, v));
      if onSubmit.Failed? then Submission([call], map[], onSubmit)
      else Submission([call, CloseCall], map[], Done)
  }

  /** A valid name is enough for the dialog to submit and, once the parent
      has saved, to close; the description plays no part. */
  lemma ValidNameCloses(initialData: Option<Object>, v: DepartmentValues)
    requires Utf16Length(v.name) >= 2
    ensures Submit(initialData, v, Done).calls == [SubmitCall(SubmittedValues(initialData, v)), CloseCall]
  {
    FormValidIff(v);
  }
}
