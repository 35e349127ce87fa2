/**
 * The intake form: its schema (technology at least 2 characters, control
 * deficiencies at least 10, counted as JavaScript counts string length),
 * its empty default values and its submit rule.
 */
module RiskForm {
  import opened Wrappers
  import opened JsStrings

  datatype FormValues = FormValues(technology: string, controlDeficiencies: string)

  /** A schema violation: the field it concerns and the message shown under it. */
  datatype FieldError = FieldError(field: string, message: string)

  const TechnologyMinLength: nat := 2
  const DeficienciesMinLength: nat := 10

  const TechnologyMessage: string := "Technology name must be at least 2 characters."
  const DeficienciesMessage: string :=
    "Please provide a detailed description of control deficiencies (at least 10 characters)."

  predicate TechnologyValid(technology: string) {
    Utf16Length(technology) >= TechnologyMinLength
  }

  predicate DeficienciesValid(deficiencies: string) {
    Utf16Length(deficiencies) >= DeficienciesMinLength
  }

  predicate FormValid(v: FormValues) {
    TechnologyValid(v.technology) && DeficienciesValid(v.controlDeficiencies)
  }

  /** `formSchema`: one error per failing field, in the schema's field order. */
  function Validate(v: FormValues): (errors: seq<FieldError>)
    ensures errors == [] <==> FormValid(v)
    ensures |errors| <= 2
    ensures (FieldError("technology", TechnologyMessage) in errors) <==> !TechnologyValid(v.technology)
    ensures (FieldError("controlDeficiencies", DeficienciesMessage) in errors)
            <==> !DeficienciesValid(v.controlDeficiencies)
    ensures forall e :: e in errors ==> e.field == "technology" || e.field == "controlDeficiencies"
  {
    (if TechnologyValid(v.technology) then [] else [FieldError("technology", TechnologyMessage)])
    + (if DeficienciesValid(v.controlDeficiencies) then []
       else [FieldError("controlDeficiencies", DeficienciesMessage)])
  }

  /** `defaultValues`. */
  function DefaultValues(): FormValues {
    FormValues("", "")
  }

  /** The submit button: disabled while loading or while the form is invalid. */
  predicate SubmitEnabled(isLoading: bool, v: FormValues) {
    !isLoading && FormValid(v)
  }

  /** A fresh form fails both rules, so it cannot be submitted whatever the loading state. */
  lemma DefaultsCannotBeSubmitted(isLoading: bool)
    ensures Validate(DefaultValues()) ==
      [FieldError("technology", TechnologyMessage), FieldError("controlDeficiencies", DeficienciesMessage)]
    ensures !SubmitEnabled(isLoading, DefaultValues())
  {
  }

  /**
   * The submission that reaches `onSubmit`: the values as entered when the
   * button is enabled, nothing otherwise.
   */
  function Submit(isLoading: bool, v: FormValues): (r: Option<FormValues>)
    ensures r.Some? <==> !isLoading && Validate(v) == []
    ensures r.Some? ==> r.value == v
  {
    if SubmitEnabled(isLoading, v) then Some(v) else None
  }

  /**
   * Length is counted in UTF-16 code units: a technology name of two
   * characters is always long enough, one character is too short unless it
   * lies outside the Basic Multilingual Plane, as an emoji does.
   */
  lemma TechnologyLengthInCodeUnits(technology: string)
    ensures |technology| >= 2 ==> TechnologyValid(technology)
    ensures |technology| == 1 ==> (TechnologyValid(technology) <==> technology[0] as int > 0xFFFF)
    ensures |technology| == 0 ==> !TechnologyValid(technology)
  {
    if |technology| == 1 {
      assert technology[1..] == [];
    }
  }

  /** A description counts as long enough once it has ten characters, and never with fewer than five. */
  lemma DeficienciesLengthBounds(deficiencies: string)
    ensures |deficiencies| >= 10 ==> DeficienciesValid(deficiencies)
    ensures |deficiencies| < 5 ==> !DeficienciesValid(deficiencies)
  {
  }
}
