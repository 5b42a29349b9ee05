/**
 * The shared name-field schema: a required string whose length lies between
 * a minimum and a maximum, with messages built from the field name.
 */
module Schemas {
  import opened Common
  import opened Strings

  const DefaultMin: nat := 1
  const DefaultMax: nat := 30

  /** The optional schema parameters: bounds and overriding error messages. */
  datatype NameParams = NameParams(
    min: Option<nat>,
    max: Option<nat>,
    requiredError: Option<string>,
    invalidTypeError: Option<string>)

  const NoParams: NameParams := NameParams(None, None, None, None)

  /** The rules a call of the schema builds. */
  datatype NameRules = NameRules(
    min: nat,
    max: nat,
    requiredMessage: string,
    typeMessage: string,
    minMessage: string,
    maxMessage: string)

  function OrElse<T>(o: Option<T>, d: T): T
  {
    if o.Some? then o.value else d
  }

  /** "character" or "characters": plural exactly when the bound exceeds one. */
  function CharacterWord(n: nat): (w: string)
    ensures n > 1 <==> w == "characters"
    ensures n <= 1 <==> w == "character"
  {
    "character" + (if n > 1 then "s" else "")
  }

  function NameSchema(field: string, params: NameParams): (r: NameRules)
    ensures r.min == OrElse(params.min, DefaultMin) && r.max == OrElse(params.max, DefaultMax)
    ensures params.requiredError.None? ==> r.requiredMessage == field + " is required"
    ensures params.requiredError.Some? ==> r.requiredMessage == params.requiredError.value
    ensures params.invalidTypeError.None? ==> r.typeMessage == field + " must be a string"
    ensures params.invalidTypeError.Some? ==> r.typeMessage == params.invalidTypeError.value
    ensures r.minMessage == field + " must be at least " + NatToString(r.min) + " " + CharacterWord(r.min)
    ensures r.maxMessage == field + " must be less than " + NatToString(r.max) + " " + CharacterWord(r.max)
  {
    var min := OrElse(params.min, DefaultMin);
    var max := OrElse(params.max, DefaultMax);
    NameRules(
      min, max,
      OrElse(params.requiredError, field + " is required"),
      OrElse(params.invalidTypeError, field + " must be a string"),
      field + " must be at least " + NatToString(min) + " " + CharacterWord(min),
      field + " must be less than " + NatToString(max) + " " + CharacterWord(max))
  }

  /** A value offered for the field: absent, of another type, or a string. */
  datatype NameInput = Missing | NotAString | Text(text: string)

  /** Parsing a value against the rules; the first issue is the one reported. */
  function ParseName(rules: NameRules, input: NameInput): (r: Result<string>)
    ensures r.Ok? <==> input.Text? && rules.min <= |input.text| <= rules.max
    ensures r.Ok? ==> r.value == input.text
    ensures r.Err? ==> r.error.HttpError? && r.error.kind == BadRequest
  {
    match input
    case Missing => Err(HttpError(BadRequest, rules.requiredMessage))
    case NotAString => Err(HttpError(BadRequest, rules.typeMessage))
    case Text(t) =>
      if |t| < rules.min then Err(HttpError(BadRequest, rules.minMessage))
      else if |t| > rules.max then Err(HttpError(BadRequest, rules.maxMessage))
      else Ok(t)
  }

  /** With no parameters, names of 1 to 30 characters are accepted, both bounds included. */
  lemma DefaultBounds(field: string, t: string)
    ensures ParseName(NameSchema(field, NoParams), Text(t)).Ok? <==> 1 <= |t| <= 30
  {
  }

  /**
   * The maximum message says "less than 30" although a name of exactly 30
   * characters is accepted; the minimum message is singular for the default.
   */
  lemma DefaultMessages(field: string)
    ensures NameSchema(field, NoParams).minMessage == field + " must be at least 1 character"
    ensures NameSchema(field, NoParams).maxMessage == field + " must be less than 30 characters"
  {
  }
}
