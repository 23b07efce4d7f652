/**
 * The per-field rule table of src/utils/validation.ts (`validateField`, and
 * `validateOnBlur`, which delegates to it). Every rule reads the trimmed value.
 */
module FieldValidation {
  import opened Wrappers
  import opened Text

  /**
   * The optional `extra` argument: the owning node's type tag and, for the
   * `value` field, the selected operator. An absent `extra` is Context(None, None).
   */
  datatype Context = Context(nodeType: Option<string>, operator: Option<string>)

  /** The field names the rule table knows; every other name passes. */
  datatype FieldKey = CustomName | Url | FieldToEvaluate | Operator | Value | Method | FieldName | FieldLabel

  /** The name the source uses for a field. */
  function NameOf(k: FieldKey): string {
    match k
    case CustomName => "customName"
    case Url => "url"
    case FieldToEvaluate => "fieldToEvaluate"
    case Operator => "operator"
    case Value => "value"
    case Method => "method"
    case FieldName => "fieldName"
    case FieldLabel => "fieldLabel"
  }

  /** The `switch (field)` of the source: the rule a field name selects, if any. */
  function ParseField(name: string): (r: Option<FieldKey>)
    ensures r.Some? ==> NameOf(r.value) == name
  {
    if name == "customName" then Some(CustomName)
    else if name == "url" then Some(Url)
    else if name == "fieldToEvaluate" then Some(FieldToEvaluate)
    else if name == "operator" then Some(Operator)
    else if name == "value" then Some(Value)
    else if name == "method" then Some(Method)
    else if name == "fieldName" then Some(FieldName)
    else if name == "fieldLabel" then Some(FieldLabel)
    else None
  }

  /** Every known field name selects its own rule, and only the eight names select one. */
  lemma ParseFieldRoundTrip(k: FieldKey, name: string)
    ensures ParseField(NameOf(k)) == Some(k)
    ensures ParseField(name).None? <==> forall k' :: NameOf(k') != name
  {
    if ParseField(name).None? {
      forall k' ensures NameOf(k') != name {
      }
    }
  }

  const HttpMethods: seq<string> := ["GET", "POST", "PUT", "DELETE"]

  /** The regular expression `^[a-zA-Z0-9_]+$`. */
  predicate IsIdentifier(s: string) {
    |s| > 0 && forall i :: 0 <= i < |s| ==> IsWordChar(s[i])
  }

  /**
   * The regular expression `^https?:\/\/.+`: the scheme and "://", then at least
   * one character that `.` matches (anything but a line terminator).
   */
  predicate IsHttpUrl(s: string) {
    || (StartsWith(s, "http://") && |s| > 7 && !IsLineTerminator(s[7]))
    || (StartsWith(s, "https://") && |s| > 8 && !IsLineTerminator(s[8]))
  }

  predicate IsConditional(ctx: Context) {
    ctx.nodeType == Some("conditional")
  }

  predicate IsApi(ctx: Context) {
    ctx.nodeType == Some("api")
  }

  const IsRequired := " is required"
  const MinimumThree := " must have a minimum of 3 characters"
  const ConditionNameRequired := "Condition Name" + IsRequired
  const FormNameRequired := "Form Name" + IsRequired
  const ConditionNameTooShort := "Condition Name" + MinimumThree
  const FormNameTooShort := "Form Name" + MinimumThree

  /** The source's `validateField`: an error message, or None when the value passes. */
  function ValidateField(field: string, value: string, ctx: Context): (r: Option<string>)
    ensures r.Some? ==> r.value != ""
    ensures ParseField(field).None? ==> r.None?
  {
    match ParseField(field)
    case Some(k) => ValidateKey(k, value, ctx)
    case None => None
  }

  /** The rule for field `k`, applied to the trimmed value. */
  function ValidateKey(k: FieldKey, value: string, ctx: Context): (r: Option<string>)
    ensures r.Some? ==> r.value != ""
  {
    CheckTrimmed(k, Trim(value), ctx)
  }

  /** The rule table proper, applied to the already trimmed value `t`. */
  function CheckTrimmed(k: FieldKey, t: string, ctx: Context): (r: Option<string>)
    ensures r.Some? ==> r.value != ""
  {
    match k
    case CustomName => CheckCustomName(t, ctx)
    case FieldName => CheckFieldName(t)
    case FieldLabel => CheckFieldLabel(t)
    case FieldToEvaluate =>
      if IsConditional(ctx) && t == "" then Some("Field to Evaluate is required") else None
    case Operator =>
      if IsConditional(ctx) && t == "" then Some("Operator is required") else None
    case Value =>
      if IsConditional(ctx) && ctx.operator != Some("is_empty") && t == "" then Some("Value is required")
      else None
    case Url => CheckUrl(t, ctx)
    case Method => CheckMethod(t, ctx)
  }

  function CheckCustomName(t: string, ctx: Context): Option<string> {
    if t == "" then Some(if IsConditional(ctx) then ConditionNameRequired else FormNameRequired)
    else if |t| < 3 then Some(if IsConditional(ctx) then ConditionNameTooShort else FormNameTooShort)
    else None
  }

  function CheckFieldName(t: string): Option<string> {
    if t == "" then Some("Field Name is required")
    else if !IsIdentifier(t) then Some("Field Name must be alphanumeric only (no spaces)")
    else if |t| < 2 then Some("Field Name must have a minimum of 2 characters")
    else None
  }

  function CheckFieldLabel(t: string): Option<string> {
    if t == "" then Some("Field Label is required")
    else if |t| < 2 then Some("Field Label must have a minimum of 2 characters")
    else None
  }

  function CheckUrl(t: string, ctx: Context): Option<string> {
    if !IsApi(ctx) then None
    else if t == "" then Some("URL is required")
    else if !IsHttpUrl(t) then Some("URL must start with http:// or https://")
    else None
  }

  function CheckMethod(t: string, ctx: Context): Option<string> {
    if !IsApi(ctx) then None
    else if t == "" then Some("Method is required")
    else if ToUpper(t) !in HttpMethods then Some("Method must be GET, POST, PUT, or DELETE")
    else None
  }

  /** The source's `validateOnBlur`, which hands its arguments to ValidateField unchanged. */
  function ValidateOnBlur(field: string, value: string, ctx: Context): Option<string> {
    ValidateField(field, value, ctx)
  }

  /** Surrounding whitespace never changes a verdict: every rule sees the trimmed value. */
  lemma WhitespaceInsensitive(field: string, value: string, ctx: Context)
    ensures ValidateField(field, Trim(value), ctx) == ValidateField(field, value, ctx)
  {
    TrimIdempotent(value);
  }

  /** Unknown field names always pass. */
  lemma UnknownFieldPasses(field: string, value: string, ctx: Context)
    requires forall k :: NameOf(k) != field
    ensures ValidateField(field, value, ctx).None?
  {
    ParseFieldRoundTrip(CustomName, field);
  }

  /**
   * customName: passes iff the trimmed value has at least three characters; a
   * blank value gets the "is required" message; the wording names a Condition
   * exactly for conditional nodes and a Form otherwise.
   */
  lemma CustomNameRule(value: string, ctx: Context)
    ensures var r := ValidateKey(CustomName, value, ctx);
      && (r.None? <==> |Trim(value)| >= 3)
      && (r.Some? ==> (EndsWith(r.value, IsRequired) <==> AllWhitespace(value)))
      && (r.Some? ==> (StartsWith(r.value, "Condition Name") <==> IsConditional(ctx)))
      && (r.Some? ==> (StartsWith(r.value, "Form Name") <==> !IsConditional(ctx)))
  {
    TrimEmptyIffAllWhitespace(value);
    assert ConditionNameRequired[0] == 'C' && ConditionNameTooShort[0] == 'C';
    assert FormNameRequired[0] == 'F' && FormNameTooShort[0] == 'F';
    assert ConditionNameTooShort[|ConditionNameTooShort| - 1] == 's';
    assert FormNameTooShort[|FormNameTooShort| - 1] == 's';
  }

  /**
   * fieldName: passes iff the trimmed value is an identifier of at least two
   * characters. The checks run in the order required, identifier, length, so a
   * one-character non-identifier gets the identifier message.
   */
  lemma FieldNameRule(value: string, ctx: Context)
    ensures var r := ValidateKey(FieldName, value, ctx);
      var t := Trim(value);
      && (r.None? <==> IsIdentifier(t) && |t| >= 2)
      && (AllWhitespace(value) ==> r == Some("Field Name is required"))
      && (!AllWhitespace(value) && !IsIdentifier(t) ==> r == Some("Field Name must be alphanumeric only (no spaces)"))
      && (IsIdentifier(t) && |t| < 2 ==> r == Some("Field Name must have a minimum of 2 characters"))
  {
    TrimEmptyIffAllWhitespace(value);
  }

  /** fieldLabel: passes iff the trimmed value has at least two characters. */
  lemma FieldLabelRule(value: string, ctx: Context)
    ensures var r := ValidateKey(FieldLabel, value, ctx);
      && (r.None? <==> |Trim(value)| >= 2)
      && (AllWhitespace(value) ==> r == Some("Field Label is required"))
      && (!AllWhitespace(value) && |Trim(value)| < 2 ==> r == Some("Field Label must have a minimum of 2 characters"))
  {
    TrimEmptyIffAllWhitespace(value);
  }

  /**
   * fieldToEvaluate and operator fail only for a blank value on a conditional
   * node; value fails only for a blank value on a conditional node whose
   * operator is not `is_empty`.
   */
  lemma ConditionalRules(value: string, ctx: Context)
    ensures ValidateKey(FieldToEvaluate, value, ctx).Some? <==> IsConditional(ctx) && AllWhitespace(value)
    ensures ValidateKey(Operator, value, ctx).Some? <==> IsConditional(ctx) && AllWhitespace(value)
    ensures ValidateKey(Value, value, ctx).Some? <==>
      IsConditional(ctx) && ctx.operator != Some("is_empty") && AllWhitespace(value)
  {
    TrimEmptyIffAllWhitespace(value);
  }

  /** url: checked only on api nodes, where it must be an http(s) URL with something after "://". */
  lemma UrlRule(value: string, ctx: Context)
    ensures var r := ValidateKey(Url, value, ctx);
      && (r.None? <==> !IsApi(ctx) || IsHttpUrl(Trim(value)))
      && (IsApi(ctx) && AllWhitespace(value) ==> r == Some("URL is required"))
  {
    TrimEmptyIffAllWhitespace(value);
  }

  /** method: checked only on api nodes, where its upper-cased form must be one of the four verbs. */
  lemma MethodRule(value: string, ctx: Context)
    ensures var r := ValidateKey(Method, value, ctx);
      && (r.None? <==> !IsApi(ctx) || ToUpper(Trim(value)) in HttpMethods)
      && (IsApi(ctx) && AllWhitespace(value) ==> r == Some("Method is required"))
  {
    TrimEmptyIffAllWhitespace(value);
    if IsApi(ctx) && Trim(value) == "" {
      assert ToUpper(Trim(value)) == "";
    }
  }

  lemma SameUpperSameMethodVerdict(a: string, b: string, ctx: Context)
    requires ToUpper(a) == ToUpper(b)
    ensures CheckMethod(a, ctx) == CheckMethod(b, ctx)
  {
    assert |a| == |ToUpper(a)| == |b|;
  }

  /** The method check ignores letter case: a lower-cased value gets the same verdict. */
  lemma MethodCaseInsensitive(value: string, ctx: Context)
    ensures ValidateKey(Method, ToLower(value), ctx) == ValidateKey(Method, value, ctx)
  {
    var t := Trim(value);
    var l := ToLower(t);
    TrimToLower(value);
    UpperOfLower(t);
    SameUpperSameMethodVerdict(l, t, ctx);
    assert ValidateKey(Method, ToLower(value), ctx) == CheckMethod(l, ctx);
  }

  /** Whether a field passes does not depend on the context, for the three context-free rules. */
  lemma ContextFreeRules(field: FieldKey, value: string, ctx: Context, ctx': Context)
    requires field == CustomName || field == FieldName || field == FieldLabel
    ensures ValidateKey(field, value, ctx).None? == ValidateKey(field, value, ctx').None?
  {
  }
}
