/** The string helpers of src/utils/helpers.ts used to word validation messages. */
module Helpers {
  import opened Wrappers
  import opened Text

  /** First character upper-cased, the rest lower-cased; "" stays "". */
  function Capitalize(s: string): (r: string)
    ensures |r| == |s|
    ensures s != [] ==> r[0] == ToUpperChar(s[0])
    ensures forall i :: 1 <= i < |s| ==> r[i] == ToLowerChar(s[i])
  {
    if s == [] then "" else [ToUpperChar(s[0])] + ToLower(s[1..])
  }

  /** The shape Capitalize produces: no lower-case first letter, no upper-case letter after it. */
  predicate IsCapitalized(s: string) {
    (s == [] || !IsAsciiLower(s[0]))
    && forall i :: 1 <= i < |s| ==> !IsAsciiUpper(s[i])
  }

  /** Capitalize leaves a string alone exactly when it already has the capitalized shape. */
  lemma CapitalizeFixpoint(s: string)
    ensures Capitalize(s) == s <==> IsCapitalized(s)
  {
    if IsCapitalized(s) && s != [] {
      assert Capitalize(s)[0] == s[0];
      forall i | 1 <= i < |s|
        ensures Capitalize(s)[i] == s[i]
      {
        assert !IsAsciiUpper(s[i]);
      }
    }
  }

  /** Capitalizing twice is capitalizing once. */
  lemma CapitalizeIdempotent(s: string)
    ensures Capitalize(Capitalize(s)) == Capitalize(s)
  {
    assert IsCapitalized(Capitalize(s));
    CapitalizeFixpoint(Capitalize(s));
  }

  /**
   * `singular` for a count of one, otherwise `plural` when it is given and
   * non-empty, otherwise `singular` with an "s" appended.
   */
  function Pluralize(count: int, singular: string, plural: Option<string>): (r: string)
    ensures count == 1 ==> r == singular
    ensures count != 1 && plural.Some? && plural.value != "" ==> r == plural.value
    ensures count != 1 && plural.ValueOr("") == "" ==> r == singular + "s"
  {
    if count == 1 then singular
    else if plural.ValueOr("") != "" then plural.ValueOr("")
    else singular + "s"
  }

  /** With no usable plural form, the result is the singular with at most an "s" added. */
  lemma PluralizeDefault(count: int, singular: string)
    ensures StartsWith(Pluralize(count, singular, None), singular)
    ensures |Pluralize(count, singular, None)| == |singular| + (if count == 1 then 0 else 1)
  {
    assert (singular + "s")[..|singular|] == singular;
  }
}
