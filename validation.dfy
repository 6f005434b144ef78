/** The part of Laravel's validator that this application's rules rely on:
    `required`, `nullable`, `string`, `max:n` on strings, and the order in which
    an attribute's rules are tried. */
module Validation {
  import opened Wrappers
  import opened Text

  /** One request input. `Null` covers an absent key and an explicit null;
      `EmptyArray` is `[]`, which `required` treats as missing but `nullable`
      does not; `Other` is any other non-string value (a number, a non-empty array). */
  datatype RequestValue = Null | Str(s: string) | EmptyArray | Other

  /** The rules that occur in this application's requests. */
  datatype Rule = Required | MustBeString | Max(limit: nat) | Unique | Exists

  /** `required` holds: the value is not null, not an empty array and not a
      string that trims to ''. */
  predicate Present(v: RequestValue) {
    !v.Null? && !v.EmptyArray? && !(v.Str? && Blank(v.s))
  }

  /** The first failing rule of `required|string|max:limit`. A failing `required`
      stops the attribute; `max` counts characters. */
  function RequiredString(v: RequestValue, limit: nat): (r: Option<Rule>)
    ensures r.None? <==> v.Str? && !Blank(v.s) && |v.s| <= limit
    ensures r == Some(Required) <==> !Present(v)
    ensures r == Some(MustBeString) <==> v.Other?
    ensures r == Some(Max(limit)) <==> v.Str? && !Blank(v.s) && |v.s| > limit
  {
    if !Present(v) then Some(Required)
    else if !v.Str? then Some(MustBeString)
    else if |v.s| > limit then Some(Max(limit))
    else None
  }

  /** The first failing rule of `nullable|string|max:limit`. A null or absent
      value skips every rule, and so does a blank string, since none of these
      rules is implicit; an empty array is present and not null, so `string`
      runs on it and fails. */
  function NullableString(v: RequestValue, limit: nat): (r: Option<Rule>)
    ensures r.None? <==> v.Null? || (v.Str? && (Blank(v.s) || |v.s| <= limit))
    ensures r == Some(MustBeString) <==> v.EmptyArray? || v.Other?
    ensures r == Some(Max(limit)) <==> v.Str? && !Blank(v.s) && |v.s| > limit
    ensures r != Some(Required)
  {
    if v.Null? then None
    else if !v.Str? then Some(MustBeString)
    else if Blank(v.s) || |v.s| <= limit then None
    else Some(Max(limit))
  }
}
