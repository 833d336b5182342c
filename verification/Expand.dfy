/**
 * Parameter expansion, as te_expand_kvpairs() does it for the suite: every ${NAME} is
 * replaced. What stands between the braces is looked up by vars, for any vars.
 */
module Expand {
  import opened Text

  predicate IsReference(s: string) {
    |s| >= 2 && s[0] == '$' && s[1] == '{'
  }

  /** Where the reference that a text starts with is closed, or |s|. */
  function ReferenceEnd(s: string): (end: nat)
    requires IsReference(s)
    ensures 2 <= end <= |s|
    ensures forall i :: 2 <= i < end ==> s[i] != '}'
    ensures end < |s| ==> s[end] == '}'
  {
    var r := IndexOf(s[2..], '}');
    assert forall i :: 2 <= i < 2 + r ==> s[i] == s[2..][i - 2];
    2 + r
  }

  lemma {:induction false} ReferenceEndIs(s: string, end: nat)
    requires IsReference(s) && 2 <= end < |s| && s[end] == '}'
    requires forall i :: 2 <= i < end ==> s[i] != '}'
    ensures ReferenceEnd(s) == end
  {
  }

  /** The expanded text; a brace that is never closed is an error. */
  function ExpandVars(s: string, vars: string -> string): Result<string>
    decreases |s|
  {
    if s == "" then Ok("")
    else if IsReference(s) then
      var end := ReferenceEnd(s);
      if end == |s| then Err(EINVAL)
      else
        var rest :- ExpandVars(s[end + 1..], vars);
        Ok(vars(s[2..end]) + rest)
    else
      var rest :- ExpandVars(s[1..], vars);
      Ok([s[0]] + rest)
  }
}
