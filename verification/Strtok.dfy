/** strtok() with a one-character delimiter set. */
module Strtok {
  import opened Text

  /** The text from its first character that is not the delimiter. */
  function SkipDelims(s: string, delim: char): (r: string)
    ensures |r| <= |s|
    ensures r != "" ==> r[0] != delim
  {
    if s != "" && s[0] == delim then SkipDelims(s[1..], delim) else s
  }

  /** What repeated strtok() calls return. */
  function Tokens(s: string, delim: char): seq<string>
    decreases |s|
  {
    var rest := SkipDelims(s, delim);
    if rest == "" then []
    else
      var end := IndexOf(rest, delim);
      assert end > 0;
      [rest[..end]] + Tokens(rest[end..], delim)
  }

  /** The scanner that strtok() keeps between its calls. */
  class Scanner {
    var rest: string

    constructor (s: string)
      ensures rest == s
    {
      rest := s;
    }

    method Next(delim: char) returns (token: Option<string>)
      modifies this
      ensures token == None ==> Tokens(old(rest), delim) == [] && Tokens(rest, delim) == []
      ensures token.Some? ==> Tokens(old(rest), delim) == [token.value] + Tokens(rest, delim) && |rest| < |old(rest)|
    {
      var s := SkipDelims(rest, delim);
      if s == "" {
        rest := "";
        return None;
      }
      var end := IndexOf(s, delim);
      rest := s[end..];
      return Some(s[..end]);
    }
  }

  /** Tokens are what the delimiters leave: none is empty and none holds the delimiter. */
  predicate IsToken(t: string, delim: char) {
    t != "" && Lacks(t, delim)
  }

  lemma {:induction false} TokensAreTokens(s: string, delim: char)
    ensures forall i :: 0 <= i < |Tokens(s, delim)| ==> IsToken(Tokens(s, delim)[i], delim)
    decreases |s|
  {
    var rest := SkipDelims(s, delim);
    if rest != "" {
      TokensAreTokens(rest[IndexOf(rest, delim)..], delim);
    }
  }

  function Join(tokens: seq<string>, delim: char): string {
    if tokens == [] then ""
    else if |tokens| == 1 then tokens[0]
    else tokens[0] + [delim] + Join(tokens[1..], delim)
  }

  /** A token followed by the delimiter is cut off whole. */
  lemma {:induction false} FirstToken(t: string, delim: char, rest: string)
    requires IsToken(t, delim)
    ensures Tokens(t + [delim] + rest, delim) == [t] + Tokens(rest, delim)
  {
    var s := t + [delim] + rest;
    assert s[0] == t[0] && s[|t|] == delim;
    assert forall i :: 0 <= i < |t| ==> s[i] == t[i];
    IndexOfIs(s, delim, |t|);
    assert s[..|t|] == t && s[|t|..] == [delim] + rest;
    assert SkipDelims([delim] + rest, delim) == SkipDelims(rest, delim) by {
      assert ([delim] + rest)[1..] == rest;
    }
    assert Tokens([delim] + rest, delim) == Tokens(rest, delim);
  }

  lemma {:induction false} OneToken(t: string, delim: char)
    requires IsToken(t, delim)
    ensures Tokens(t, delim) == [t]
  {
    assert IndexOf(t, delim) == |t|;
    assert t[..|t|] == t && t[|t|..] == "";
  }

  /** The text without its delimiters. */
  function Undelimited(s: string, delim: char): string {
    if s == "" then ""
    else (if s[0] == delim then "" else [s[0]]) + Undelimited(s[1..], delim)
  }

  lemma {:induction false} UndelimitedAppend(a: string, b: string, delim: char)
    ensures Undelimited(a + b, delim) == Undelimited(a, delim) + Undelimited(b, delim)
  {
    if a == "" {
      assert a + b == b;
    } else {
      assert (a + b)[1..] == a[1..] + b;
      UndelimitedAppend(a[1..], b, delim);
    }
  }

  lemma {:induction false} UndelimitedToken(t: string, delim: char)
    requires Lacks(t, delim)
    ensures Undelimited(t, delim) == t
  {
    if t != "" {
      UndelimitedToken(t[1..], delim);
    }
  }

  lemma {:induction false} UndelimitedSkip(s: string, delim: char)
    ensures Undelimited(SkipDelims(s, delim), delim) == Undelimited(s, delim)
  {
    if s != "" && s[0] == delim {
      UndelimitedSkip(s[1..], delim);
    }
  }

  /** The tokens in order are the text without its delimiters: no character is lost or moved. */
  lemma {:induction false} TokensKeepText(s: string, delim: char)
    ensures Concat(Tokens(s, delim)) == Undelimited(s, delim)
    decreases |s|
  {
    var rest := SkipDelims(s, delim);
    UndelimitedSkip(s, delim);
    if rest != "" {
      var end := IndexOf(rest, delim);
      assert rest == rest[..end] + rest[end..];
      UndelimitedAppend(rest[..end], rest[end..], delim);
      UndelimitedToken(rest[..end], delim);
      TokensKeepText(rest[end..], delim);
    }
  }

  lemma {:induction false} SkipOne(s: string, rest: string, delim: char)
    requires s == [delim] + rest
    ensures Tokens(s, delim) == Tokens(rest, delim)
  {
    assert s[1..] == rest;
    assert SkipDelims(s, delim) == SkipDelims(rest, delim);
  }

  lemma {:induction false} CutToken(s: string, end: nat, delim: char)
    requires s != "" && s[0] != delim && end == IndexOf(s, delim)
    ensures Tokens(s, delim) == [s[..end]] + Tokens(s[end..], delim)
  {
    assert SkipDelims(s, delim) == s;
  }

  /** The first token of a text stays what it is when more follows behind a delimiter. */
  lemma {:induction false} CutBoth(a: string, b: string, end: nat, delim: char)
    requires a != "" && a[0] != delim && end == IndexOf(a, delim) < |a|
    ensures Tokens(a, delim) == [a[..end]] + Tokens(a[end..], delim)
    ensures Tokens(a + [delim] + b, delim) == [a[..end]] + Tokens(a[end..] + [delim] + b, delim)
  {
    var s := a + [delim] + b;
    assert forall i :: 0 <= i < |a| ==> s[i] == a[i];
    IndexOfIs(s, delim, end);
    CutToken(s, end, delim);
    CutToken(a, end, delim);
    assert s[..end] == a[..end] && s[end..] == a[end..] + [delim] + b;
  }

  /** A delimiter separates: the tokens of the two sides are found independently. */
  lemma {:induction false} TokensAppend(a: string, b: string, delim: char)
    ensures Tokens(a + [delim] + b, delim) == Tokens(a, delim) + Tokens(b, delim)
    decreases |a|
  {
    var s := a + [delim] + b;
    if a == "" {
      SkipOne(s, b, delim);
    } else if a[0] == delim {
      SkipOne(s, a[1..] + [delim] + b, delim);
      SkipOne(a, a[1..], delim);
      TokensAppend(a[1..], b, delim);
    } else {
      var end := IndexOf(a, delim);
      if end == |a| {
        FirstToken(a, delim, b);
        OneToken(a, delim);
      } else {
        CutBoth(a, b, end, delim);
        TokensAppend(a[end..], b, delim);
      }
    }
  }

  // ---- The fields between delimiters ----

  /** The text cut at every delimiter: what stands between two neighbouring ones, or before or after all. */
  function Fields(s: string, delim: char): seq<string> {
    var end := IndexOf(s, delim);
    if end == |s| then [s] else [s[..end]] + Fields(s[end + 1..], delim)
  }

  function NonEmpty(fields: seq<string>): seq<string> {
    if fields == [] then []
    else (if fields[0] == "" then [] else [fields[0]]) + NonEmpty(fields[1..])
  }

  /** The fields are what joins to the text with the delimiters between them. */
  lemma {:induction false} FieldsExact(s: string, delim: char)
    ensures Fields(s, delim) != [] && Join(Fields(s, delim), delim) == s
  {
    var end := IndexOf(s, delim);
    if end < |s| {
      var rest := s[end + 1..];
      FieldsExact(rest, delim);
      JoinCons(s[..end], Fields(rest, delim), delim);
      assert s == s[..end] + [delim] + rest;
    } else {
      assert Join([s], delim) == s;
    }
  }

  lemma {:induction false} JoinCons(first: string, rest: seq<string>, delim: char)
    requires rest != []
    ensures Join([first] + rest, delim) == first + [delim] + Join(rest, delim)
  {
    assert ([first] + rest)[1..] == rest;
  }

  lemma {:induction false} FieldsLack(s: string, delim: char)
    ensures forall i :: 0 <= i < |Fields(s, delim)| ==> Lacks(Fields(s, delim)[i], delim)
  {
    var end := IndexOf(s, delim);
    if end < |s| {
      FieldsLack(s[end + 1..], delim);
    }
  }

  /** Taking any fields apart that are joined by the delimiter gives those that are not empty. */
  lemma {:induction false} JoinedFields(fields: seq<string>, delim: char)
    requires forall i :: 0 <= i < |fields| ==> Lacks(fields[i], delim)
    ensures Tokens(Join(fields, delim), delim) == NonEmpty(fields)
  {
    if fields != [] {
      var first, rest := fields[0], fields[1..];
      assert Tokens(first, delim) == if first == "" then [] else [first] by {
        if first != "" {
          OneToken(first, delim);
        }
      }
      JoinedFields(rest, delim);
      if rest == [] {
        assert Join(fields, delim) == first;
        assert Tokens(first, delim) + [] == Tokens(first, delim);
      } else {
        TokensAppend(first, Join(rest, delim), delim);
      }
    }
  }

  lemma {:induction false} NonEmptyTokens(tokens: seq<string>, delim: char)
    requires forall i :: 0 <= i < |tokens| ==> IsToken(tokens[i], delim)
    ensures NonEmpty(tokens) == tokens
  {
    if tokens != [] {
      assert IsToken(tokens[0], delim);
      NonEmptyTokens(tokens[1..], delim);
    }
  }

  /** Joining tokens and taking them apart again gives the same tokens. */
  lemma {:induction false} JoinTokens(tokens: seq<string>, delim: char)
    requires forall i :: 0 <= i < |tokens| ==> IsToken(tokens[i], delim)
    ensures Tokens(Join(tokens, delim), delim) == tokens
  {
    forall i | 0 <= i < |tokens| ensures Lacks(tokens[i], delim) {
      assert IsToken(tokens[i], delim);
    }
    JoinedFields(tokens, delim);
    NonEmptyTokens(tokens, delim);
  }

  /** The tokens are the non-empty fields: each reaches from delimiter to delimiter. */
  lemma {:induction false} TokensAreFields(s: string, delim: char)
    ensures Tokens(s, delim) == NonEmpty(Fields(s, delim))
  {
    FieldsExact(s, delim);
    FieldsLack(s, delim);
    JoinedFields(Fields(s, delim), delim);
  }
}
