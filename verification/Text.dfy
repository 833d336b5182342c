/** Status codes and the C string helpers that the suite relies on. */
module Text {

  /** The status codes that the modelled functions return. */
  datatype Errno = OK | EFAIL | EINVAL | ERANGE | EEXIST | ESRCH

  datatype Option<+T> = None | Some(value: T)

  datatype Result<+T> = Ok(value: T) | Err(error: Errno) {
    predicate IsFailure() {
      Err?
    }

    function PropagateFailure<U>(): Result<U>
      requires Err?
    {
      Err(error)
    }

    function Extract(): T
      requires Ok?
    {
      value
    }
  }

  lemma {:induction false} Regroup<T>(a: seq<T>, b: seq<T>, c: seq<T>)
    ensures a + b + c == a + (b + c)
  {
  }

  function Concat(parts: seq<string>): string {
    if parts == [] then "" else parts[0] + Concat(parts[1..])
  }

  predicate Lacks(s: string, c: char) {
    forall i :: 0 <= i < |s| ==> s[i] != c
  }

  /** isspace() in the C locale: blank, \t, \n, \v, \f, \r. */
  predicate IsSpace(c: char) {
    c == ' ' || '\t' <= c <= '\r'
  }

  /** strstr() for a one-character needle: its first position, or |s| when it is absent. */
  function IndexOf(s: string, c: char): (r: nat)
    ensures r <= |s|
    ensures forall i :: 0 <= i < r ==> s[i] != c
    ensures r < |s| ==> s[r] == c
  {
    if s == "" then 0
    else if s[0] == c then 0
    else 1 + IndexOf(s[1..], c)
  }

  /** The first position of a character is determined by what IndexOf promises. */
  lemma {:induction false} IndexOfIs(s: string, c: char, i: nat)
    requires i < |s| && s[i] == c
    requires forall k :: 0 <= k < i ==> s[k] != c
    ensures IndexOf(s, c) == i
  {
  }

  /** The text after its leading white space. */
  function SkipSpaces(s: string): (r: string)
    ensures r != "" ==> !IsSpace(r[0])
  {
    if s != "" && IsSpace(s[0]) then SkipSpaces(s[1..]) else s
  }

  /** The text before its trailing white space. */
  function DropTrailing(s: string): (r: string)
    ensures r <= s
    ensures r != "" ==> !IsSpace(r[|r| - 1])
  {
    if s != "" && IsSpace(s[|s| - 1]) then DropTrailing(s[..|s| - 1]) else s
  }

  /** te_str_strip_spaces(): white space trimmed at both ends. */
  function Strip(s: string): string {
    DropTrailing(SkipSpaces(s))
  }

  lemma {:induction false} StripEnds(s: string)
    ensures Strip(s) != "" ==> !IsSpace(Strip(s)[0]) && !IsSpace(Strip(s)[|Strip(s)| - 1])
  {
  }

  predicate AllSpaces(s: string) {
    forall i :: 0 <= i < |s| ==> IsSpace(s[i])
  }

  /** The characters of white space, one by one. */
  lemma {:induction false} SpaceIs(c: char)
    ensures IsSpace(c) <==> c in [' ', '\t', '\n', '\U{0B}', '\U{0C}', '\r']
  {
  }

  /** The white space in front of a text. */
  lemma {:induction false} SkippedSpaces(s: string) returns (blanks: string)
    ensures AllSpaces(blanks) && s == blanks + SkipSpaces(s)
  {
    if s != "" && IsSpace(s[0]) {
      blanks := SkippedSpaces(s[1..]);
      blanks := [s[0]] + blanks;
      assert s == [s[0]] + s[1..];
    } else {
      blanks := "";
    }
  }

  lemma {:induction false} DroppedSpaces(s: string) returns (blanks: string)
    ensures AllSpaces(blanks) && s == DropTrailing(s) + blanks
  {
    if s != "" && IsSpace(s[|s| - 1]) {
      blanks := DroppedSpaces(s[..|s| - 1]);
      blanks := blanks + [s[|s| - 1]];
      assert s == s[..|s| - 1] + [s[|s| - 1]];
    } else {
      blanks := "";
    }
  }

  /** Trimming takes white space off the two ends and nothing else. */
  lemma {:induction false} StripExact(s: string) returns (before: string, behind: string)
    ensures AllSpaces(before) && AllSpaces(behind) && s == before + Strip(s) + behind
    ensures Strip(s) != "" ==> !IsSpace(Strip(s)[0]) && !IsSpace(Strip(s)[|Strip(s)| - 1])
  {
    before := SkippedSpaces(s);
    behind := DroppedSpaces(SkipSpaces(s));
    Regroup(before, Strip(s), behind);
  }

  /** Leading white space never matters to what follows it. */
  lemma {:induction false} SkipLeading(blanks: string, s: string)
    requires AllSpaces(blanks)
    ensures SkipSpaces(blanks + s) == SkipSpaces(s)
  {
    if blanks == "" {
      assert blanks + s == s;
    } else {
      assert (blanks + s)[1..] == blanks[1..] + s;
      SkipLeading(blanks[1..], s);
    }
  }

  /** A line that starts and ends with visible characters loses only its newline. */
  lemma StripLine(s: string)
    requires s != "" && !IsSpace(s[0]) && !IsSpace(s[|s| - 1])
    ensures Strip(s + "\n") == s
  {
    assert (s + "\n")[..|s|] == s;
    assert DropTrailing(s + "\n") == DropTrailing(s);
  }
}
