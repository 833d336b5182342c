/**
 * Expanding an inventory template one read at a time
 * (block-ts/lib/tsapi-inventory.c, tsapi_inventory_expand_template).
 */
module Template {
  import opened Text
  import opened Stdio
  import opened Expand

  /** Size of the buffer that a template line is read into. */
  const INPUT_STR_BUF_SIZE: nat := 256

  /** The reads expanded in order; a read may follow only one whose expansion ended a line. */
  function ExpandChunks(chunks: seq<string>, newlineNotFound: bool, vars: string -> string): Result<string>
    decreases |chunks|
  {
    if chunks == [] then Ok("")
    else if newlineNotFound then Err(EFAIL)
    else
      var first :- ExpandVars(chunks[0], vars);
      var rest :- ExpandChunks(chunks[1..], !EndsLine(first), vars);
      Ok(first + rest)
  }

  /** Expands a template file; the inventory is meaningful when the status is OK. */
  method ExpandTemplate(source: File, vars: string -> string) returns (rc: Errno, inventory: string)
    requires source.Valid() && source.pos == 0
    modifies source
    ensures match ExpandChunks(Chunks(source.text, INPUT_STR_BUF_SIZE), false, vars)
            case Ok(all) => rc == OK && inventory == all
            case Err(e) => rc == e
  {
    rc, inventory := OK, "";
    var newlineNotFound := false;
    ghost var total := ExpandChunks(Chunks(source.text, INPUT_STR_BUF_SIZE), false, vars);
    assert source.text[0..] == source.text;
    Prepend("", total);
    while true
      invariant source.Valid() && rc == OK
      invariant total == Before(inventory, ExpandChunks(Chunks(source.text[source.pos..], INPUT_STR_BUF_SIZE),
                                                        newlineNotFound, vars))
      decreases |source.text| - source.pos
    {
      ghost var chunks := Chunks(source.text[source.pos..], INPUT_STR_BUF_SIZE);
      var line := source.Gets(INPUT_STR_BUF_SIZE);
      if line == None {
        assert inventory + "" == inventory;
        break;
      }
      assert chunks[0] == line.value && chunks[1..] == Chunks(source.text[source.pos..], INPUT_STR_BUF_SIZE);
      if newlineNotFound {
        return EFAIL, inventory;
      }
      var target := ExpandVars(line.value, vars);
      if target.Err? {
        return target.error, inventory;
      }
      newlineNotFound := !EndsLine(target.value);
      BeforeBoth(inventory, target.value, ExpandChunks(chunks[1..], newlineNotFound, vars));
      inventory := inventory + target.value;
    }
  }

  function Before(text: string, rest: Result<string>): Result<string> {
    match rest
    case Err(e) => Err(e)
    case Ok(more) => Ok(text + more)
  }

  lemma {:induction false} Prepend(text: string, rest: Result<string>)
    ensures Before("", rest) == rest
  {
    assert rest.Ok? ==> "" + rest.value == rest.value;
  }

  lemma {:induction false} BeforeBoth(a: string, b: string, rest: Result<string>)
    ensures Before(a + b, rest) == Before(a, Before(b, rest))
  {
    assert rest.Ok? ==> (a + b) + rest.value == a + (b + rest.value);
  }

  // ---- Lines, whatever their length ----

  function FirstLineLength(text: string): (n: nat)
    ensures n <= |text| && (text != "" ==> n > 0)
  {
    var eol := IndexOf(text, '\n');
    if eol < |text| then eol + 1 else |text|
  }

  /** The lines of a text, each with its newline. */
  function Lines(text: string): seq<string> {
    if text == "" then []
    else [text[..FirstLineLength(text)]] + Lines(text[FirstLineLength(text)..])
  }

  /** Lines are what reading into a buffer without a limit gives. */
  lemma {:induction false} LinesAreChunks(text: string, size: nat)
    requires size >= 2 && |text| < size
    ensures Lines(text) == Chunks(text, size)
  {
    if text != "" {
      var m := FirstLineLength(text);
      assert LineLength(text, size) == m;
      LinesAreChunks(text[m..], size);
    }
  }

  /** The lines together are the text; each ends at its only newline, or at the end of the text. */
  lemma {:induction false} LinesExact(text: string)
    ensures Concat(Lines(text)) == text
    ensures AreChunks(Lines(text), |text| + 2)
  {
    LinesAreChunks(text, |text| + 2);
    ChunksExact(text, |text| + 2);
  }

  /** Every line expanded by itself, in order. */
  function ExpandLines(lines: seq<string>, vars: string -> string): Result<string> {
    if lines == [] then Ok("")
    else
      var first :- ExpandVars(lines[0], vars);
      var rest :- ExpandLines(lines[1..], vars);
      Ok(first + rest)
  }

  predicate AllFit(lines: seq<string>) {
    forall i :: 0 <= i < |lines| ==> |lines[i]| < INPUT_STR_BUF_SIZE
  }

  /** Parameter values without newlines. */
  ghost predicate OneLineValues(vars: string -> string) {
    forall name: string :: Lacks(vars(name), '\n')
  }

  lemma {:induction false} ReferenceStep(s: string, end: nat, vars: string -> string)
    requires IsReference(s) && end == ReferenceEnd(s) && ExpandVars(s, vars).Ok?
    ensures end < |s| && ExpandVars(s, vars) == Before(vars(s[2..end]), ExpandVars(s[end + 1..], vars))
  {
    assert s != "";
  }

  lemma {:induction false} PlainStep(s: string, vars: string -> string)
    requires s != "" && !IsReference(s)
    ensures ExpandVars(s, vars) == Before([s[0]], ExpandVars(s[1..], vars))
  {
  }

  lemma {:induction false} LastOfConcat(a: string, b: string)
    requires EndsLine(b)
    ensures EndsLine(a + b)
  {
  }

  /** The expansion of a whole line is a whole line. */
  lemma {:induction false} ExpandedLineEnds(s: string, vars: string -> string)
    requires EndsLine(s) && ExpandVars(s, vars).Ok?
    ensures EndsLine(ExpandVars(s, vars).value)
    decreases |s|
  {
    if IsReference(s) {
      var end := ReferenceEnd(s);
      var rest := s[end + 1..];
      ReferenceStep(s, end, vars);
      assert rest != "" && rest[|rest| - 1] == s[|s| - 1];
      ExpandedLineEnds(rest, vars);
      LastOfConcat(vars(s[2..end]), ExpandVars(rest, vars).value);
    } else {
      var rest := s[1..];
      PlainStep(s, vars);
      if rest == "" {
        assert [s[0]] + "" == s;
      } else {
        assert rest[|rest| - 1] == s[|s| - 1];
        ExpandedLineEnds(rest, vars);
        LastOfConcat([s[0]], ExpandVars(rest, vars).value);
      }
    }
  }

  /** Expansion brings no newline into a text without one. */
  lemma {:induction false} ExpandedNoNewline(s: string, vars: string -> string)
    requires Lacks(s, '\n') && OneLineValues(vars) && ExpandVars(s, vars).Ok?
    ensures Lacks(ExpandVars(s, vars).value, '\n')
    decreases |s|
  {
    if s == "" {
    } else if IsReference(s) {
      var end := ReferenceEnd(s);
      ExpandedNoNewline(s[end + 1..], vars);
      assert Lacks(vars(s[2..end]), '\n');
    } else {
      ExpandedNoNewline(s[1..], vars);
    }
  }

  /**
   * Expanding read by read succeeds exactly when every line fits into one read and every
   * line expands, and the result is then the expansions of the lines in order.
   */
  lemma {:induction false} ExpandTemplateIff(text: string, vars: string -> string, out: string)
    requires OneLineValues(vars)
    ensures ExpandChunks(Chunks(text, INPUT_STR_BUF_SIZE), false, vars) == Ok(out)
       <==> AllFit(Lines(text)) && ExpandLines(Lines(text), vars) == Ok(out)
    decreases |text|
  {
    if text != "" {
      var m := FirstLineLength(text);
      var line, rest := text[..m], text[m..];
      var lines := Lines(text);
      assert lines[0] == line && lines[1..] == Lines(rest);
      if m < INPUT_STR_BUF_SIZE {
        assert LineLength(text, INPUT_STR_BUF_SIZE) == m;
        FitsCons(lines);
        var chunks := Chunks(text, INPUT_STR_BUF_SIZE);
        assert chunks[0] == line && chunks[1..] == Chunks(rest, INPUT_STR_BUF_SIZE);
        FirstLineExpands(text, vars);
        if ExpandLines(Lines(rest), vars).Ok? {
          ExpandTemplateIff(rest, vars, ExpandLines(Lines(rest), vars).value);
        }
        if ExpandChunks(Chunks(rest, INPUT_STR_BUF_SIZE), false, vars).Ok? {
          ExpandTemplateIff(rest, vars, ExpandChunks(Chunks(rest, INPUT_STR_BUF_SIZE), false, vars).value);
        }
      } else {
        LongLineFails(text, vars);
        assert |lines[0]| >= INPUT_STR_BUF_SIZE;
      }
    }
  }

  lemma {:induction false} FitsCons(lines: seq<string>)
    requires lines != []
    ensures AllFit(lines) <==> |lines[0]| < INPUT_STR_BUF_SIZE && AllFit(lines[1..])
  {
    assert forall i :: 1 <= i < |lines| ==> lines[i] == lines[1..][i - 1];
  }

  /** A line that fits is followed by another read, or it is the last one. */
  lemma {:induction false} FirstLineExpands(text: string, vars: string -> string)
    requires text != ""
    ensures var m := FirstLineLength(text); var first := ExpandVars(text[..m], vars);
            first.Ok? ==> EndsLine(first.value) || text[m..] == ""
  {
    var m := FirstLineLength(text);
    if m < |text| || text[|text| - 1] == '\n' {
      assert EndsLine(text[..m]);
      if ExpandVars(text[..m], vars).Ok? {
        ExpandedLineEnds(text[..m], vars);
      }
    }
  }

  /** A line that does not fit leaves a second read to a buffer without a newline. */
  lemma {:induction false} LongLineFails(text: string, vars: string -> string)
    requires OneLineValues(vars) && FirstLineLength(text) >= INPUT_STR_BUF_SIZE
    ensures ExpandChunks(Chunks(text, INPUT_STR_BUF_SIZE), false, vars).Err?
  {
    var n := INPUT_STR_BUF_SIZE - 1;
    assert LineLength(text, INPUT_STR_BUF_SIZE) == n;
    var chunk, rest := text[..n], text[n..];
    var chunks := Chunks(text, INPUT_STR_BUF_SIZE);
    assert chunks[0] == chunk && chunks[1..] == Chunks(rest, INPUT_STR_BUF_SIZE);
    assert Lacks(chunk, '\n');
    if ExpandVars(chunk, vars).Ok? {
      ExpandedNoNewline(chunk, vars);
      assert !EndsLine(ExpandVars(chunk, vars).value);
    }
  }

  lemma {:induction false} ExpandPlainText(s: string, vars: string -> string)
    requires Lacks(s, '$')
    ensures ExpandVars(s, vars) == Ok(s)
  {
    if s != "" {
      ExpandPlainText(s[1..], vars);
      assert [s[0]] + s[1..] == s;
    }
  }

  /** A last line without a newline that is longer than a read is refused like any other. */
  lemma {:induction false} LongLastLine(text: string, vars: string -> string)
    requires Lacks(text, '\n') && Lacks(text, '$') && |text| >= 256
    ensures Lines(text) == [text]
    ensures ExpandChunks(Chunks(text, INPUT_STR_BUF_SIZE), false, vars) == Err(EFAIL)
  {
    var n := INPUT_STR_BUF_SIZE - 1;
    assert IndexOf(text, '\n') == |text|;
    assert text[|text|..] == "" && text[..|text|] == text;
    assert LineLength(text, INPUT_STR_BUF_SIZE) == n;
    var chunk, rest := text[..n], text[n..];
    var chunks := Chunks(text, INPUT_STR_BUF_SIZE);
    assert chunks[0] == chunk && chunks[1..] == Chunks(rest, INPUT_STR_BUF_SIZE) != [];
    ExpandPlainText(chunk, vars);
    assert !EndsLine(chunk);
  }

  // ---- The whole template at once ----

  lemma {:induction false} LongerReference(a: string, b: string, end: nat, vars: string -> string)
    requires IsReference(a) && end == ReferenceEnd(a) < |a|
    ensures ExpandVars(a, vars) == Before(vars(a[2..end]), ExpandVars(a[end + 1..], vars))
    ensures ExpandVars(a + b, vars) == Before(vars(a[2..end]), ExpandVars(a[end + 1..] + b, vars))
  {
    ReferenceEndIs(a + b, end);
    assert (a + b)[2..end] == a[2..end] && (a + b)[end + 1..] == a[end + 1..] + b;
  }

  lemma {:induction false} LongerPlain(a: string, b: string, vars: string -> string)
    requires EndsLine(a) && !IsReference(a)
    ensures ExpandVars(a, vars) == Before([a[0]], ExpandVars(a[1..], vars))
    ensures ExpandVars(a + b, vars) == Before([a[0]], ExpandVars(a[1..] + b, vars))
  {
    assert !IsReference(a + b);
    assert (a + b)[1..] == a[1..] + b;
  }

  /** Expansion works on the two sides of a newline separately. */
  lemma {:induction false} ExpandAppend(a: string, b: string, vars: string -> string)
    requires a == "" || EndsLine(a)
    requires ExpandVars(a, vars).Ok?
    ensures ExpandVars(a + b, vars) == Before(ExpandVars(a, vars).value, ExpandVars(b, vars))
    decreases |a|
  {
    if a == "" {
      assert a + b == b;
      Prepend("", ExpandVars(b, vars));
    } else if IsReference(a) {
      var end := ReferenceEnd(a);
      var rest := a[end + 1..];
      LongerReference(a, b, end, vars);
      ExpandAppend(rest, b, vars);
      BeforeBoth(vars(a[2..end]), ExpandVars(rest, vars).value, ExpandVars(b, vars));
    } else {
      LongerPlain(a, b, vars);
      ExpandAppend(a[1..], b, vars);
      BeforeBoth([a[0]], ExpandVars(a[1..], vars).value, ExpandVars(b, vars));
    }
  }

  lemma {:induction false} FirstLine(text: string) returns (line: string, rest: string)
    requires text != ""
    ensures text == line + rest && |rest| < |text| && (rest != "" ==> EndsLine(line))
    ensures Lines(text) == [line] + Lines(rest)
  {
    var m := FirstLineLength(text);
    line, rest := text[..m], text[m..];
  }

  /** When every line expands, so does the whole template, to the same text. */
  lemma {:induction false} LinesAreWhole(text: string, vars: string -> string)
    requires ExpandLines(Lines(text), vars).Ok?
    ensures ExpandVars(text, vars) == ExpandLines(Lines(text), vars)
    decreases |text|
  {
    if text != "" {
      var line, rest := FirstLine(text);
      assert Lines(text)[0] == line && Lines(text)[1..] == Lines(rest);
      LinesAreWhole(rest, vars);
      if rest == "" {
        assert text == line;
        var first := ExpandVars(line, vars).value;
        assert first + "" == first;
      } else {
        ExpandAppend(line, rest, vars);
      }
    }
  }

  /** Whatever the reads yield is the expansion of the whole template. */
  lemma {:induction false} ExpandTemplateIsWhole(text: string, vars: string -> string)
    requires OneLineValues(vars)
    requires ExpandChunks(Chunks(text, INPUT_STR_BUF_SIZE), false, vars).Ok?
    ensures ExpandVars(text, vars) == ExpandChunks(Chunks(text, INPUT_STR_BUF_SIZE), false, vars)
  {
    ExpandTemplateIff(text, vars, ExpandChunks(Chunks(text, INPUT_STR_BUF_SIZE), false, vars).value);
    LinesAreWhole(text, vars);
  }
}
