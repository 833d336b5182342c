/** The text files that the suite reads, one fgets() call at a time. */
module Stdio {
  import opened Text

  /** How many characters fgets() takes from text into a buffer of the given size. */
  function LineLength(text: string, size: nat): (n: nat)
    requires size >= 2
    ensures n <= |text| && n <= size - 1
    ensures text != "" ==> n > 0
    ensures forall i :: 0 <= i < n - 1 ==> text[i] != '\n'
    ensures n < |text| && n < size - 1 ==> n > 0 && text[n - 1] == '\n'
  {
    var eol := IndexOf(text, '\n');
    var line := if eol < |text| then eol + 1 else |text|;
    if line < size then line else size - 1
  }

  /** Everything that repeated fgets() calls return until the end of the file. */
  function Chunks(text: string, size: nat): seq<string>
    requires size >= 2
  {
    if text == "" then []
    else
      var n := LineLength(text, size);
      [text[..n]] + Chunks(text[n..], size)
  }

  /** A FILE opened for reading. */
  class File {
    const text: string
    var pos: nat

    ghost predicate Valid()
      reads this
    {
      pos <= |text|
    }

    constructor (text: string)
      ensures Valid() && this.text == text && pos == 0
    {
      this.text := text;
      pos := 0;
    }

    /** fgets(): the next chunk, or None at the end of the file. */
    method Gets(size: nat) returns (line: Option<string>)
      requires Valid() && size >= 2
      modifies this
      ensures Valid() && pos >= old(pos)
      ensures line == None ==> pos == old(pos) && Chunks(text[pos..], size) == []
      ensures line.Some? ==>
                pos > old(pos) && Chunks(text[old(pos)..], size) == [line.value] + Chunks(text[pos..], size)
    {
      if pos == |text| {
        NoMoreChunks(text, size);
        return None;
      }
      var start, end := pos, pos + LineLength(text[pos..], size);
      NextChunk(text, start, end, size);
      line := Some(text[start..end]);
      pos := end;
    }
  }

  lemma {:induction false} NoMoreChunks(text: string, size: nat)
    requires size >= 2
    ensures Chunks(text[|text|..], size) == []
  {
  }

  lemma {:induction false} NextChunk(text: string, start: nat, end: nat, size: nat)
    requires size >= 2 && start < |text| && end == start + LineLength(text[start..], size)
    ensures start < end <= |text|
    ensures Chunks(text[start..], size) == [text[start..end]] + Chunks(text[end..], size)
  {
    var rest, n := text[start..], end - start;
    assert rest[..n] == text[start..end] && rest[n..] == text[end..];
  }

  /** A line that one fgets() call returns whole. */
  predicate OneRead(line: string, size: nat) {
    && line != ""
    && line[|line| - 1] == '\n'
    && (forall i :: 0 <= i < |line| - 1 ==> line[i] != '\n')
    && |line| < size
  }

  predicate EndsLine(line: string) {
    line != "" && line[|line| - 1] == '\n'
  }

  lemma {:induction false} FirstChunk(text: string, n: nat, line: string, rest: string, size: nat)
    requires size >= 2 && text != "" && n == LineLength(text, size) && line == text[..n] && rest == text[n..]
    ensures Chunks(text, size) == [line] + Chunks(rest, size)
  {
  }

  /** Reading never runs across a newline, so it works on the two sides of one separately. */
  lemma {:induction false} ChunksAppend(a: string, b: string, size: nat)
    requires size >= 2
    requires a == "" || EndsLine(a)
    ensures Chunks(a + b, size) == Chunks(a, size) + Chunks(b, size)
    decreases |a|
  {
    if a == "" {
      assert a + b == b;
    } else {
      var n, line, rest := SameFirstRead(a, b, size);
      ChunksAppend(rest, b, size);
      FirstChunk(a, n, line, rest, size);
      FirstChunk(a + b, n, line, rest + b, size);
      Regroup([line], Chunks(rest, size), Chunks(b, size));
    }
  }

  /** The first read of a text with whole lines is the same when more follows. */
  lemma {:induction false} SameFirstRead(a: string, b: string, size: nat) returns (n: nat, line: string, rest: string)
    requires size >= 2 && EndsLine(a)
    ensures 0 < n <= |a| && n == LineLength(a, size) == LineLength(a + b, size)
    ensures line == a[..n] == (a + b)[..n]
    ensures rest == a[n..] && rest + b == (a + b)[n..]
    ensures rest == "" || EndsLine(rest)
  {
    FirstRead(a, b, size);
    n := LineLength(a, size);
    line, rest := a[..n], a[n..];
  }

  lemma FirstRead(a: string, b: string, size: nat)
    requires size >= 2 && EndsLine(a)
    ensures LineLength(a + b, size) == LineLength(a, size)
  {
    var i := IndexOf(a, '\n');
    assert i < |a|;
    IndexOfIs(a + b, '\n', i);
  }

  /** A newline-terminated text is read in one call exactly when it is a single short line. */
  lemma SingleRead(line: string, size: nat)
    requires size >= 2 && EndsLine(line)
    ensures |Chunks(line, size)| >= 1
    ensures |Chunks(line, size)| == 1 <==> OneRead(line, size)
    ensures OneRead(line, size) ==> Chunks(line, size) == [line]
  {
    var n := LineLength(line, size);
    if OneRead(line, size) {
      IndexOfIs(line, '\n', |line| - 1);
      assert n == |line|;
      assert line[..n] == line && line[n..] == "";
    } else if n < |line| {
      assert |Chunks(line[n..], size)| >= 1;
    }
  }

  /**
   * A text written line by line needs at least one read a line, and exactly one read a
   * line if and only if every line comes back whole.
   */
  lemma {:induction false} ReadsPerLine(lines: seq<string>, size: nat)
    requires size >= 2
    requires forall i :: 0 <= i < |lines| ==> EndsLine(lines[i])
    ensures |Chunks(Concat(lines), size)| >= |lines|
    ensures |Chunks(Concat(lines), size)| == |lines|
       <==> (forall i :: 0 <= i < |lines| ==> OneRead(lines[i], size))
    ensures |Chunks(Concat(lines), size)| == |lines| ==> Chunks(Concat(lines), size) == lines
  {
    if lines == [] {
    } else {
      var l, rest := lines[0], lines[1..];
      assert lines == [l] + rest;
      ChunksAppend(l, Concat(rest), size);
      SingleRead(l, size);
      ReadsPerLine(rest, size);
    }
  }

  /** A chunk of fgets(): not empty, below the size, and with no newline but at its end. */
  predicate IsChunk(chunk: string, size: nat) {
    0 < |chunk| < size && Lacks(chunk[..|chunk| - 1], '\n')
  }

  /** Chunks of which each but the last ends a line or fills the buffer. */
  predicate AreChunks(chunks: seq<string>, size: nat) {
    && (forall i :: 0 <= i < |chunks| ==> IsChunk(chunks[i], size))
    && (forall i :: 0 <= i < |chunks| - 1 ==> EndsLine(chunks[i]) || |chunks[i]| == size - 1)
  }

  lemma {:induction false} AreChunksCons(chunk: string, rest: seq<string>, size: nat)
    requires IsChunk(chunk, size) && AreChunks(rest, size)
    requires rest != [] ==> EndsLine(chunk) || |chunk| == size - 1
    ensures AreChunks([chunk] + rest, size)
    ensures Concat([chunk] + rest) == chunk + Concat(rest)
  {
    var chunks := [chunk] + rest;
    assert chunks[1..] == rest;
    assert forall i :: 1 <= i < |chunks| ==> chunks[i] == rest[i - 1];
  }

  lemma {:induction false} FirstIsChunk(text: string, size: nat) returns (chunk: string, rest: string)
    requires size >= 2 && text != ""
    ensures text == chunk + rest && |rest| < |text|
    ensures Chunks(text, size) == [chunk] + Chunks(rest, size)
    ensures IsChunk(chunk, size) && (Chunks(rest, size) != [] ==> EndsLine(chunk) || |chunk| == size - 1)
  {
    var n := LineLength(text, size);
    chunk, rest := text[..n], text[n..];
    FirstChunk(text, n, chunk, rest, size);
  }

  /**
   * The reads together are the text, and a read stops at a newline, at the size, or at the
   * end of the text, and nowhere else.
   */
  lemma {:induction false} ChunksExact(text: string, size: nat)
    requires size >= 2
    ensures Concat(Chunks(text, size)) == text && AreChunks(Chunks(text, size), size)
    decreases |text|
  {
    if text != "" {
      var chunk, rest := FirstIsChunk(text, size);
      ChunksExact(rest, size);
      AreChunksCons(chunk, Chunks(rest, size), size);
    }
  }
}
