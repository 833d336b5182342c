/**
 * The configuration handler (block-ts/lib/tsapi-conf.c): named sections of key-value
 * items, written as text and read back from it.
 */
module Conf {
  import opened Text
  import opened Stdio

  /** Size of the buffer that a configuration line is read into. */
  const PATH_MAX: nat := 4096

  datatype Item = Item(key: string, value: string)

  datatype Section = Section(name: string, delimiter: string, items: seq<Item>)

  /** Position of the first section with this name, or |sections|. */
  function Find(sections: seq<Section>, name: string): (r: nat)
    ensures r <= |sections|
    ensures forall i :: 0 <= i < r ==> sections[i].name != name
    ensures r < |sections| ==> sections[r].name == name
  {
    if sections == [] then 0
    else if sections[0].name == name then 0
    else 1 + Find(sections[1..], name)
  }

  /** The sections after an item is appended to the first one with the given name. */
  function AppendItem(sections: seq<Section>, name: string, item: Item): Result<seq<Section>> {
    var i := Find(sections, name);
    if i == |sections| then Err(EFAIL)
    else Ok(sections[i := sections[i].(items := sections[i].items + [item])])
  }

  function EntryText(delimiter: string, item: Item): string {
    item.key + " " + delimiter + " " + item.value + "\n"
  }

  function HeaderText(name: string): string {
    "[" + name + "]\n"
  }

  function PrintItems(delimiter: string, items: seq<Item>): string {
    if items == [] then "" else EntryText(delimiter, items[0]) + PrintItems(delimiter, items[1..])
  }

  /** The text of a configuration. */
  function Print(sections: seq<Section>): string {
    if sections == [] then ""
    else HeaderText(sections[0].name)
         + PrintItems(sections[0].delimiter, sections[0].items)
         + Print(sections[1..])
  }

  lemma {:induction false} PrintFirst(before: string, sections: seq<Section>)
    requires sections != []
    ensures var s := sections[0];
            before + Print(sections)
            == (before + HeaderText(s.name)) + PrintItems(s.delimiter, s.items) + Print(sections[1..])
  {
    var s := sections[0];
    var header, items, rest := HeaderText(s.name), PrintItems(s.delimiter, s.items), Print(sections[1..]);
    Regroup(before + header, items, rest);
    Regroup(before, header, items + rest);
    Regroup(header, items, rest);
  }

  /** What precedes the first delim. */
  function ExtractSectionName(str: string, delim: char): Result<string> {
    var i := IndexOf(str, delim);
    if i == |str| then Err(EFAIL) else Ok(str[..i])
  }

  /** What precedes and what follows the first delim. */
  function ExtractKeyValue(str: string, delim: char): Result<Item> {
    var i := IndexOf(str, delim);
    if i == |str| then Err(EFAIL) else Ok(Item(str[..i], str[i + 1..]))
  }

  lemma {:induction false} KeyValueOf(str: string, delim: char, key: string, rest: string)
    requires str == key + [delim] + rest && delim !in key
    ensures ExtractKeyValue(str, delim) == Ok(Item(key, rest))
  {
    assert str[..|key|] == key && str[|key|] == delim && str[|key| + 1..] == rest;
    IndexOfIs(str, delim, |key|);
  }

  lemma {:induction false} KeyValueParts(str: string, delim: char, item: Item)
    requires ExtractKeyValue(str, delim) == Ok(item)
    ensures str == item.key + [delim] + item.value && delim !in item.key
  {
  }

  /** "Section-Key=Value" taken apart, from an empty section name buffer. */
  function ParseString(str: string): Result<(string, Item)> {
    var name :- ExtractSectionName(str, '-');
    var item :- ExtractKeyValue(str[|name| + 1..], '=');
    Ok((name, item))
  }

  /** Where a read has got to: the sections so far, the current name and the status. */
  datatype ReadState = ReadState(sections: seq<Section>, name: Option<string>, rc: Errno)

  /** A section line was read: its name, or an error. */
  function ReadHeader(st: ReadState, extracted: Result<string>): ReadState {
    match extracted
    case Err(e) => st.(rc := e)
    case Ok(name) => st.(sections := st.sections + [Section(name, " ", [])], name := Some(name))
  }

  /** An item line was read: the item, or an error. */
  function ReadItem(st: ReadState, kv: Result<Item>): ReadState {
    match kv
    case Err(e) => st.(rc := e)
    case Ok(item) =>
      if st.name == None then st.(rc := EFAIL)
      else match AppendItem(st.sections, st.name.value, item)
           case Err(e) => st.(rc := e)
           case Ok(sections) => st.(sections := sections)
  }

  /** The effect of one chunk of the file. */
  function ReadChunk(st: ReadState, chunk: string): ReadState {
    if chunk != "" && chunk[0] == '[' then ReadHeader(st, ExtractSectionName(chunk[1..], ']'))
    else ReadItem(st, ExtractKeyValue(Strip(chunk), ' '))
  }

  function ReadChunks(st: ReadState, chunks: seq<string>): ReadState
    decreases |chunks|
  {
    if st.rc != OK || chunks == [] then st
    else ReadChunks(ReadChunk(st, chunks[0]), chunks[1..])
  }

  /** What reading a whole text into an empty configuration leads to. */
  function ReadText(text: string): ReadState {
    ReadChunks(ReadState([], None, OK), Chunks(text, PATH_MAX))
  }

  /** The strings that follow a prefix and one more character, in argument order. */
  function OptsWith(argv: seq<string>, prefix: string): seq<string> {
    if argv == [] then []
    else if prefix <= argv[0] then [AfterPrefix(argv[0], prefix)] + OptsWith(argv[1..], prefix)
    else OptsWith(argv[1..], prefix)
  }

  function AfterPrefix(arg: string, prefix: string): string
    requires prefix <= arg
  {
    if |arg| == |prefix| then "" else arg[|prefix| + 1..]
  }

  /** The configuration handler. */
  class Config {
    var sections: seq<Section>

    constructor ()
      ensures sections == []
    {
      sections := [];
    }

    method SectionGet(name: string) returns (section: Option<nat>)
      ensures section == if Find(sections, name) < |sections| then Some(Find(sections, name)) else None
    {
      var i := 0;
      while i < |sections|
        invariant 0 <= i <= |sections|
        invariant Find(sections, name) == i + Find(sections[i..], name)
      {
        if sections[i].name == name {
          return Some(i);
        }
        i := i + 1;
      }
      return None;
    }

    method CreateSection(name: string, delimiter: string)
      modifies this
      ensures sections == old(sections) + [Section(name, delimiter, [])]
    {
      sections := sections + [Section(name, delimiter, [])];
    }

    method Append(name: string, key: string, value: string) returns (rc: Errno)
      modifies this
      ensures match AppendItem(old(sections), name, Item(key, value))
              case Ok(after) => rc == OK && sections == after
              case Err(e) => rc == e && sections == old(sections)
    {
      var section := SectionGet(name);
      if section == None {
        return EFAIL;
      }
      var s := sections[section.value];
      sections := sections[section.value := s.(items := s.items + [Item(key, value)])];
      rc := OK;
    }

    method FlushToStr() returns (str: string)
      ensures str == Print(sections)
    {
      str := "";
      var i := 0;
      while i < |sections|
        invariant 0 <= i <= |sections|
        invariant Print(sections) == str + Print(sections[i..])
      {
        ghost var before := str;
        PrintFirst(before, sections[i..]);
        str := str + HeaderText(sections[i].name);
        str := AppendItems(str, sections[i]);
        assert sections[i..][1..] == sections[i + 1..];
        i := i + 1;
      }
    }

    /** The inner loop of FlushToStr: the lines of one section. */
    static method AppendItems(str: string, section: Section) returns (out: string)
      ensures out == str + PrintItems(section.delimiter, section.items)
    {
      out := str;
      var j := 0;
      while j < |section.items|
        invariant 0 <= j <= |section.items|
        invariant str + PrintItems(section.delimiter, section.items)
               == out + PrintItems(section.delimiter, section.items[j..])
      {
        ghost var before := out;
        var line := EntryText(section.delimiter, section.items[j]);
        assert section.items[j..][1..] == section.items[j + 1..];
        Regroup(out, line, PrintItems(section.delimiter, section.items[j + 1..]));
        out := out + line;
        j := j + 1;
      }
    }

    /** Reads the sections of a file into this configuration. */
    method ReadFromFile(f: File) returns (rc: Errno)
      requires f.Valid()
      modifies this, f
      ensures var end := ReadChunks(ReadState(old(sections), None, OK),
                                    Chunks(f.text[old(f.pos)..], PATH_MAX));
              rc == end.rc && sections == end.sections
    {
      rc := OK;
      var name := None;
      ghost var end := ReadChunks(ReadState(sections, None, OK), Chunks(f.text[f.pos..], PATH_MAX));
      while rc == OK
        invariant f.Valid()
        invariant end == ReadChunks(ReadState(sections, name, rc), Chunks(f.text[f.pos..], PATH_MAX))
        decreases |f.text| - f.pos
      {
        ghost var chunks := Chunks(f.text[f.pos..], PATH_MAX);
        var buf := f.Gets(PATH_MAX);
        if buf == None {
          break;
        }
        assert chunks[0] == buf.value && chunks[1..] == Chunks(f.text[f.pos..], PATH_MAX);
        rc, name := ReadLine(buf.value, name);
      }
    }

    /** One turn of the loop of ReadFromFile. */
    method ReadLine(buf: string, name: Option<string>) returns (rc: Errno, name': Option<string>)
      modifies this
      ensures ReadState(sections, name', rc) == ReadChunk(ReadState(old(sections), name, OK), buf)
    {
      rc, name' := OK, name;
      if buf != "" && buf[0] == '[' {
        var extracted := ExtractSectionName(buf[1..], ']');
        if extracted.Err? {
          return extracted.error, name;
        }
        name' := Some(extracted.value);
        CreateSection(extracted.value, " ");
      } else {
        var kv := ExtractKeyValue(Strip(buf), ' ');
        if kv.Err? {
          return kv.error, name;
        }
        if name == None {
          return EFAIL, name;
        }
        rc := Append(name.value, kv.value.key, kv.value.value);
      }
    }
  }

  /** An argument without the prefix is passed over. */
  lemma {:induction false} OtherOpt(arg: string, prefix: string)
    requires !(prefix <= arg)
    ensures OptsWith([arg], prefix) == []
  {
    var argv := [arg];
    assert argv[1..] == [];
  }

  /** From an argument with the prefix, what follows the prefix and one more character is taken. */
  lemma {:induction false} OwnOpt(prefix: string, separator: char, rest: string)
    ensures OptsWith([prefix + [separator] + rest], prefix) == [rest]
  {
    var argv := [prefix + [separator] + rest];
    assert argv[0][..|prefix|] == prefix && argv[0][|prefix| + 1..] == rest;
    assert argv[1..] == [];
  }

  /** Every argument is looked at by itself, in order. */
  lemma {:induction false} OptsAppend(a: seq<string>, b: seq<string>, prefix: string)
    ensures OptsWith(a + b, prefix) == OptsWith(a, prefix) + OptsWith(b, prefix)
  {
    if a == [] {
      assert a + b == b;
    } else {
      assert (a + b)[0] == a[0] && (a + b)[1..] == a[1..] + b;
      OptsAppend(a[1..], b, prefix);
    }
  }

  /** Collects the configuration strings among the arguments. */
  method OptsRead(argv: seq<string>, prefix: string) returns (rc: Errno, vec: seq<string>)
    ensures vec == OptsWith(argv, prefix)
    ensures rc == if vec == [] then EFAIL else OK
  {
    vec := [];
    var i := 0;
    while i < |argv|
      invariant 0 <= i <= |argv|
      invariant vec + OptsWith(argv[i..], prefix) == OptsWith(argv, prefix)
    {
      if prefix <= argv[i] {
        vec := vec + [AfterPrefix(argv[i], prefix)];
      }
      assert argv[i..][1..] == argv[i + 1..];
      i := i + 1;
    }
    rc := if vec == [] then EFAIL else OK;
  }

  /**
   * Taking "Section-Key=Value" apart and joining it are inverse: exactly the strings that
   * are such a join, split at the first '-' and then at the first '=', are accepted.
   */
  lemma {:induction false} ParseStringInverse(str: string, name: string, item: Item)
    ensures ParseString(str) == Ok((name, item))
       <==> str == Joined(name, item) && '-' !in name && '=' !in item.key
  {
    if ParseString(str) == Ok((name, item)) {
      KeyValueParts(str[|name| + 1..], '=', item);
    }
    if str == Joined(name, item) && '-' !in name && '=' !in item.key {
      ParseJoined(name, item);
    }
  }

  function Joined(name: string, item: Item): string {
    name + "-" + (item.key + "=" + item.value)
  }

  lemma {:induction false} ParseJoined(name: string, item: Item)
    requires '-' !in name && '=' !in item.key
    ensures ParseString(Joined(name, item)) == Ok((name, item))
  {
    var str, rest := Joined(name, item), item.key + "=" + item.value;
    assert str[..|name|] == name && str[|name|] == '-' && str[|name| + 1..] == rest;
    IndexOfIs(str, '-', |name|);
    KeyValueOf(rest, '=', item.key, item.value);
  }
}
