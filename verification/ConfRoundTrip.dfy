/**
 * Printing a configuration and reading it back: exactly which configurations survive,
 * and what becomes of them over any number of cycles.
 */
module ConfRoundTrip {
  import opened Text
  import opened Stdio
  import opened Conf

  // ---- What a reader hopes to get back ----

  /** The reader splits at the first blank only, so the delimiter stays with the value. */
  function ReadBackItem(delimiter: string, item: Item): Item {
    Item(item.key, delimiter + " " + item.value)
  }

  function ReadBackItems(delimiter: string, items: seq<Item>): (r: seq<Item>)
    ensures |r| == |items|
    ensures forall i :: 0 <= i < |items| ==> r[i] == ReadBackItem(delimiter, items[i])
  {
    seq(|items|, i requires 0 <= i < |items| => ReadBackItem(delimiter, items[i]))
  }

  function ReadBack(section: Section): Section {
    Section(section.name, " ", ReadBackItems(section.delimiter, section.items))
  }

  function ReadBackAll(sections: seq<Section>): (r: seq<Section>)
    ensures |r| == |sections|
    ensures forall i :: 0 <= i < |sections| ==> r[i] == ReadBack(sections[i])
  {
    seq(|sections|, i requires 0 <= i < |sections| => ReadBack(sections[i]))
  }

  // ---- Which configurations survive ----

  /** The key is one word that does not open a section; the value is visible at its end. */
  predicate EntryReadable(item: Item) {
    && item.key != "" && !IsSpace(item.key[0]) && item.key[0] != '[' && ' ' !in item.key
    && item.value != "" && !IsSpace(item.value[|item.value| - 1])
  }

  predicate IsNew(before: seq<Section>, name: string) {
    forall i :: 0 <= i < |before| ==> before[i].name != name
  }

  predicate AllReadable(items: seq<Item>) {
    forall j :: 0 <= j < |items| ==> EntryReadable(items[j])
  }

  /** Its lines are told apart from others and go to this section. */
  predicate SectionParses(sections: seq<Section>, i: nat)
    requires i < |sections|
  {
    var s := sections[i];
    && ']' !in s.name
    && (s.items != [] ==> IsNew(sections[..i], s.name))
    && AllReadable(s.items)
  }

  /** Each of its lines has one newline and fits into the read buffer. */
  predicate SectionFits(s: Section) {
    && OneRead(HeaderText(s.name), PATH_MAX)
    && forall j :: 0 <= j < |s.items| ==> OneRead(EntryText(s.delimiter, s.items[j]), PATH_MAX)
  }

  predicate Readable(sections: seq<Section>) {
    forall i :: 0 <= i < |sections| ==> SectionParses(sections, i) && SectionFits(sections[i])
  }

  predicate ReadsBackAs(text: string, sections: seq<Section>) {
    var end := ReadText(text);
    end.rc == OK && end.sections == sections
  }

  /** When an item line is read whole, in terms of its parts. */
  lemma {:induction false} EntryOneRead(delimiter: string, item: Item)
    ensures OneRead(EntryText(delimiter, item), PATH_MAX) <==>
              && '\n' !in item.key && '\n' !in delimiter && '\n' !in item.value
              && |item.key| + |delimiter| + |item.value| + 3 < PATH_MAX
  {
    var line := EntryText(delimiter, item);
    var k, d, v := item.key + " ", delimiter + " ", item.value;
    assert line == k + d + v + "\n";
    assert line[..|line| - 1] == k + d + v;
    assert forall c :: c in k + d + v <==> c in k + d || c in v;
    assert forall c :: c in k + d <==> c in k || c in d;
    assert '\n' in k <==> '\n' in item.key;
    assert '\n' in d <==> '\n' in delimiter;
  }

  // ---- The printed lines ----

  datatype Line = Header(name: string) | Entry(delimiter: string, item: Item) {
    function Text(): string {
      match this
      case Header(name) => HeaderText(name)
      case Entry(delimiter, item) => EntryText(delimiter, item)
    }
  }

  function ItemLines(delimiter: string, items: seq<Item>): (r: seq<Line>)
    ensures |r| == |items|
    ensures forall j :: 0 <= j < |items| ==> r[j] == Entry(delimiter, items[j])
  {
    seq(|items|, j requires 0 <= j < |items| => Entry(delimiter, items[j]))
  }

  function Lines(sections: seq<Section>): seq<Line> {
    if sections == [] then []
    else [Header(sections[0].name)] + ItemLines(sections[0].delimiter, sections[0].items) + Lines(sections[1..])
  }

  function Texts(lines: seq<Line>): (r: seq<string>)
    ensures |r| == |lines|
    ensures forall i :: 0 <= i < |lines| ==> r[i] == lines[i].Text()
  {
    seq(|lines|, i requires 0 <= i < |lines| => lines[i].Text())
  }

  lemma {:induction false} ConcatAppend(a: seq<string>, b: seq<string>)
    ensures Concat(a + b) == Concat(a) + Concat(b)
  {
    if a == [] {
      assert a + b == b;
    } else {
      assert (a + b)[1..] == a[1..] + b;
      ConcatAppend(a[1..], b);
    }
  }

  lemma {:induction false} TextsAppend(a: seq<Line>, b: seq<Line>)
    ensures Texts(a + b) == Texts(a) + Texts(b)
  {
  }

  lemma {:induction false} PrintItemsIsLines(delimiter: string, items: seq<Item>)
    ensures PrintItems(delimiter, items) == Concat(Texts(ItemLines(delimiter, items)))
  {
    if items != [] {
      PrintItemsIsLines(delimiter, items[1..]);
      var first := Entry(delimiter, items[0]);
      var rest := ItemLines(delimiter, items[1..]);
      assert Texts(ItemLines(delimiter, items)) == [first.Text()] + Texts(rest);
    }
  }

  lemma {:induction false} PrintIsLines(sections: seq<Section>)
    ensures Print(sections) == Concat(Texts(Lines(sections)))
  {
    if sections != [] {
      var s := sections[0];
      var head, items, rest := [Header(s.name)], ItemLines(s.delimiter, s.items), Lines(sections[1..]);
      PrintItemsIsLines(s.delimiter, s.items);
      PrintIsLines(sections[1..]);
      TextsAppend(head + items, rest);
      TextsAppend(head, items);
      ConcatAppend(Texts(head) + Texts(items), Texts(rest));
      ConcatAppend(Texts(head), Texts(items));
      assert Texts(head) == [HeaderText(s.name)];
      assert Concat(Texts(head)) == HeaderText(s.name);
    }
  }

  // ---- What the lines are meant to do, and when they do it ----

  /** The configuration that a line is meant to lead to. */
  function Intend(sections: seq<Section>, line: Line): seq<Section>
    requires sections == [] ==> line.Header?
  {
    match line
    case Header(name) => sections + [Section(name, " ", [])]
    case Entry(delimiter, item) =>
      var last := |sections| - 1;
      sections[last := sections[last].(items := sections[last].items + [ReadBackItem(delimiter, item)])]
  }

  function IntendAll(sections: seq<Section>, lines: seq<Line>): seq<Section>
    requires sections == [] && lines != [] ==> lines[0].Header?
    decreases |lines|
  {
    if lines == [] then sections else IntendAll(Intend(sections, lines[0]), lines[1..])
  }

  /** The state in which sections were just read. */
  function At(sections: seq<Section>): ReadState {
    ReadState(sections, if sections == [] then None else Some(sections[|sections| - 1].name), OK)
  }

  predicate LineReadable(sections: seq<Section>, line: Line)
    requires sections == [] ==> line.Header?
  {
    match line
    case Header(name) => ']' !in name
    case Entry(delimiter, item) =>
      && Find(sections, sections[|sections| - 1].name) == |sections| - 1
      && EntryReadable(item)
  }

  predicate LinesReadable(sections: seq<Section>, lines: seq<Line>)
    requires sections == [] && lines != [] ==> lines[0].Header?
    decreases |lines|
  {
    lines == []
    || (LineReadable(sections, lines[0]) && LinesReadable(Intend(sections, lines[0]), lines[1..]))
  }

  /** A header line yields its name exactly when no ']' cuts the name short. */
  lemma {:induction false} HeaderRead(name: string)
    ensures HeaderText(name)[0] == '['
    ensures ExtractSectionName(HeaderText(name)[1..], ']').Ok?
    ensures ExtractSectionName(HeaderText(name)[1..], ']') == Ok(name) <==> ']' !in name
  {
    var body := HeaderText(name)[1..];
    assert body == name + "]\n";
    assert body[..|name|] == name && body[|name|] == ']';
    if ']' !in name {
      IndexOfIs(body, ']', |name|);
    }
    assert body[..|body|] == body;
  }

  /** An item line yields the expected item exactly when key and value can be told apart. */
  lemma {:induction false} EntryRead(delimiter: string, item: Item)
    requires EntryText(delimiter, item)[0] != '['
    ensures ExtractKeyValue(Strip(EntryText(delimiter, item)), ' ') == Ok(ReadBackItem(delimiter, item))
       <==> EntryReadable(item)
  {
    var rest := delimiter + " " + item.value;
    assert EntryText(delimiter, item) == (item.key + " " + rest) + "\n";
    assert rest[|rest| - 1] == if item.value == "" then ' ' else item.value[|item.value| - 1];
    if EntryReadable(item) {
      SplitLine(item.key, rest);
    }
    if ExtractKeyValue(Strip(EntryText(delimiter, item)), ' ') == Ok(Item(item.key, rest)) {
      LineSplit(item.key, rest);
    }
  }

  lemma {:induction false} SplitLine(key: string, rest: string)
    requires key != "" && !IsSpace(key[0]) && ' ' !in key
    requires rest != "" && !IsSpace(rest[|rest| - 1])
    ensures ExtractKeyValue(Strip((key + " " + rest) + "\n"), ' ') == Ok(Item(key, rest))
  {
    StripKeyed(key, rest);
    KeyValueOf(key + " " + rest, ' ', key, rest);
  }

  lemma {:induction false} StripKeyed(key: string, rest: string)
    requires key != "" && !IsSpace(key[0])
    requires rest != "" && !IsSpace(rest[|rest| - 1])
    ensures Strip((key + " " + rest) + "\n") == key + " " + rest
  {
    var body := key + " " + rest;
    assert body[0] == key[0] && body[|body| - 1] == rest[|rest| - 1];
    StripLine(body);
  }

  lemma {:induction false} LineSplit(key: string, rest: string)
    requires rest != ""
    requires ExtractKeyValue(Strip((key + " " + rest) + "\n"), ' ') == Ok(Item(key, rest))
    ensures key != "" && !IsSpace(key[0]) && ' ' !in key
    ensures !IsSpace(rest[|rest| - 1])
  {
    var body := key + " " + rest;
    KeyValueParts(Strip(body + "\n"), ' ', Item(key, rest));
    StripEnds(body + "\n");
    assert !IsSpace(body[0]) && !IsSpace(body[|body| - 1]);
    assert body[0] == if key == "" then ' ' else key[0];
    assert body[|body| - 1] == rest[|rest| - 1];
  }

  /** A readable line does what it is meant to do. */
  lemma {:induction false} ReadableLine(sections: seq<Section>, line: Line)
    requires sections == [] ==> line.Header?
    requires LineReadable(sections, line)
    ensures ReadChunk(At(sections), line.Text()) == At(Intend(sections, line))
  {
    match line
    case Header(name) => HeaderRead(name);
    case Entry(delimiter, item) =>
      assert line.Text()[0] == item.key[0];
      EntryRead(delimiter, item);
  }

  // ---- Reading only ever adds ----

  predicate Extends(a: seq<Section>, b: seq<Section>) {
    && |a| <= |b|
    && forall i :: 0 <= i < |a| ==> a[i].name == b[i].name && a[i].items <= b[i].items
  }

  function Size(sections: seq<Section>): nat {
    if sections == [] then 0 else 1 + |sections[0].items| + Size(sections[1..])
  }

  function HeaderCount(lines: seq<Line>): nat {
    if lines == [] then 0 else (if lines[0].Header? then 1 else 0) + HeaderCount(lines[1..])
  }

  lemma {:induction false} SizeAppend(sections: seq<Section>, s: Section)
    ensures Size(sections + [s]) == Size(sections) + 1 + |s.items|
  {
    if sections == [] {
      assert Size([s][1..]) == 0;
    } else {
      assert (sections + [s])[1..] == sections[1..] + [s];
      SizeAppend(sections[1..], s);
    }
  }

  lemma {:induction false} SizeUpdate(sections: seq<Section>, i: nat, item: Item)
    requires i < |sections|
    ensures Size(sections[i := sections[i].(items := sections[i].items + [item])]) == Size(sections) + 1
  {
    var after := sections[i := sections[i].(items := sections[i].items + [item])];
    if i == 0 {
      assert after[1..] == sections[1..];
    } else {
      assert after[1..] == sections[1..][i - 1 := after[i]];
      SizeUpdate(sections[1..], i - 1, item);
    }
  }

  /** One chunk that is read adds one section or one item and changes nothing else. */
  lemma {:induction false} ChunkAdds(st: ReadState, chunk: string)
    requires st.rc == OK && ReadChunk(st, chunk).rc == OK
    ensures var next := ReadChunk(st, chunk).sections;
            && Extends(st.sections, next)
            && Size(next) == Size(st.sections) + 1
            && |next| == |st.sections| + (if chunk != "" && chunk[0] == '[' then 1 else 0)
  {
    if chunk != "" && chunk[0] == '[' {
      SizeAppend(st.sections, ReadChunk(st, chunk).sections[|st.sections|]);
    } else {
      ItemAdds(st.sections, st.name.value, ExtractKeyValue(Strip(chunk), ' ').value);
    }
  }

  lemma {:induction false} ItemAdds(sections: seq<Section>, name: string, item: Item)
    requires AppendItem(sections, name, item).Ok?
    ensures var next := AppendItem(sections, name, item).value;
            Extends(sections, next) && Size(next) == Size(sections) + 1 && |next| == |sections|
  {
    SizeUpdate(sections, Find(sections, name), item);
  }

  lemma {:induction false} ChunksAdd(st: ReadState, chunks: seq<string>)
    requires st.rc == OK && ReadChunks(st, chunks).rc == OK
    ensures Extends(st.sections, ReadChunks(st, chunks).sections)
    ensures Size(ReadChunks(st, chunks).sections) == Size(st.sections) + |chunks|
    decreases |chunks|
  {
    if chunks != [] {
      var next := ReadChunk(st, chunks[0]);
      ChunkAdds(st, chunks[0]);
      ChunksAdd(next, chunks[1..]);
      ExtendsTrans(st.sections, next.sections, ReadChunks(next, chunks[1..]).sections);
    }
  }

  lemma {:induction false} ExtendsTrans(a: seq<Section>, b: seq<Section>, c: seq<Section>)
    requires Extends(a, b) && Extends(b, c)
    ensures Extends(a, c)
  {
    forall i | 0 <= i < |a| ensures a[i].items <= c[i].items {
      assert a[i].items <= b[i].items && b[i].items <= c[i].items;
    }
  }

  /** Printed headers are always read as headers, so reading yields at least as many sections. */
  lemma {:induction false} HeadersAdd(st: ReadState, lines: seq<Line>)
    requires st.rc == OK && ReadChunks(st, Texts(lines)).rc == OK
    ensures |ReadChunks(st, Texts(lines)).sections| >= |st.sections| + HeaderCount(lines)
    decreases |lines|
  {
    if lines != [] {
      assert Texts(lines)[1..] == Texts(lines[1..]);
      ChunkAdds(st, lines[0].Text());
      HeadersAdd(ReadChunk(st, lines[0].Text()), lines[1..]);
    }
  }

  lemma {:induction false} IntendAdds(sections: seq<Section>, lines: seq<Line>)
    requires sections == [] && lines != [] ==> lines[0].Header?
    ensures var all := IntendAll(sections, lines);
            && |all| == |sections| + HeaderCount(lines)
            && Size(all) == Size(sections) + |lines|
            && Extends(sections, all)
            && (forall i :: 0 <= i < |sections| - 1 ==> all[i] == sections[i])
    decreases |lines|
  {
    if lines != [] {
      var next := Intend(sections, lines[0]);
      match lines[0] {
        case Header(name) => SizeAppend(sections, Section(name, " ", []));
        case Entry(d, item) => SizeUpdate(sections, |sections| - 1, ReadBackItem(d, item));
      }
      IntendAdds(next, lines[1..]);
      ExtendsTrans(sections, next, IntendAll(next, lines[1..]));
    }
  }

  predicate GoesAsMeant(sections: seq<Section>, lines: seq<Line>)
    requires sections == [] && lines != [] ==> lines[0].Header?
  {
    var end := ReadChunks(At(sections), Texts(lines));
    end.rc == OK && end.sections == IntendAll(sections, lines)
  }

  /** A line was read, and both what it did and what it was meant to do are part of all. */
  predicate Continues(sections: seq<Section>, line: Line, all: seq<Section>)
    requires sections == [] ==> line.Header?
  {
    var next := ReadChunk(At(sections), line.Text());
    && next.rc == OK
    && (line.Entry? ==> line.Text()[0] != '[')
    && Extends(next.sections, all)
    && Extends(Intend(sections, line), all)
    && forall i :: 0 <= i < |sections| - 1 ==> all[i] == sections[i]
  }

  /** Reading only adds, so what the first line did is still there at the end. */
  lemma {:induction false} FirstContinues(sections: seq<Section>, lines: seq<Line>)
    requires lines != [] && (sections == [] ==> lines[0].Header?)
    requires GoesAsMeant(sections, lines)
    ensures Continues(sections, lines[0], IntendAll(sections, lines))
  {
    var rest := lines[1..];
    assert Texts(lines)[0] == lines[0].Text() && Texts(lines)[1..] == Texts(rest);
    var next := ReadChunk(At(sections), lines[0].Text());
    assert ReadChunks(At(sections), Texts(lines)) == ReadChunks(next, Texts(rest));
    ChunkAdds(At(sections), lines[0].Text());
    ChunksAdd(next, Texts(rest));
    HeadersAdd(next, rest);
    IntendAdds(sections, lines);
    IntendAdds(Intend(sections, lines[0]), rest);
  }

  lemma {:induction false} HeaderContinues(sections: seq<Section>, name: string, all: seq<Section>)
    requires Continues(sections, Header(name), all)
    ensures LineReadable(sections, Header(name))
  {
    HeaderRead(name);
    var next := ReadChunk(At(sections), HeaderText(name)).sections;
    assert next[|sections|].name == all[|sections|].name;
    assert Intend(sections, Header(name))[|sections|].name == all[|sections|].name;
  }

  /** The item went to the last section, where it is the intended item. */
  lemma {:induction false} EntryContinues(sections: seq<Section>, delimiter: string, item: Item, all: seq<Section>)
    requires sections != [] && Continues(sections, Entry(delimiter, item), all)
    ensures LineReadable(sections, Entry(delimiter, item))
  {
    var kv := ExtractKeyValue(Strip(EntryText(delimiter, item)), ' ');
    assert ReadChunk(At(sections), EntryText(delimiter, item)) == ReadItem(At(sections), kv);
    ReadWhere(sections, kv);
    SameItem(sections, Find(sections, sections[|sections| - 1].name), kv.value, ReadBackItem(delimiter, item), all);
    EntryRead(delimiter, item);
  }

  lemma {:induction false} ReadWhere(sections: seq<Section>, kv: Result<Item>)
    requires sections != [] && ReadItem(At(sections), kv).rc == OK
    requires kv.Err? ==> kv.error != OK
    ensures var i := Find(sections, sections[|sections| - 1].name);
            && kv.Ok? && i < |sections|
            && ReadItem(At(sections), kv).sections
            == sections[i := sections[i].(items := sections[i].items + [kv.value])]
  {
  }

  /** Two appended items that are part of the same end stand at the same place. */
  lemma {:induction false} SameItem(sections: seq<Section>, i: nat, read: Item, meant: Item, all: seq<Section>)
    requires i < |sections|
    requires Extends(sections[i := sections[i].(items := sections[i].items + [read])], all)
    requires var last := |sections| - 1;
             Extends(sections[last := sections[last].(items := sections[last].items + [meant])], all)
    requires forall j :: 0 <= j < |sections| - 1 ==> all[j] == sections[j]
    ensures i == |sections| - 1 && read == meant
  {
    var n := |sections[i].items|;
    assert sections[i].items + [read] <= all[i].items;
    assert |all[i].items| >= n + 1;
    assert i == |sections| - 1;
    assert sections[i].items + [meant] <= all[i].items;
    assert read == all[i].items[n] == meant;
  }

  /** Nothing later repairs a line that did not do what it was meant to do. */
  lemma {:induction false} ContinuesReadable(sections: seq<Section>, line: Line, all: seq<Section>)
    requires sections == [] ==> line.Header?
    requires Continues(sections, line, all)
    ensures LineReadable(sections, line)
  {
    match line {
      case Header(name) => HeaderContinues(sections, name, all);
      case Entry(delimiter, item) => EntryContinues(sections, delimiter, item, all);
    }
  }

  /** Lines that each come back whole lead to the intended configuration iff all are readable. */
  lemma {:induction false} LinesReadBack(sections: seq<Section>, lines: seq<Line>)
    requires sections == [] && lines != [] ==> lines[0].Header?
    ensures GoesAsMeant(sections, lines) <==> LinesReadable(sections, lines)
    decreases |lines|
  {
    if lines != [] {
      assert Texts(lines)[1..] == Texts(lines[1..]);
      if GoesAsMeant(sections, lines) {
        FirstContinues(sections, lines);
        ContinuesReadable(sections, lines[0], IntendAll(sections, lines));
      }
      if LineReadable(sections, lines[0]) {
        ReadableLine(sections, lines[0]);
        LinesReadBack(Intend(sections, lines[0]), lines[1..]);
      }
    }
  }

  // ---- The whole configuration ----

  lemma {:induction false} FirstLine(sections: seq<Section>, line: Line, rest: seq<Line>)
    requires sections == [] ==> line.Header?
    ensures IntendAll(sections, [line] + rest) == IntendAll(Intend(sections, line), rest)
    ensures LinesReadable(sections, [line] + rest)
       <==> LineReadable(sections, line) && LinesReadable(Intend(sections, line), rest)
  {
    assert ([line] + rest)[1..] == rest;
  }

  lemma {:induction false} FirstItem(before: seq<Section>, s: Section, delimiter: string, items: seq<Item>,
                                       more: seq<Line>)
    requires items != []
    ensures var next := s.(items := s.items + [ReadBackItem(delimiter, items[0])]);
            && ItemLines(delimiter, items) + more
               == [Entry(delimiter, items[0])] + (ItemLines(delimiter, items[1..]) + more)
            && Intend(before + [s], Entry(delimiter, items[0])) == before + [next]
            && next.items + ReadBackItems(delimiter, items[1..]) == s.items + ReadBackItems(delimiter, items)
  {
  }

  /** Reading the item lines of the last section, then the others: what it is meant to do. */
  lemma {:induction false} ItemLinesIntend(before: seq<Section>, s: Section, delimiter: string, items: seq<Item>,
                                           more: seq<Line>)
    ensures IntendAll(before + [s], ItemLines(delimiter, items) + more)
         == IntendAll(before + [s.(items := s.items + ReadBackItems(delimiter, items))], more)
    decreases |items|
  {
    if items == [] {
      assert ItemLines(delimiter, items) + more == more;
      assert s.items + [] == s.items;
    } else {
      FirstItem(before, s, delimiter, items, more);
      FirstLine(before + [s], Entry(delimiter, items[0]), ItemLines(delimiter, items[1..]) + more);
      ItemLinesIntend(before, s.(items := s.items + [ReadBackItem(delimiter, items[0])]), delimiter, items[1..], more);
    }
  }

  /** Reading the item lines of the last section, then the others: when it does that. */
  lemma {:induction false} ItemLinesReadable(before: seq<Section>, s: Section, delimiter: string, items: seq<Item>,
                                             more: seq<Line>)
    ensures LinesReadable(before + [s], ItemLines(delimiter, items) + more) <==>
              && (items != [] ==> IsNew(before, s.name))
              && AllReadable(items)
              && LinesReadable(before + [s.(items := s.items + ReadBackItems(delimiter, items))], more)
    decreases |items|
  {
    if items == [] {
      assert ItemLines(delimiter, items) + more == more;
      assert s.items + [] == s.items;
    } else {
      var next := s.(items := s.items + [ReadBackItem(delimiter, items[0])]);
      FirstItem(before, s, delimiter, items, more);
      FirstLine(before + [s], Entry(delimiter, items[0]), ItemLines(delimiter, items[1..]) + more);
      ItemLinesReadable(before, next, delimiter, items[1..], more);
      FindLast(before, s);
      AllReadableCons(items);
    }
  }

  lemma {:induction false} AllReadableCons(items: seq<Item>)
    requires items != []
    ensures AllReadable(items) <==> EntryReadable(items[0]) && AllReadable(items[1..])
  {
    assert forall j :: 1 <= j < |items| ==> items[j] == items[1..][j - 1];
  }

  lemma {:induction false} FindLast(before: seq<Section>, s: Section)
    ensures Find(before + [s], s.name) == |before| <==> IsNew(before, s.name)
  {
    assert forall i :: 0 <= i < |before| ==> (before + [s])[i] == before[i];
    assert (before + [s])[|before|] == s;
  }

  lemma {:induction false} SectionLinesReadable(sections: seq<Section>, i: nat)
    requires i <= |sections|
    ensures IntendAll(ReadBackAll(sections[..i]), Lines(sections[i..])) == ReadBackAll(sections)
    ensures LinesReadable(ReadBackAll(sections[..i]), Lines(sections[i..])) <==> ParsesFrom(sections, i)
    decreases |sections| - i
  {
    if i == |sections| {
      assert sections[..i] == sections;
    } else {
      SectionLinesReadable(sections, i + 1);
      OneSection(sections, i);
      assert ParsesFrom(sections, i) <==> SectionParses(sections, i) && ParsesFrom(sections, i + 1);
    }
  }

  lemma {:induction false} OneSection(sections: seq<Section>, i: nat)
    requires i < |sections|
    ensures var before, after := ReadBackAll(sections[..i]), ReadBackAll(sections[..i + 1]);
            && IntendAll(before, Lines(sections[i..])) == IntendAll(after, Lines(sections[i + 1..]))
            && (LinesReadable(before, Lines(sections[i..])) <==>
                  SectionParses(sections, i) && LinesReadable(after, Lines(sections[i + 1..])))
  {
    var before, s, rest := ReadBackAll(sections[..i]), sections[i], Lines(sections[i + 1..]);
    var empty := Section(s.name, " ", []);
    FirstSection(sections, i);
    FirstLine(before, Header(s.name), ItemLines(s.delimiter, s.items) + rest);
    ItemLinesIntend(before, empty, s.delimiter, s.items, rest);
    ItemLinesReadable(before, empty, s.delimiter, s.items, rest);
  }

  predicate ParsesFrom(sections: seq<Section>, i: nat) {
    forall k :: i <= k < |sections| ==> SectionParses(sections, k)
  }

  lemma {:induction false} FirstSection(sections: seq<Section>, i: nat)
    requires i < |sections|
    ensures var s := sections[i]; var before := ReadBackAll(sections[..i]);
            && Lines(sections[i..]) == [Header(s.name)] + (ItemLines(s.delimiter, s.items) + Lines(sections[i + 1..]))
            && before + [Section(s.name, " ", [] + ReadBackItems(s.delimiter, s.items))]
            == ReadBackAll(sections[..i + 1])
            && (IsNew(before, s.name) <==> IsNew(sections[..i], s.name))
  {
    assert sections[i..][1..] == sections[i + 1..];
    var s := sections[i];
    assert [] + ReadBackItems(s.delimiter, s.items) == ReadBackItems(s.delimiter, s.items);
  }

  predicate AllFit(lines: seq<Line>) {
    forall i :: 0 <= i < |lines| ==> OneRead(lines[i].Text(), PATH_MAX)
  }

  lemma {:induction false} AllFitAppend(a: seq<Line>, b: seq<Line>)
    ensures AllFit(a + b) <==> AllFit(a) && AllFit(b)
  {
    assert forall i :: 0 <= i < |a| ==> (a + b)[i] == a[i];
    assert forall i :: 0 <= i < |b| ==> (a + b)[|a| + i] == b[i];
  }

  lemma {:induction false} LinesFit(sections: seq<Section>)
    ensures AllFit(Lines(sections)) <==> forall i :: 0 <= i < |sections| ==> SectionFits(sections[i])
  {
    if sections != [] {
      var s := sections[0];
      var items := ItemLines(s.delimiter, s.items);
      LinesFit(sections[1..]);
      AllFitAppend([Header(s.name)] + items, Lines(sections[1..]));
      AllFitAppend([Header(s.name)], items);
      HeaderAndItemsFit(s);
      assert forall i :: 1 <= i < |sections| ==> sections[i] == sections[1..][i - 1];
    }
  }

  lemma {:induction false} HeaderAndItemsFit(s: Section)
    ensures AllFit([Header(s.name)]) && AllFit(ItemLines(s.delimiter, s.items)) <==> SectionFits(s)
  {
    assert [Header(s.name)][0].Text() == HeaderText(s.name);
    var items := ItemLines(s.delimiter, s.items);
    assert forall j :: 0 <= j < |items| ==> items[j].Text() == EntryText(s.delimiter, s.items[j]);
  }

  /**
   * Reading the printed text succeeds and gives the same sections, keys and order, each
   * value led by the delimiter and a blank, exactly for the readable configurations.
   */
  lemma {:induction false} ReadsBackIff(sections: seq<Section>)
    ensures ReadsBackAs(Print(sections), ReadBackAll(sections)) <==> Readable(sections)
  {
    var lines := Lines(sections);
    LinesFit(sections);
    PrintedReads(sections);
    assert sections[0..] == sections && sections[..0] == [] && ReadBackAll([]) == [];
    SectionLinesReadable(sections, 0);
    LinesReadBack([], lines);
    if ReadsBackAs(Print(sections), ReadBackAll(sections)) {
      ChunksAdd(ReadState([], None, OK), Chunks(Print(sections), PATH_MAX));
      IntendAdds([], lines);
    }
  }

  /** The printed lines come back one a read exactly when they all fit. */
  lemma {:induction false} PrintedReads(sections: seq<Section>)
    ensures var chunks := Chunks(Print(sections), PATH_MAX); var lines := Lines(sections);
            && (|chunks| == |lines| <==> AllFit(lines))
            && (|chunks| == |lines| ==> chunks == Texts(lines))
  {
    var texts := Texts(Lines(sections));
    PrintIsLines(sections);
    assert forall i :: 0 <= i < |texts| ==> texts[i] == Lines(sections)[i].Text();
    ReadsPerLine(texts, PATH_MAX);
  }

  // ---- When reading succeeds at all ----

  predicate OpensSection(chunk: string) {
    chunk != "" && chunk[0] == '['
  }

  /** A chunk that a reader inside a section takes without an error, whatever it makes of it. */
  predicate Accepted(chunk: string) {
    if OpensSection(chunk) then ']' in chunk[1..] else ' ' in Strip(chunk)
  }

  /** A reader that is inside one of its sections. */
  predicate Inside(st: ReadState) {
    st.rc == OK && st.name.Some? && Find(st.sections, st.name.value) < |st.sections|
  }

  lemma {:induction false} IndexOfIn(s: string, c: char)
    ensures IndexOf(s, c) < |s| <==> c in s
  {
    if c in s {
      var i :| 0 <= i < |s| && s[i] == c;
    }
  }

  lemma {:induction false} FindName(sections: seq<Section>, i: nat)
    requires i < |sections|
    ensures Find(sections, sections[i].name) < |sections|
  {
  }

  lemma {:induction false} HeaderAccepted(st: ReadState, chunk: string)
    requires st.rc == OK && OpensSection(chunk)
    ensures Accepted(chunk) ==> Inside(ReadChunk(st, chunk))
    ensures !Accepted(chunk) ==> ReadChunk(st, chunk).rc == EFAIL
  {
    IndexOfIn(chunk[1..], ']');
    var next := ReadChunk(st, chunk);
    if Accepted(chunk) {
      assert next.sections[|st.sections|].name == next.name.value;
      FindName(next.sections, |st.sections|);
    }
  }

  lemma {:induction false} ItemAccepted(st: ReadState, chunk: string)
    requires Inside(st) && !OpensSection(chunk)
    ensures Accepted(chunk) ==> Inside(ReadChunk(st, chunk))
    ensures !Accepted(chunk) ==> ReadChunk(st, chunk).rc == EFAIL
  {
    IndexOfIn(Strip(chunk), ' ');
    var i, next := Find(st.sections, st.name.value), ReadChunk(st, chunk);
    if Accepted(chunk) {
      assert next.sections[i].name == next.name.value;
      FindName(next.sections, i);
    }
  }

  predicate AllAccepted(chunks: seq<string>) {
    forall i :: 0 <= i < |chunks| ==> Accepted(chunks[i])
  }

  lemma {:induction false} ChunksAccepted(st: ReadState, chunks: seq<string>)
    requires Inside(st)
    ensures ReadChunks(st, chunks).rc == if AllAccepted(chunks) then OK else EFAIL
    decreases |chunks|
  {
    if chunks != [] {
      var chunk, rest := chunks[0], chunks[1..];
      if OpensSection(chunk) {
        HeaderAccepted(st, chunk);
      } else {
        ItemAccepted(st, chunk);
      }
      AllAcceptedCons(chunks);
      if Accepted(chunk) {
        ChunksAccepted(ReadChunk(st, chunk), rest);
      }
    }
  }

  lemma {:induction false} AllAcceptedCons(chunks: seq<string>)
    requires chunks != []
    ensures AllAccepted(chunks) <==> Accepted(chunks[0]) && AllAccepted(chunks[1..])
  {
    assert forall i :: 1 <= i < |chunks| ==> chunks[i] == chunks[1..][i - 1];
  }

  /**
   * A text is read without an error exactly when it is empty, or its first read opens a
   * section and every read is a section line with a "]" or holds a blank inside its ends.
   */
  lemma {:induction false} ReadsIff(text: string)
    ensures var chunks := Chunks(text, PATH_MAX);
            ReadText(text).rc == if chunks == [] || (OpensSection(chunks[0]) && AllAccepted(chunks)) then OK else EFAIL
  {
    var chunks, start := Chunks(text, PATH_MAX), ReadState([], None, OK);
    if chunks != [] {
      AllAcceptedCons(chunks);
      var next := ReadChunk(start, chunks[0]);
      assert ReadText(text) == ReadChunks(next, chunks[1..]);
      assert next.rc != OK ==> ReadText(text) == next;
      if OpensSection(chunks[0]) {
        HeaderAccepted(start, chunks[0]);
        if Accepted(chunks[0]) {
          ChunksAccepted(next, chunks[1..]);
        }
      } else {
        assert next.rc == EFAIL;
      }
    }
  }

  lemma {:induction false} PrintOpens(sections: seq<Section>)
    ensures sections == [] ==> Chunks(Print(sections), PATH_MAX) == []
    ensures sections != [] ==>
              Chunks(Print(sections), PATH_MAX) != [] && OpensSection(Chunks(Print(sections), PATH_MAX)[0])
  {
    if sections != [] {
      assert HeaderText(sections[0].name)[0] == '[';
      assert Print(sections)[0] == '[';
    }
  }

  /** What the handler prints is read without an error exactly when each read is accepted. */
  lemma {:induction false} PrintedParsesIff(sections: seq<Section>)
    ensures ReadText(Print(sections)).rc == if AllAccepted(Chunks(Print(sections), PATH_MAX)) then OK else EFAIL
  {
    PrintOpens(sections);
    ReadsIff(Print(sections));
  }

  lemma {:induction false} HeadersAccepted(name: string)
    ensures Accepted(HeaderText(name))
  {
    assert HeaderText(name)[1..] == name + "]\n";
  }

  lemma {:induction false} LinesAccepted(sections: seq<Section>)
    ensures AllAccepted(Texts(Lines(sections)))
       <==> forall i :: 0 <= i < |sections| ==> EntriesAccepted(sections[i])
  {
    if sections != [] {
      var s := sections[0];
      var items := ItemLines(s.delimiter, s.items);
      LinesAccepted(sections[1..]);
      TextsAppend([Header(s.name)] + items, Lines(sections[1..]));
      TextsAppend([Header(s.name)], items);
      AllAcceptedAppend(Texts([Header(s.name)] + items), Texts(Lines(sections[1..])));
      AllAcceptedAppend(Texts([Header(s.name)]), Texts(items));
      HeadersAccepted(s.name);
      EntriesAcceptedIff(s);
      assert forall i :: 1 <= i < |sections| ==> sections[i] == sections[1..][i - 1];
    }
  }

  /** Each item line is accepted. */
  predicate EntriesAccepted(s: Section) {
    forall j :: 0 <= j < |s.items| ==> Accepted(EntryText(s.delimiter, s.items[j]))
  }

  lemma {:induction false} EntriesAcceptedIff(s: Section)
    ensures AllAccepted(Texts(ItemLines(s.delimiter, s.items))) <==> EntriesAccepted(s)
  {
    var texts := Texts(ItemLines(s.delimiter, s.items));
    assert forall j :: 0 <= j < |texts| ==> texts[j] == EntryText(s.delimiter, s.items[j]);
  }

  lemma {:induction false} AllAcceptedAppend(a: seq<string>, b: seq<string>)
    ensures AllAccepted(a + b) <==> AllAccepted(a) && AllAccepted(b)
  {
    assert forall i :: 0 <= i < |a| ==> (a + b)[i] == a[i];
    assert forall i :: 0 <= i < |b| ==> (a + b)[|a| + i] == b[i];
  }

  /** When the lines fit the buffer, only the item lines decide: section lines are accepted. */
  lemma {:induction false} FittingParsesIff(sections: seq<Section>)
    requires forall i :: 0 <= i < |sections| ==> SectionFits(sections[i])
    ensures ReadText(Print(sections)).rc
         == if forall i :: 0 <= i < |sections| ==> EntriesAccepted(sections[i]) then OK else EFAIL
  {
    LinesFit(sections);
    PrintedReads(sections);
    LinesAccepted(sections);
    PrintedParsesIff(sections);
  }

  lemma {:induction false} DropBlanks(s: string, blanks: string)
    requires AllSpaces(blanks)
    ensures DropTrailing(s + blanks) == DropTrailing(s)
  {
    if blanks == "" {
      assert s + blanks == s;
    } else {
      var less := blanks[..|blanks| - 1];
      assert (s + blanks)[..|s + blanks| - 1] == s + less;
      DropBlanks(s, less);
    }
  }

  /** Behind a key of one word, blanks alone are no value. */
  lemma {:induction false} EmptyValueRejected(delimiter: string, key: string)
    requires key != "" && key[0] != '[' && !IsSpace(key[0]) && !IsSpace(key[|key| - 1]) && ' ' !in key
    requires AllSpaces(delimiter)
    ensures !Accepted(EntryText(delimiter, Item(key, "")))
  {
    var line, blanks := EntryText(delimiter, Item(key, "")), " " + delimiter + " " + "\n";
    assert line == key + blanks;
    assert SkipSpaces(line) == line;
    DropBlanks(key, blanks);
    assert Strip(line) == key;
  }

  /** An item without a value is written, and the file can then not be read. */
  lemma {:induction false} EmptyValueNotReadBack()
    ensures ReadText(Print([Section("Null", "", [Item("Dev", "")])])).rc == EFAIL
  {
    var s := Section("Null", "", [Item("Dev", "")]);
    EmptyValueRejected("", "Dev");
    assert EntryText("", s.items[0]) == "Dev  \n" && SectionFits(s);
    FittingParsesIff([s]);
    assert [s][0] == s && !EntriesAccepted(s);
  }
}
