/** Printing and reading a configuration again and again. */
module ConfCycles {
  import opened Text
  import opened Stdio
  import opened Conf
  import opened ConfRoundTrip

  /** One print-then-read cycle. */
  function Cycle(sections: seq<Section>): Result<seq<Section>> {
    var end := ReadText(Print(sections));
    if end.rc == OK then Ok(end.sections) else Err(end.rc)
  }

  function Cycles(n: nat, sections: seq<Section>): Result<seq<Section>> {
    if n == 0 then Ok(sections)
    else
      var once :- Cycle(sections);
      Cycles(n - 1, once)
  }

  /** The configuration whose values have been moved behind their delimiters n times. */
  function ReadBackTimes(n: nat, sections: seq<Section>): seq<Section> {
    if n == 0 then sections else ReadBackTimes(n - 1, ReadBackAll(sections))
  }

  /** Every cycle makes each item line two characters longer, and it must still fit. */
  predicate FitsCycles(n: nat, sections: seq<Section>)
    requires n >= 1
  {
    forall i, j :: 0 <= i < |sections| && 0 <= j < |sections[i].items| ==>
      |EntryText(sections[i].delimiter, sections[i].items[j])| + 2 * (n - 1) < PATH_MAX
  }

  ghost predicate SurvivesCycles(n: nat, sections: seq<Section>) {
    forall m :: 0 <= m <= n ==> Cycles(m, sections) == Ok(ReadBackTimes(m, sections))
  }

  lemma {:induction false} EntryTwoLonger(delimiter: string, item: Item)
    requires EntryReadable(item) && OneRead(EntryText(delimiter, item), PATH_MAX)
    ensures var again := ReadBackItem(delimiter, item);
            && |EntryText(" ", again)| == |EntryText(delimiter, item)| + 2
            && EntryReadable(again)
            && (OneRead(EntryText(" ", again), PATH_MAX) <==> |EntryText(delimiter, item)| + 2 < PATH_MAX)
  {
    var again := ReadBackItem(delimiter, item);
    EntryOneRead(delimiter, item);
    EntryOneRead(" ", again);
    assert again.value[|again.value| - 1] == item.value[|item.value| - 1];
    assert forall c :: c in again.value <==> c in delimiter || c == ' ' || c in item.value by {
      assert forall c :: c in delimiter + " " <==> c in delimiter || c in " ";
    }
  }

  /** A configuration that was read back is readable unless its lines have grown too long. */
  lemma {:induction false} ReadableAgain(sections: seq<Section>)
    requires Readable(sections)
    ensures Readable(ReadBackAll(sections)) <==> FitsCycles(2, sections)
  {
    var again := ReadBackAll(sections);
    forall i | 0 <= i < |sections|
      ensures SectionParses(again, i)
      ensures SectionFits(again[i]) <==> SectionFitsTwice(sections[i])
    {
      SectionAgain(sections, i);
    }
  }

  predicate SectionFitsTwice(s: Section) {
    forall j :: 0 <= j < |s.items| ==> |EntryText(s.delimiter, s.items[j])| + 2 < PATH_MAX
  }

  lemma {:induction false} SectionAgain(sections: seq<Section>, i: nat)
    requires i < |sections| && SectionParses(sections, i) && SectionFits(sections[i])
    ensures SectionParses(ReadBackAll(sections), i)
    ensures SectionFits(ReadBackAll(sections)[i]) <==> SectionFitsTwice(sections[i])
  {
    var s, again := sections[i], ReadBackAll(sections);
    assert forall k :: 0 <= k < i ==> again[..i][k].name == sections[..i][k].name;
    forall j | 0 <= j < |s.items|
      ensures EntryReadable(again[i].items[j])
      ensures OneRead(EntryText(" ", again[i].items[j]), PATH_MAX)
         <==> |EntryText(s.delimiter, s.items[j])| + 2 < PATH_MAX
    {
      EntryTwoLonger(s.delimiter, s.items[j]);
    }
  }

  lemma {:induction false} FitsOneMore(n: nat, sections: seq<Section>)
    requires n >= 1 && Readable(sections)
    ensures FitsCycles(n, ReadBackAll(sections)) <==> FitsCycles(n + 1, sections)
  {
    var again := ReadBackAll(sections);
    forall i, j | 0 <= i < |sections| && 0 <= j < |sections[i].items|
      ensures |EntryText(again[i].delimiter, again[i].items[j])|
           == |EntryText(sections[i].delimiter, sections[i].items[j])| + 2
    {
      assert SectionParses(sections, i) && SectionFits(sections[i]);
      EntryTwoLonger(sections[i].delimiter, sections[i].items[j]);
    }
  }

  lemma {:induction false} CycleIff(sections: seq<Section>)
    ensures Cycle(sections) == Ok(ReadBackAll(sections)) <==> Readable(sections)
  {
    ReadsBackIff(sections);
  }

  /** The first of m cycles, and those after it. */
  lemma {:induction false} FirstCycle(m: nat, sections: seq<Section>)
    requires m >= 1
    ensures Cycle(sections).Ok? ==> Cycles(m, sections) == Cycles(m - 1, Cycle(sections).value)
    ensures Cycle(sections).Err? ==> Cycles(m, sections) == Cycle(sections)
    ensures Cycles(0, sections) == Ok(sections)
    ensures Cycle(sections).Ok? ==> Cycles(0, Cycle(sections).value) == Cycle(sections)
    ensures ReadBackTimes(m, sections) == ReadBackTimes(m - 1, ReadBackAll(sections))
  {
  }

  lemma {:induction false} SurvivesOneMore(n: nat, sections: seq<Section>)
    requires n >= 1
    ensures SurvivesCycles(n, sections) <==>
              Cycle(sections) == Ok(ReadBackAll(sections)) && SurvivesCycles(n - 1, ReadBackAll(sections))
  {
    var again := ReadBackAll(sections);
    if SurvivesCycles(n, sections) {
      FirstCycle(1, sections);
      assert Cycles(1, sections) == Ok(ReadBackTimes(1, sections));
      assert ReadBackTimes(0, again) == again;
      assert Cycle(sections) == Ok(again);
      forall m | 0 <= m <= n - 1 ensures Cycles(m, again) == Ok(ReadBackTimes(m, again)) {
        assert Cycles(m + 1, sections) == Ok(ReadBackTimes(m + 1, sections));
        FirstCycle(m + 1, sections);
      }
    }
    if Cycle(sections) == Ok(again) && SurvivesCycles(n - 1, again) {
      assert Cycles(0, sections) == Ok(ReadBackTimes(0, sections));
      forall m | 1 <= m <= n ensures Cycles(m, sections) == Ok(ReadBackTimes(m, sections)) {
        assert Cycles(m - 1, again) == Ok(ReadBackTimes(m - 1, again));
        FirstCycle(m, sections);
      }
    }
  }

  /**
   * Each of n cycles gives back the same sections, keys and order exactly for the readable
   * configurations whose item lines leave room for two more characters a further cycle.
   */
  lemma {:induction false} SurvivesCyclesIff(n: nat, sections: seq<Section>)
    requires n >= 1
    ensures SurvivesCycles(n, sections) <==> Readable(sections) && FitsCycles(n, sections)
    decreases n
  {
    var again := ReadBackAll(sections);
    SurvivesOneMore(n, sections);
    CycleIff(sections);
    if Readable(sections) {
      if n == 1 {
        FitsNow(sections);
      } else {
        SurvivesCyclesIff(n - 1, again);
        ReadableAgain(sections);
        FitsOneMore(n - 1, sections);
      }
    }
  }

  lemma {:induction false} FitsNow(sections: seq<Section>)
    requires Readable(sections)
    ensures FitsCycles(1, sections)
  {
    forall i, j | 0 <= i < |sections| && 0 <= j < |sections[i].items|
      ensures |EntryText(sections[i].delimiter, sections[i].items[j])| < PATH_MAX
    {
      assert SectionFits(sections[i]);
      assert OneRead(EntryText(sections[i].delimiter, sections[i].items[j]), PATH_MAX);
    }
  }

  predicate SameUpToBlanks(a: Section, b: Section) {
    && a.name == b.name
    && |a.items| == |b.items|
    && forall j :: 0 <= j < |a.items| ==>
         a.items[j].key == b.items[j].key && SkipSpaces(a.items[j].value) == SkipSpaces(b.items[j].value)
  }

  lemma {:induction false} ReadBackAddsBlanks(s: Section)
    requires AllSpaces(s.delimiter)
    ensures SameUpToBlanks(ReadBack(s), s)
  {
    forall j | 0 <= j < |s.items|
      ensures SkipSpaces(ReadBackItem(s.delimiter, s.items[j]).value) == SkipSpaces(s.items[j].value)
    {
      SkipLeading(s.delimiter + " ", s.items[j].value);
    }
  }

  lemma {:induction false} SameTrans(a: Section, b: Section, c: Section)
    requires SameUpToBlanks(a, b) && SameUpToBlanks(b, c)
    ensures SameUpToBlanks(a, c)
  {
  }

  lemma {:induction false} ReadBackTimesAddsBlanks(n: nat, sections: seq<Section>)
    requires forall i :: 0 <= i < |sections| ==> AllSpaces(sections[i].delimiter)
    ensures |ReadBackTimes(n, sections)| == |sections|
    ensures forall i :: 0 <= i < |sections| ==> SameUpToBlanks(ReadBackTimes(n, sections)[i], sections[i])
    decreases n
  {
    if n > 0 {
      var again := ReadBackAll(sections);
      ReadBackTimesAddsBlanks(n - 1, again);
      forall i | 0 <= i < |sections| ensures SameUpToBlanks(ReadBackTimes(n, sections)[i], sections[i]) {
        ReadBackAddsBlanks(sections[i]);
        SameTrans(ReadBackTimes(n - 1, again)[i], again[i], sections[i]);
      }
    }
  }

  /**
   * Printing and reading n times succeeds for a readable configuration with room in its
   * lines. With blank delimiters it changes nothing but the blanks that lead a value.
   */
  lemma {:induction false} CyclesAddBlanks(n: nat, sections: seq<Section>)
    requires n >= 1 && Readable(sections) && FitsCycles(n, sections)
    requires forall i :: 0 <= i < |sections| ==> AllSpaces(sections[i].delimiter)
    ensures Cycles(n, sections).Ok?
    ensures |Cycles(n, sections).value| == |sections|
    ensures forall i :: 0 <= i < |sections| ==> SameUpToBlanks(Cycles(n, sections).value[i], sections[i])
  {
    SurvivesCyclesIff(n, sections);
    assert Cycles(n, sections) == Ok(ReadBackTimes(n, sections));
    ReadBackTimesAddsBlanks(n, sections);
  }

  /** Every further cycle needs room, so no configuration with an item survives for ever. */
  lemma {:induction false} NoEndlessCycles(sections: seq<Section>, i: nat)
    requires i < |sections| && sections[i].items != []
    ensures !SurvivesCycles(4096, sections)
  {
    SurvivesCyclesIff(PATH_MAX, sections);
    assert |EntryText(sections[i].delimiter, sections[i].items[0])| >= 0;
  }
}
