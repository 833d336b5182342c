/**
 * The x points of a plot with an x axis (scripts/perf.py, plot_one), and what the chart page
 * makes of them (scripts/perf_page.py).
 */
module PlotAxis {
  import opened Text
  import opened Sequences
  import opened NaturalSort
  import opened Numbers
  import opened Perf
  import GapFill

  /** int() reads a decimal numeral with an optional sign as its value. */
  ghost predicate ReadsSigned(py: Builtins) {
    forall s :: IsSigned(s) ==> py.toInt(s) == Some(SignedValue(s))
  }

  function AxisText(report: Content, xAxis: string): string {
    match Get(report.keys, xAxis)
    case None => ""
    case Some(text) => text
  }

  /** What some reports say on an axis. */
  function AxisTexts(reports: seq<Content>, xAxis: string): (texts: seq<string>)
    ensures |texts| == |reports|
    ensures forall i :: 0 <= i < |texts| ==> texts[i] == AxisText(reports[i], xAxis)
  {
    seq(|reports|, i requires 0 <= i < |reports| => AxisText(reports[i], xAxis))
  }

  function Ints(texts: seq<string>): (xs: seq<int>)
    ensures |xs| == |texts|
    ensures forall i :: 0 <= i < |xs| ==> xs[i] == SignedValue(texts[i])
  {
    seq(|texts|, i requires 0 <= i < |texts| => SignedValue(texts[i]))
  }

  lemma {:induction false} AxisTextsContents(a: seq<Content>, b: seq<Content>, xAxis: string)
    requires multiset(a) == multiset(b)
    ensures multiset(AxisTexts(a, xAxis)) == multiset(AxisTexts(b, xAxis))
  {
    var text := (r: Content) => AxisText(r, xAxis);
    MapContents(text, a, b);
    assert AxisTexts(a, xAxis) == Map(text, a) && AxisTexts(b, xAxis) == Map(text, b);
  }

  lemma {:induction false} IntsContents(a: seq<string>, b: seq<string>)
    requires multiset(a) == multiset(b)
    ensures multiset(Ints(a)) == multiset(Ints(b))
  {
    MapContents(SignedValue, a, b);
    assert Ints(a) == Map(SignedValue, a) && Ints(b) == Map(SignedValue, b);
  }

  predicate AllSigned(texts: seq<string>) {
    forall t :: t in texts ==> IsSigned(t)
  }

  predicate Nondecreasing(xs: seq<int>) {
    forall i, j :: 0 <= i < j < |xs| ==> xs[i] <= xs[j]
  }

  // ---- When natural order is the order of the numbers ----

  predicate HasMinus(texts: seq<string>) {
    exists t :: t in texts && Sign(t) == "-"
  }

  /**
   * With a minus sign among the texts all have the same value; otherwise none with a plus
   * sign is below one without a sign.
   */
  predicate InNumberOrder(texts: seq<string>) {
    if HasMinus(texts) then forall t, u :: t in texts && u in texts ==> SignedValue(t) == SignedValue(u)
    else forall t, u :: t in texts && u in texts && Sign(t) == "" && Sign(u) == "+" ==>
           SignedValue(t) <= SignedValue(u)
  }

  predicate NaturallySorted(texts: seq<string>) {
    forall i, j :: 0 <= i < j < |texts| ==> !Before(texts[j], texts[i])
  }

  lemma {:induction false} MinusMeansEqual(texts: seq<string>, i: nat, k: nat)
    requires AllSigned(texts) && NaturallySorted(texts) && Nondecreasing(Ints(texts))
    requires i < |texts| && k < |texts| && Sign(texts[i]) == "-"
    ensures SignedValue(texts[k]) == SignedValue(texts[i])
  {
    var t, u := texts[i], texts[k];
    assert t in texts && u in texts;
    SignedKey(u);
    SignedBefore(t, u);
    SignedBefore(u, t);
    assert Ints(texts)[i] == SignedValue(t) && Ints(texts)[k] == SignedValue(u);
    assert i < k ==> !Before(u, t) && Ints(texts)[i] <= Ints(texts)[k];
    assert k < i ==> !Before(t, u) && Ints(texts)[k] <= Ints(texts)[i];
  }

  lemma {:induction false} InOrderWhenSorted(texts: seq<string>)
    requires AllSigned(texts) && NaturallySorted(texts) && Nondecreasing(Ints(texts))
    ensures InNumberOrder(texts)
  {
    if HasMinus(texts) {
      var i :| 0 <= i < |texts| && Sign(texts[i]) == "-";
      forall t | t in texts ensures SignedValue(t) == SignedValue(texts[i]) {
        var k :| 0 <= k < |texts| && texts[k] == t;
        MinusMeansEqual(texts, i, k);
      }
    } else {
      forall t, u | t in texts && u in texts && Sign(t) == "" && Sign(u) == "+"
        ensures SignedValue(t) <= SignedValue(u)
      {
        var i :| 0 <= i < |texts| && texts[i] == t;
        var j :| 0 <= j < |texts| && texts[j] == u;
        SignedBefore(t, u);
        assert i != j && !(j < i);
        assert Ints(texts)[i] <= Ints(texts)[j];
      }
    }
  }

  /** Naturally sorted numerals never decrease exactly when their signs allow it. */
  lemma {:induction false} SortedNumbersIff(texts: seq<string>)
    requires AllSigned(texts) && NaturallySorted(texts)
    ensures Nondecreasing(Ints(texts)) <==> InNumberOrder(texts)
  {
    if Nondecreasing(Ints(texts)) {
      InOrderWhenSorted(texts);
    }
    if InNumberOrder(texts) {
      forall i, j | 0 <= i < j < |texts| ensures Ints(texts)[i] <= Ints(texts)[j] {
        var t, u := texts[i], texts[j];
        assert t in texts && u in texts && !Before(u, t);
        if !HasMinus(texts) {
          SignedKey(t);
          SignedKey(u);
          SignedBefore(u, t);
        }
      }
    }
  }

  // ---- The x points of a plot ----

  /**
   * A plot is returned for reports with different keys each and, where they match, numerals
   * on the axis.
   */
  ghost predicate HasSignedPlot(py: Builtins, reports: seq<Content>, req: Request) {
    && ReadsSigned(py) && req.xAxis != ""
    && PlotFor(py, reports, req).Returned?
    && (forall r :: r in Rows(py, reports, req).value ==> Distinct(r.keys))
    && AllSigned(AxisTexts(Kept(py, reports, req.mfilter), req.xAxis))
  }

  lemma {:induction false} RowsSorted(rows: seq<Content>, xAxis: string)
    requires OrderedBy(rows, xAxis)
    ensures NaturallySorted(AxisTexts(rows, xAxis))
  {
  }

  lemma {:induction false} XPointAt(py: Builtins, plot: Perf.Plot, i: nat, report: Content, req: Request)
    requires ReadsSigned(py) && req.xAxis != "" && RowOf(py, plot, i, report, req)
    requires IsSigned(AxisText(report, req.xAxis))
    ensures plot.xs[i] == SignedValue(AxisText(report, req.xAxis))
  {
    assert plot.table[i][0] == AxisText(report, req.xAxis);
  }

  /** The x points are the axis values of the rows, and the rows are the matching reports. */
  lemma {:induction false} XPointsAre(py: Builtins, reports: seq<Content>, req: Request) returns (texts: seq<string>)
    requires HasSignedPlot(py, reports, req)
    ensures multiset(texts) == multiset(AxisTexts(Kept(py, reports, req.mfilter), req.xAxis))
    ensures AllSigned(texts) && NaturallySorted(texts)
    ensures PlotFor(py, reports, req).value.xs == Ints(texts)
  {
    RowsAreSorted(py, reports, req);
    var rows, kept := Rows(py, reports, req).value, Kept(py, reports, req.mfilter);
    texts := AxisTexts(rows, req.xAxis);
    RowsSorted(rows, req.xAxis);
    AxisTextsContents(rows, kept, req.xAxis);
    SameElements(texts, AxisTexts(kept, req.xAxis));
    XPointsOfRows(py, reports, req, rows, PlotFor(py, reports, req).value);
  }

  lemma {:induction false} XPointsOfRows(py: Builtins, reports: seq<Content>, req: Request, rows: seq<Content>,
                                         plot: Perf.Plot)
    requires ReadsSigned(py) && req.xAxis != ""
    requires PlotFor(py, reports, req) == Returned(plot) && Rows(py, reports, req) == Returned(rows)
    requires forall r :: r in rows ==> Distinct(r.keys)
    requires AllSigned(AxisTexts(rows, req.xAxis))
    ensures plot.xs == Ints(AxisTexts(rows, req.xAxis))
  {
    TableAligned(py, reports, req);
    var texts := AxisTexts(rows, req.xAxis);
    forall i | 0 <= i < |rows| ensures plot.xs[i] == Ints(texts)[i] {
      assert texts[i] in texts;
      XPointAt(py, plot, i, rows[i], req);
    }
  }

  lemma {:induction false} SameElements<T>(a: seq<T>, b: seq<T>)
    requires multiset(a) == multiset(b)
    ensures forall x :: x in a <==> x in b
  {
    assert forall x :: x in a <==> x in multiset(a);
    assert forall x :: x in b <==> x in multiset(b);
  }

  lemma {:induction false} OrderOfContents(a: seq<string>, b: seq<string>)
    requires multiset(a) == multiset(b)
    ensures InNumberOrder(a) <==> InNumberOrder(b)
  {
    SameElements(a, b);
  }

  /**
   * On an axis of numerals with optional signs the x points of a plot never decrease exactly
   * when no matching report has a minus sign and none with a plus sign is below one without,
   * or when a minus sign occurs and all values are the same.
   */
  lemma {:induction false} XPointsInOrderIff(py: Builtins, reports: seq<Content>, req: Request)
    requires HasSignedPlot(py, reports, req)
    ensures Nondecreasing(PlotFor(py, reports, req).value.xs)
       <==> InNumberOrder(AxisTexts(Kept(py, reports, req.mfilter), req.xAxis))
  {
    var texts := XPointsAre(py, reports, req);
    SortedNumbersIff(texts);
    OrderOfContents(texts, AxisTexts(Kept(py, reports, req.mfilter), req.xAxis));
  }

  lemma {:induction false} PlainInOrder(texts: seq<string>)
    requires forall t :: t in texts ==> IsNumeral(t)
    ensures AllSigned(texts) && InNumberOrder(texts)
  {
    forall t | t in texts ensures IsSigned(t) && Sign(t) == "" {
      assert IsDigit(t[0]);
    }
  }

  /** On an axis of plain decimal numerals the x points never decrease. */
  lemma {:induction false} XPointsNondecreasing(py: Builtins, reports: seq<Content>, req: Request)
    requires HasSignedPlot(py, reports, req)
    requires forall t :: t in AxisTexts(Kept(py, reports, req.mfilter), req.xAxis) ==> IsNumeral(t)
    ensures Nondecreasing(PlotFor(py, reports, req).value.xs)
  {
    PlainInOrder(AxisTexts(Kept(py, reports, req.mfilter), req.xAxis));
    XPointsInOrderIff(py, reports, req);
  }

  // ---- What the chart page makes of them ----

  predicate Gapless(xs: seq<int>)
    requires xs != []
  {
    GapFill.FillX(0, GapFill.Max(xs), xs) == GapFill.Range(0, GapFill.Max(xs))
  }

  predicate NoneNegative(xs: seq<int>) {
    forall x :: x in xs ==> x >= 0
  }

  lemma {:induction false} NoTwoEqualIff<T>(a: seq<T>, b: seq<T>)
    requires multiset(a) == multiset(b)
    ensures NoTwoEqual(a) <==> NoTwoEqual(b)
  {
    if NoTwoEqual(a) {
      NoTwoEqualContents(a, b);
    }
    if NoTwoEqual(b) {
      NoTwoEqualContents(b, a);
    }
  }

  lemma {:induction false} StrictlyIff(xs: seq<int>)
    ensures (forall i, j :: 0 <= i < j < |xs| ==> xs[i] < xs[j]) <==> Nondecreasing(xs) && NoTwoEqual(xs)
  {
  }

  lemma {:induction false} NoneNegativeIff(xs: seq<int>)
    ensures NoneNegative(xs) <==> forall i :: 0 <= i < |xs| ==> xs[i] >= 0
  {
    if NoneNegative(xs) {
      forall i | 0 <= i < |xs| ensures xs[i] >= 0 {
        assert xs[i] in xs;
      }
    }
  }

  lemma {:induction false} GaplessInts(xs: seq<int>)
    requires xs != []
    ensures Gapless(xs) <==> Nondecreasing(xs) && NoneNegative(xs) && NoTwoEqual(xs)
  {
    GapFill.GapsFilledIff(xs);
    StrictlyIff(xs);
    NoneNegativeIff(xs);
  }

  lemma {:induction false} GaplessOf(texts: seq<string>, given: seq<string>)
    requires texts != [] && AllSigned(texts) && NaturallySorted(texts) && multiset(texts) == multiset(given)
    ensures Gapless(Ints(texts)) <==> InNumberOrder(given) && NoneNegative(Ints(given)) && NoTwoEqual(Ints(given))
  {
    SortedNumbersIff(texts);
    OrderOfContents(texts, given);
    GaplessInts(Ints(texts));
    IntsContents(texts, given);
    NoTwoEqualIff(Ints(texts), Ints(given));
    SameElements(Ints(texts), Ints(given));
  }

  /**
   * The chart page makes the x points a gapless range exactly when they are in order, none
   * is negative, and no two matching reports share a value.
   */
  lemma {:induction false} GaplessIff(py: Builtins, reports: seq<Content>, req: Request)
    requires HasSignedPlot(py, reports, req) && PlotFor(py, reports, req).value.xs != []
    ensures var texts := AxisTexts(Kept(py, reports, req.mfilter), req.xAxis);
            Gapless(PlotFor(py, reports, req).value.xs)
            <==> InNumberOrder(texts) && NoneNegative(Ints(texts)) && NoTwoEqual(Ints(texts))
  {
    var texts := XPointsAre(py, reports, req);
    GaplessOf(texts, AxisTexts(Kept(py, reports, req.mfilter), req.xAxis));
  }

  // ---- Where it goes wrong ----

  /** A report that says value on the axis and has one measurement. */
  function Sample(xAxis: string, value: string, name: string): Content {
    Content([(xAxis, value)], [Measurement(name, [Measured("1", "u", "1")])])
  }

  function SampleHeaders(py: Builtins, req: Request): seq<string>
    requires py.fromHex("1").Some?
  {
    [req.xAxis, req.name + " (" + "u" + " * " + py.fromHex("1").value + ")", req.xAxis]
  }

  lemma {:induction false} SamplePoint(py: Builtins, value: string, req: Request, count: nat)
    requires py.fromHex("1").Some? && req.xAxis != "" && req.xAxis != "FIO-cmd" && req.mfilter == []
    ensures var sample := Sample(req.xAxis, value, req.name);
            GetPoint(py, sample, req, count) == Returned(Point(value, "1", SampleHeaders(py, req)))
  {
    var sample := Sample(req.xAxis, value, req.name);
    assert sample.results[1..] == [] && sample.keys[1..] == [];
    assert Named(sample.results, req.name) == [sample.results[0]];
    assert Pop(sample.keys, "FIO-cmd") == sample.keys;
    assert Shown(sample.keys, []) == sample.keys;
    assert Keys(sample.keys) == [req.xAxis];
    assert [req.xAxis, SampleHeaders(py, req)[1]] + [req.xAxis] == SampleHeaders(py, req);
  }

  lemma {:induction false} SampleRow(py: Builtins, plot: Perf.Plot, value: string, req: Request)
    requires ReadsSigned(py) && py.toFloat("1").Some? && py.fromHex("1").Some? && IsSigned(value)
    requires req.xAxis != "" && req.xAxis != "FIO-cmd" && req.mfilter == []
    requires plot.headers == [] || plot.headers == SampleHeaders(py, req)
    ensures var more := AddReport(py, plot, Sample(req.xAxis, value, req.name), req);
            more.Returned? && more.value.xs == plot.xs + [SignedValue(value)]
            && more.value.headers == SampleHeaders(py, req)
  {
    SamplePoint(py, value, req, |plot.table| + 1);
  }

  lemma {:induction false} KeyedCons(first: Content, rest: seq<Content>, xAxis: string)
    requires Get(first.keys, xAxis).Some? && KeyedBy(rest, xAxis).Returned?
    ensures KeyedBy([first] + rest, xAxis).Returned?
  {
    assert ([first] + rest)[1..] == rest;
  }

  lemma {:induction false} SampleRows(py: Builtins, a: string, b: string, req: Request)
    requires req.xAxis != "" && req.mfilter == []
    ensures var x, y := Sample(req.xAxis, a, req.name), Sample(req.xAxis, b, req.name);
            Rows(py, [x, y], req) == Returned(if Before(b, a) then [y, x] else [x, y])
  {
    var x, y := Sample(req.xAxis, a, req.name), Sample(req.xAxis, b, req.name);
    assert Get(x.keys, req.xAxis) == Some(a) && Get(y.keys, req.xAxis) == Some(b);
    KeyedCons(y, [], req.xAxis);
    KeyedCons(x, [y], req.xAxis);
    assert KeyedBy([x] + [y], req.xAxis).value == [Keyed(a, x), Keyed(b, y)];
    assert [x] + [y] == [x, y];
    SortTwo(Keyed(a, x), Keyed(b, y));
    var sorted := Sorted([Keyed(a, x), Keyed(b, y)]);
    assert Items(sorted) == if Before(b, a) then [y, x] else [x, y];
    assert InOrder([x, y], req.xAxis) == Returned(Items(sorted));
    assert Filtered(py, [x, y], req.mfilter) == Returned([x, y]);
  }

  lemma {:induction false} SampleTable(py: Builtins, first: string, second: string, req: Request)
    requires ReadsSigned(py) && py.toFloat("1").Some? && py.fromHex("1").Some? && IsSigned(first) && IsSigned(second)
    requires req.xAxis != "" && req.xAxis != "FIO-cmd" && req.mfilter == []
    ensures var rows := [Sample(req.xAxis, first, req.name), Sample(req.xAxis, second, req.name)];
            var plot := AddReports(py, NO_PLOT, rows, req);
            plot.Returned? && plot.value.xs == [SignedValue(first), SignedValue(second)]
  {
    var x, y := Sample(req.xAxis, first, req.name), Sample(req.xAxis, second, req.name);
    SampleRow(py, NO_PLOT, first, req);
    var once := AddReport(py, NO_PLOT, x, req).value;
    SampleRow(py, once, second, req);
    assert [x, y][1..] == [y] && [y][1..] == [];
    assert AddReports(py, NO_PLOT, [x, y], req) == AddReports(py, once, [y], req);
    assert AddReports(py, once, [y], req) == AddReport(py, once, y, req);
  }

  /** Two reports give a plot with their two x values in natural order. */
  lemma {:induction false} TwoSamples(py: Builtins, a: string, b: string, req: Request)
    requires ReadsSigned(py) && py.toFloat("1").Some? && py.fromHex("1").Some? && IsSigned(a) && IsSigned(b)
    requires req.xAxis != "" && req.xAxis != "FIO-cmd" && req.mfilter == []
    ensures var plot := PlotFor(py, [Sample(req.xAxis, a, req.name), Sample(req.xAxis, b, req.name)], req);
            plot.Returned? && plot.value.xs == if Before(b, a) then [SignedValue(b), SignedValue(a)]
                                               else [SignedValue(a), SignedValue(b)]
  {
    SampleRows(py, a, b, req);
    SampleTable(py, a, b, req);
    SampleTable(py, b, a, req);
  }

  lemma {:induction false} SortTwo<T>(x: Keyed<T>, y: Keyed<T>)
    ensures Sorted([x, y]) == if Before(y.value, x.value) then [y, x] else [x, y]
  {
    assert [x, y][1..] == [y] && [y][1..] == [];
    assert Sorted([y]) == [y];
    assert Insert(x, []) == [x];
  }

  /** Negative numbers sort by their digits alone, so the larger one is drawn first. */
  lemma {:induction false} NegativesReversed(py: Builtins, name: string)
    requires ReadsSigned(py) && py.toFloat("1").Some? && py.fromHex("1").Some?
    ensures var plot := PlotFor(py, [Sample("Depth", "-5", name), Sample("Depth", "-3", name)],
                                Request(name, "Depth", []));
            plot.Returned? && plot.value.xs == [-3, -5]
  {
    assert Unsigned("-5") == "5" && Unsigned("-3") == "3" && Sign("-5") == "-" && Sign("-3") == "-";
    assert "5"[..0] == "" && "3"[..0] == "" && ToInt("5") == 5 && ToInt("3") == 3;
    SignedBefore("-3", "-5");
    TwoSamples(py, "-5", "-3", Request(name, "Depth", []));
  }

  /** Two reports with the same x value: the second one is left over behind the range. */
  lemma {:induction false} SharedXLeftOver(py: Builtins, name: string, value: string)
    requires ReadsSigned(py) && py.toFloat("1").Some? && py.fromHex("1").Some? && IsNumeral(value)
    ensures var plot := PlotFor(py, [Sample("Depth", value, name), Sample("Depth", value, name)],
                                Request(name, "Depth", []));
            plot.Returned? && plot.value.xs == [ToInt(value), ToInt(value)]
    ensures var x := ToInt(value);
            GapFill.FillX(0, GapFill.Max([x, x]), [x, x]) == GapFill.Range(0, x) + [x] && !Gapless([x, x])
  {
    assert IsDigit(value[0]) && Unsigned(value) == value && Sign(value) == "";
    TwoSamples(py, value, value, Request(name, "Depth", []));
    GapFill.RepeatedPoint(ToInt(value), [ToInt(value), ToInt(value)]);
  }
}
