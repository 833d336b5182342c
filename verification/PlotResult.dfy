/**
 * When a plot is returned, and what its headers and rows are (scripts/perf.py, plot_one and
 * report_get_point), in terms of what the reports say.
 */
module PlotResult {
  import opened Text
  import opened Sequences
  import opened NaturalSort
  import opened Perf

  // ---- Dictionaries ----

  /** In a dictionary a key has a value exactly when they are together. */
  lemma {:induction false} GetIff(d: Dict, key: string, value: string)
    requires Distinct(d)
    ensures Get(d, key) == Some(value) <==> (key, value) in d
  {
    if (key, value) in d {
      var i :| 0 <= i < |d| && d[i] == (key, value);
      GetAt(d, i);
    }
    if Get(d, key).Some? {
      var i := GetFound(d, key);
    }
  }

  lemma {:induction false} GetFound(d: Dict, key: string) returns (i: nat)
    requires Get(d, key).Some?
    ensures i < |d| && d[i] == (key, Get(d, key).value)
  {
    if d[0].0 == key {
      i := 0;
    } else {
      i := GetFound(d[1..], key);
      i := i + 1;
    }
  }

  predicate IsShown(key: string, mfilter: Dict) {
    key != "FIO-cmd" && key !in Keys(mfilter)
  }

  /** The keys that a row shows: all but the command and the filter keys, in their order. */
  function Visible(d: Dict, mfilter: Dict): Dict {
    if d == [] then [] else (if IsShown(d[0].0, mfilter) then [d[0]] else []) + Visible(d[1..], mfilter)
  }

  lemma {:induction false} PopAllNone(keys: seq<string>)
    ensures PopAll([], keys) == []
  {
    if keys != [] {
      PopAllNone(keys[1..]);
    }
  }

  lemma {:induction false} PopAllCons(entry: (string, string), rest: Dict, keys: seq<string>)
    ensures PopAll([entry] + rest, keys) == (if entry.0 in keys then [] else [entry]) + PopAll(rest, keys)
    decreases |keys|
  {
    if keys != [] {
      var d := [entry] + rest;
      assert d[1..] == rest && keys == [keys[0]] + keys[1..];
      if entry.0 == keys[0] {
        assert Pop(d, keys[0]) == Pop(rest, keys[0]);
      } else {
        assert Pop(d, keys[0]) == [entry] + Pop(rest, keys[0]);
        PopAllCons(entry, Pop(rest, keys[0]), keys[1..]);
      }
    }
  }

  /** What is left after the pops is what is shown. */
  lemma {:induction false} ShownIsVisible(d: Dict, mfilter: Dict)
    ensures Shown(d, mfilter) == Visible(d, mfilter)
  {
    if d == [] {
      PopAllNone(Keys(mfilter));
    } else {
      ShownIsVisible(d[1..], mfilter);
      if d[0].0 != "FIO-cmd" {
        PopAllCons(d[0], Pop(d[1..], "FIO-cmd"), Keys(mfilter));
      }
    }
  }

  // ---- The measured value ----

  /** Exactly one result has the name, and it has exactly one value. */
  ghost predicate MeasuredAt(results: seq<Measurement>, name: string, m: Measured, i: nat) {
    && i < |results| && results[i] == Measurement(name, [m])
    && forall j :: 0 <= j < |results| && j != i ==> results[j].name != name
  }

  lemma {:induction false} NamedNone(results: seq<Measurement>, name: string)
    ensures Named(results, name) == [] <==> forall j :: 0 <= j < |results| ==> results[j].name != name
  {
    if results != [] {
      NamedNone(results[1..], name);
      assert forall j :: 1 <= j < |results| ==> results[j] == results[1..][j - 1];
    }
  }

  lemma {:induction false} NamedOne(results: seq<Measurement>, name: string) returns (i: nat)
    requires |Named(results, name)| == 1
    ensures i < |results| && results[i] == Named(results, name)[0]
    ensures results[i].name == name && forall j :: 0 <= j < |results| && j != i ==> results[j].name != name
  {
    var rest := results[1..];
    assert forall j :: 1 <= j < |results| ==> results[j] == rest[j - 1];
    if results[0].name == name {
      NamedNone(rest, name);
      i := 0;
    } else {
      i := NamedOne(rest, name);
      i := i + 1;
    }
  }

  lemma {:induction false} NamedAt(results: seq<Measurement>, name: string, m: Measured, i: nat)
    requires MeasuredAt(results, name, m, i)
    ensures Named(results, name) == [results[i]]
    decreases i
  {
    var rest := results[1..];
    assert forall j :: 1 <= j < |results| ==> results[j] == rest[j - 1];
    if i == 0 {
      NamedNone(rest, name);
    } else {
      NamedAt(rest, name, m, i - 1);
    }
  }

  /** A value is taken exactly when it is the only one of the only result with the name. */
  lemma {:induction false} MeasuredIff(results: seq<Measurement>, name: string, m: Measured)
    ensures MeasuredValue(results, name) == Returned(m) <==> exists i: nat :: MeasuredAt(results, name, m, i)
  {
    if MeasuredValue(results, name) == Returned(m) {
      var i := NamedOne(results, name);
      assert results[i].values == [m];
      assert MeasuredAt(results, name, m, i);
    }
    if i: nat :| MeasuredAt(results, name, m, i) {
      NamedAt(results, name, m, i);
    }
  }

  // ---- One row ----

  ghost predicate Measures(results: seq<Measurement>, name: string, m: Measured) {
    exists i: nat :: MeasuredAt(results, name, m, i)
  }

  /** The text of the x column for the n-th row. */
  function XText(py: Builtins, report: Content, req: Request, n: nat): Option<string> {
    if req.xAxis == "" then Some(py.str(n)) else Get(Visible(report.keys, req.mfilter), req.xAxis)
  }

  function FirstHeader(req: Request): string {
    if req.xAxis == "" then "Measurement#" else req.xAxis
  }

  /** The headers, x text and measured value that a report gives the n-th row. */
  ghost predicate Gives(py: Builtins, report: Content, req: Request, n: nat, headers: seq<string>, x: string,
                        m: Measured) {
    && Measures(report.results, req.name, m)
    && XText(py, report, req, n) == Some(x)
    && py.fromHex(m.multiplier).Some?
    && headers == [FirstHeader(req),
                   req.name + " (" + m.units + " * " + py.fromHex(m.multiplier).value + ")"]
                  + Keys(Visible(report.keys, req.mfilter))
  }

  lemma {:induction false} PointIff(py: Builtins, report: Content, req: Request, n: nat, headers: seq<string>,
                                    x: string, m: Measured)
    requires MeasuredValue(report.results, req.name) == Returned(m)
    ensures GetPoint(py, report, req, n) == Returned(Point(x, m.value, headers))
       <==> Gives(py, report, req, n, headers, x, m)
  {
    MeasuredIff(report.results, req.name, m);
    ShownIsVisible(report.keys, req.mfilter);
  }

  /** The report gives the n-th row under these headers, with numbers to draw. */
  ghost predicate GivesRow(py: Builtins, report: Content, req: Request, n: nat, headers: seq<string>) {
    exists x, m ::
      Gives(py, report, req, n, headers, x, m) && py.toInt(x).Some? && py.toFloat(m.value).Some?
  }

  /** The same, as the code finds out. */
  predicate RowFits(py: Builtins, report: Content, req: Request, n: nat, headers: seq<string>) {
    var point := GetPoint(py, report, req, n);
    && point.Returned? && point.value.headers == headers
    && py.toInt(point.value.x).Some? && py.toFloat(point.value.y).Some?
  }

  lemma {:induction false} RowFitsIff(py: Builtins, report: Content, req: Request, n: nat, headers: seq<string>)
    ensures RowFits(py, report, req, n, headers) <==> GivesRow(py, report, req, n, headers)
  {
    var measured := MeasuredValue(report.results, req.name);
    if RowFits(py, report, req, n, headers) {
      var point := GetPoint(py, report, req, n).value;
      PointIff(py, report, req, n, headers, point.x, measured.value);
      assert Gives(py, report, req, n, headers, point.x, measured.value);
    }
    if x, m :| Gives(py, report, req, n, headers, x, m) && py.toInt(x).Some? && py.toFloat(m.value).Some? {
      MeasuredIff(report.results, req.name, m);
      PointIff(py, report, req, n, headers, x, m);
    }
  }

  // ---- All rows ----

  predicate RowsFit(py: Builtins, reports: seq<Content>, req: Request, n: nat, headers: seq<string>) {
    forall k :: 0 <= k < |reports| ==> RowFits(py, reports[k], req, n + k, headers)
  }

  lemma {:induction false} RowsFitCons(py: Builtins, reports: seq<Content>, req: Request, n: nat, headers: seq<string>)
    requires reports != []
    ensures RowsFit(py, reports, req, n, headers)
       <==> RowFits(py, reports[0], req, n, headers) && RowsFit(py, reports[1..], req, n + 1, headers)
  {
    var rest := reports[1..];
    if RowsFit(py, reports, req, n, headers) {
      forall k | 0 <= k < |rest| ensures RowFits(py, rest[k], req, n + 1 + k, headers) {
        assert RowFits(py, reports[k + 1], req, n + (k + 1), headers);
      }
      assert RowFits(py, reports[0], req, n + 0, headers);
    }
    if RowFits(py, reports[0], req, n, headers) && RowsFit(py, rest, req, n + 1, headers) {
      forall k | 0 <= k < |reports| ensures RowFits(py, reports[k], req, n + k, headers) {
        if k > 0 {
          assert RowFits(py, rest[k - 1], req, n + 1 + (k - 1), headers);
        }
      }
    }
  }

  predicate Continuing(plot: Perf.Plot, headers: seq<string>) {
    plot.headers != [] ==> headers == plot.headers
  }

  lemma {:induction false} ReportAdded(py: Builtins, plot: Perf.Plot, report: Content, req: Request, more: Perf.Plot)
    requires SameSizes(plot) && AddReport(py, plot, report, req) == Returned(more)
    ensures SameSizes(more) && |more.table| == |plot.table| + 1
    ensures RowFits(py, report, req, |plot.table| + 1, more.headers)
    ensures more.headers != [] && Continuing(plot, more.headers)
  {
  }

  lemma {:induction false} ReportFits(py: Builtins, plot: Perf.Plot, report: Content, req: Request,
                                      headers: seq<string>)
    returns (more: Perf.Plot)
    requires SameSizes(plot) && RowFits(py, report, req, |plot.table| + 1, headers) && Continuing(plot, headers)
    ensures AddReport(py, plot, report, req) == Returned(more) && more.headers == headers
    ensures SameSizes(more) && |more.table| == |plot.table| + 1
  {
    more := AddReport(py, plot, report, req).value;
  }

  /** The rows that were added fit the headers of the plot. */
  lemma {:induction false} ReportsAdded(py: Builtins, plot: Perf.Plot, reports: seq<Content>, req: Request,
                                        end: Perf.Plot)
    requires SameSizes(plot) && AddReports(py, plot, reports, req) == Returned(end)
    ensures RowsFit(py, reports, req, |plot.table| + 1, end.headers) && Continuing(plot, end.headers)
    decreases |reports|
  {
    if reports != [] {
      var more := AddReport(py, plot, reports[0], req).value;
      ReportAdded(py, plot, reports[0], req, more);
      ReportsAdded(py, more, reports[1..], req, end);
      RowsFitCons(py, reports, req, |plot.table| + 1, end.headers);
    }
  }

  /** Rows that fit the same headers are added. */
  lemma {:induction false} ReportsFit(py: Builtins, plot: Perf.Plot, reports: seq<Content>, req: Request,
                                      headers: seq<string>)
    requires SameSizes(plot) && RowsFit(py, reports, req, |plot.table| + 1, headers) && Continuing(plot, headers)
    ensures AddReports(py, plot, reports, req).Returned?
    decreases |reports|
  {
    if reports != [] {
      RowsFitCons(py, reports, req, |plot.table| + 1, headers);
      var more := ReportFits(py, plot, reports[0], req, headers);
      ReportsFit(py, more, reports[1..], req, headers);
    }
  }

  lemma {:induction false} AxisGiven(py: Builtins, report: Content, req: Request, n: nat, headers: seq<string>)
    requires req.xAxis != "" && RowFits(py, report, req, n, headers)
    ensures Get(report.keys, req.xAxis).Some?
    ensures forall k: nat :: RowFits(py, report, req, k, headers)
  {
    ShownGet(report.keys, req.mfilter, req.xAxis);
  }

  lemma {:induction false} KeyedByIff(reports: seq<Content>, xAxis: string)
    ensures KeyedBy(reports, xAxis).Returned? <==> AllHave(reports, xAxis)
  {
    if reports != [] {
      KeyedByIff(reports[1..], xAxis);
      assert reports == [reports[0]] + reports[1..];
    }
  }

  /** With an axis the order of the rows does not matter to whether they fit. */
  lemma {:induction false} RowsFitPermuted(py: Builtins, a: seq<Content>, b: seq<Content>, req: Request,
                                           headers: seq<string>)
    requires req.xAxis != "" && multiset(a) == multiset(b) && RowsFit(py, a, req, 1, headers)
    ensures RowsFit(py, b, req, 1, headers) && AllHave(b, req.xAxis)
  {
    forall k | 0 <= k < |b|
      ensures RowFits(py, b[k], req, 1 + k, headers) && Get(b[k].keys, req.xAxis).Some?
    {
      assert b[k] in multiset(a);
      var i :| 0 <= i < |a| && a[i] == b[k];
      assert RowFits(py, a[i], req, 1 + i, headers);
      AxisGiven(py, a[i], req, 1 + i, headers);
    }
  }

  lemma {:induction false} RowsOfKept(py: Builtins, reports: seq<Content>, req: Request)
    requires Filtered(py, reports, req.mfilter).Returned?
    ensures var kept := Kept(py, reports, req.mfilter);
            && (req.xAxis == "" ==> Rows(py, reports, req) == Returned(kept))
            && (req.xAxis != "" ==> (Rows(py, reports, req).Returned? <==> AllHave(kept, req.xAxis)))
            && (Rows(py, reports, req).Returned? ==> multiset(Rows(py, reports, req).value) == multiset(kept))
  {
    FilteredIsKept(py, reports, req.mfilter);
    KeyedByIff(Kept(py, reports, req.mfilter), req.xAxis);
    if req.xAxis != "" && Rows(py, reports, req).Returned? {
      RowsAreSorted(py, reports, req);
    }
  }

  lemma {:induction false} KeptRowsFit(py: Builtins, reports: seq<Content>, req: Request, headers: seq<string>)
    requires Filtered(py, reports, req.mfilter).Returned?
    ensures RowsFit(py, Kept(py, reports, req.mfilter), req, 1, headers)
       <==> Rows(py, reports, req).Returned? && RowsFit(py, Rows(py, reports, req).value, req, 1, headers)
  {
    RowsOfKept(py, reports, req);
    var kept := Kept(py, reports, req.mfilter);
    if req.xAxis != "" {
      if RowsFit(py, kept, req, 1, headers) {
        RowsFitPermuted(py, kept, kept, req, headers);
        RowsFitPermuted(py, kept, Rows(py, reports, req).value, req, headers);
      }
      if Rows(py, reports, req).Returned? && RowsFit(py, Rows(py, reports, req).value, req, 1, headers) {
        RowsFitPermuted(py, Rows(py, reports, req).value, kept, req, headers);
      }
    }
  }

  /** Some reports give rows under the same headers. */
  ghost predicate GiveRows(py: Builtins, reports: seq<Content>, req: Request, headers: seq<string>) {
    forall k :: 0 <= k < |reports| ==> GivesRow(py, reports[k], req, k + 1, headers)
  }

  lemma {:induction false} GiveRowsIff(py: Builtins, reports: seq<Content>, req: Request, headers: seq<string>)
    ensures RowsFit(py, reports, req, 1, headers) <==> GiveRows(py, reports, req, headers)
  {
    forall k | 0 <= k < |reports|
      ensures RowFits(py, reports[k], req, 1 + k, headers) <==> GivesRow(py, reports[k], req, k + 1, headers)
    {
      RowFitsIff(py, reports[k], req, k + 1, headers);
    }
  }

  lemma {:induction false} AddedGives(py: Builtins, reports: seq<Content>, req: Request, rows: seq<Content>,
                                      plot: Perf.Plot)
    requires Filtered(py, reports, req.mfilter).Returned? && Rows(py, reports, req) == Returned(rows)
    requires AddReports(py, NO_PLOT, rows, req) == Returned(plot)
    ensures GiveRows(py, Kept(py, reports, req.mfilter), req, plot.headers)
  {
    ReportsAdded(py, NO_PLOT, rows, req, plot);
    assert RowsFit(py, rows, req, 1, plot.headers);
    KeptRowsFit(py, reports, req, plot.headers);
    GiveRowsIff(py, Kept(py, reports, req.mfilter), req, plot.headers);
  }

  lemma {:induction false} GivesAdded(py: Builtins, reports: seq<Content>, req: Request, headers: seq<string>)
    requires Filtered(py, reports, req.mfilter).Returned?
    requires GiveRows(py, Kept(py, reports, req.mfilter), req, headers)
    ensures PlotFor(py, reports, req).Returned?
  {
    GiveRowsIff(py, Kept(py, reports, req.mfilter), req, headers);
    KeptRowsFit(py, reports, req, headers);
    ReportsFit(py, NO_PLOT, Rows(py, reports, req).value, req, headers);
  }

  /** The matching reports give rows under the same headers. */
  ghost predicate SameHeaders(py: Builtins, reports: seq<Content>, req: Request) {
    exists headers :: GiveRows(py, Kept(py, reports, req.mfilter), req, headers)
  }

  /**
   * A plot is returned exactly when no matching report misses a filter key, and all matching
   * reports have one value under the name, the axis among their shown keys, readable numbers,
   * and the same headers.
   */
  lemma {:induction false} PlotReturnedIff(py: Builtins, reports: seq<Content>, req: Request)
    ensures PlotFor(py, reports, req).Returned?
       <==> FilterFits(py, reports, req.mfilter) && SameHeaders(py, reports, req)
  {
    FilteredReturnedIff(py, reports, req.mfilter);
    if PlotFor(py, reports, req).Returned? {
      var plot := PlotFor(py, reports, req).value;
      AddedGives(py, reports, req, Rows(py, reports, req).value, plot);
      assert SameHeaders(py, reports, req);
    }
    if FilterFits(py, reports, req.mfilter) && SameHeaders(py, reports, req) {
      var headers :| GiveRows(py, Kept(py, reports, req.mfilter), req, headers);
      GivesAdded(py, reports, req, headers);
    }
  }

  /** A row of a plot is what its report gives: x text, value, and all that is shown. */
  ghost predicate RowIs(py: Builtins, plot: Perf.Plot, i: nat, report: Content, req: Request) {
    && i < |plot.table| == |plot.xs| == |plot.ys|
    && exists x, m ::
         && Gives(py, report, req, i + 1, plot.headers, x, m)
         && plot.table[i] == [x, m.value] + Values(Visible(report.keys, req.mfilter))
         && Some(plot.xs[i]) == py.toInt(x) && Some(plot.ys[i]) == py.toFloat(m.value)
  }

  lemma {:induction false} MadeIs(py: Builtins, plot: Perf.Plot, i: nat, report: Content, req: Request)
    requires RowMade(py, plot, i, report, req)
    ensures RowIs(py, plot, i, report, req)
  {
    var point, m := GetPoint(py, report, req, i + 1).value, MeasuredValue(report.results, req.name).value;
    PointIff(py, report, req, i + 1, plot.headers, point.x, m);
    ShownIsVisible(report.keys, req.mfilter);
    assert Gives(py, report, req, i + 1, plot.headers, point.x, m);
  }

  /** Every row of a returned plot is what the report in its place gives. */
  lemma {:induction false} RowsAre(py: Builtins, reports: seq<Content>, req: Request)
    requires PlotFor(py, reports, req).Returned?
    ensures var plot, rows := PlotFor(py, reports, req).value, Rows(py, reports, req).value;
            && |plot.table| == |plot.xs| == |plot.ys| == |rows|
            && forall i :: 0 <= i < |rows| ==> RowIs(py, plot, i, rows[i], req)
  {
    var plot, rows := PlotFor(py, reports, req).value, Rows(py, reports, req).value;
    PlotGrows(py, NO_PLOT, rows, req);
    forall i | 0 <= i < |rows| ensures RowIs(py, plot, i, rows[i], req) {
      RowAt(py, NO_PLOT, rows, req, i, plot, i);
      MadeIs(py, plot, i, rows[i], req);
    }
  }
}
