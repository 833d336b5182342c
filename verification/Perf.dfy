/** Building the table of one plot from performance reports (scripts/perf.py, plot_one). */
module Perf {
  import opened Text
  import opened Sequences
  import opened NaturalSort

  /** A call that returns or raises. */
  datatype Py<+T> = Returned(value: T) | Raised {
    predicate IsFailure() {
      Raised?
    }

    function PropagateFailure<U>(): Py<U>
      requires Raised?
    {
      Raised
    }

    function Extract(): T
      requires Returned?
    {
      value
    }
  }

  /** The conversions of the Python library that the script uses; None stands for ValueError. */
  datatype Builtins = Builtins(
    lower: string -> string,
    toInt: string -> Option<int>,
    toFloat: string -> Option<real>,
    fromHex: string -> Option<string>,
    str: nat -> string
  )

  // ---- Dictionaries, in insertion order ----

  type Dict = seq<(string, string)>

  predicate Distinct(d: Dict) {
    forall i, j :: 0 <= i < j < |d| ==> d[i].0 != d[j].0
  }

  function Get(d: Dict, key: string): Option<string> {
    if d == [] then None else if d[0].0 == key then Some(d[0].1) else Get(d[1..], key)
  }

  /** pop(key, None): the dictionary without the key. */
  function Pop(d: Dict, key: string): Dict {
    if d == [] then []
    else if d[0].0 == key then Pop(d[1..], key)
    else [d[0]] + Pop(d[1..], key)
  }

  function PopAll(d: Dict, keys: seq<string>): Dict
    decreases |keys|
  {
    if keys == [] then d else PopAll(Pop(d, keys[0]), keys[1..])
  }

  function Keys(d: Dict): (r: seq<string>)
    ensures |r| == |d|
    ensures forall i :: 0 <= i < |d| ==> r[i] == d[i].0
  {
    seq(|d|, i requires 0 <= i < |d| => d[i].0)
  }

  function Values(d: Dict): (r: seq<string>)
    ensures |r| == |d|
    ensures forall i :: 0 <= i < |d| ==> r[i] == d[i].1
  {
    seq(|d|, i requires 0 <= i < |d| => d[i].1)
  }

  /** The keys of a report that its row shows. */
  function Shown(keys: Dict, mfilter: Dict): Dict {
    PopAll(Pop(keys, "FIO-cmd"), Keys(mfilter))
  }

  // ---- Reports ----

  datatype Measured = Measured(value: string, units: string, multiplier: string)

  datatype Measurement = Measurement(name: string, values: seq<Measured>)

  /** What a report says, apart from its identity. */
  datatype Content = Content(keys: Dict, results: seq<Measurement>)

  class Report {
    var keys: Dict
    const results: seq<Measurement>

    constructor (keys: Dict, results: seq<Measurement>)
      ensures this.keys == keys && this.results == results
    {
      this.keys := keys;
      this.results := results;
    }
  }

  function ContentOf(r: Report): Content
    reads r
  {
    Content(r.keys, r.results)
  }

  function Named(results: seq<Measurement>, name: string): seq<Measurement> {
    if results == [] then []
    else (if results[0].name == name then [results[0]] else []) + Named(results[1..], name)
  }

  /** The single value measured under a name. */
  function MeasuredValue(results: seq<Measurement>, name: string): Py<Measured> {
    var found := Named(results, name);
    if |found| != 1 || |found[0].values| != 1 then Raised else Returned(found[0].values[0])
  }

  datatype Point = Point(x: string, y: string, headers: seq<string>)

  /** What plots are made for: the measurement, the x axis ("" for none) and the filter. */
  datatype Request = Request(name: string, xAxis: string, mfilter: Dict)

  function XValue(py: Builtins, shown: Dict, xAxis: string, count: nat): Py<string> {
    if xAxis == "" then Returned(py.str(count))
    else match Get(shown, xAxis)
         case None => Raised
         case Some(x) => Returned(x)
  }

  /** The point of the count-th report. */
  function GetPoint(py: Builtins, report: Content, req: Request, count: nat): Py<Point> {
    var measured :- MeasuredValue(report.results, req.name);
    var shown := Shown(report.keys, req.mfilter);
    var x :- XValue(py, shown, req.xAxis, count);
    match py.fromHex(measured.multiplier)
    case None => Raised
    case Some(multiplier) =>
      var first := if req.xAxis == "" then "Measurement#" else req.xAxis;
      var second := req.name + " (" + measured.units + " * " + multiplier + ")";
      Returned(Point(x, measured.value, [first, second] + Keys(shown)))
  }

  /** The headers, the rows, and the points to draw. */
  datatype Plot = Plot(headers: seq<string>, table: seq<seq<string>>, xs: seq<int>, ys: seq<real>)

  const NO_PLOT := Plot([], [], [], [])

  /** The plot with the row and the point of one more report. */
  function AddReport(py: Builtins, plot: Plot, report: Content, req: Request): Py<Plot> {
    match GetPoint(py, report, req, |plot.table| + 1)
    case Raised => Raised
    case Returned(point) => AddPoint(py, plot, point, Values(Shown(report.keys, req.mfilter)))
  }

  function AddPoint(py: Builtins, plot: Plot, point: Point, values: seq<string>): Py<Plot> {
    if plot.headers != [] && plot.headers != point.headers then Raised
    else
      var x, y := py.toInt(point.x), py.toFloat(point.y);
      if x == None || y == None then Raised
      else Returned(Plot(point.headers, plot.table + [[point.x, point.y] + values],
                         plot.xs + [x.value], plot.ys + [y.value]))
  }

  function AddReports(py: Builtins, plot: Plot, reports: seq<Content>, req: Request): Py<Plot>
    decreases |reports|
  {
    if reports == [] then Returned(plot)
    else
      match AddReport(py, plot, reports[0], req)
      case Raised => Raised
      case Returned(more) => AddReports(py, more, reports[1..], req)
  }

  // ---- Choosing and sorting reports ----

  /** The reports whose value for a key is the wanted one, whatever the case of letters. */
  function Matching(py: Builtins, reports: seq<Content>, key: string, value: string): Py<seq<Content>> {
    if reports == [] then Returned([])
    else
      match Get(reports[0].keys, key)
      case None => Raised
      case Some(v) =>
        match Matching(py, reports[1..], key, value)
        case Raised => Raised
        case Returned(rest) =>
          Returned((if py.lower(v) == py.lower(value) then [reports[0]] else []) + rest)
  }

  /** The reports that match every key of the filter. */
  function Filtered(py: Builtins, reports: seq<Content>, mfilter: Dict): Py<seq<Content>>
    decreases |mfilter|
  {
    if mfilter == [] then Returned(reports)
    else
      match Matching(py, reports, mfilter[0].0, mfilter[0].1)
      case Raised => Raised
      case Returned(kept) => Filtered(py, kept, mfilter[1..])
  }

  /** The reports that are not kept from a plot by its filter. */
  predicate Matches(py: Builtins, report: Content, mfilter: Dict) {
    forall i :: 0 <= i < |mfilter| ==>
      var v := Get(report.keys, mfilter[i].0);
      v.Some? && py.lower(v.value) == py.lower(mfilter[i].1)
  }

  /** The values to sort by. */
  function KeyedBy(reports: seq<Content>, xAxis: string): (keyed: Py<seq<Keyed<Content>>>)
    ensures keyed.Returned? ==> |keyed.value| == |reports| && forall i :: 0 <= i < |reports| ==>
              keyed.value[i].item == reports[i] && Get(reports[i].keys, xAxis) == Some(keyed.value[i].value)
  {
    if reports == [] then Returned([])
    else
      match Get(reports[0].keys, xAxis)
      case None => Raised
      case Some(v) =>
        match KeyedBy(reports[1..], xAxis)
        case Raised => Raised
        case Returned(rest) => Returned([Keyed(v, reports[0])] + rest)
  }

  function Items<T>(s: seq<Keyed<T>>): (r: seq<T>)
    ensures |r| == |s|
    ensures forall i :: 0 <= i < |s| ==> r[i] == s[i].item
  {
    seq(|s|, i requires 0 <= i < |s| => s[i].item)
  }

  /** The reports in the order of their rows. */
  function InOrder(reports: seq<Content>, xAxis: string): Py<seq<Content>> {
    if xAxis == "" then Returned(reports)
    else match KeyedBy(reports, xAxis)
         case Raised => Raised
         case Returned(keyed) => Returned(Items(Sorted(keyed)))
  }

  /** What plot_one returns for some reports. */
  function PlotFor(py: Builtins, reports: seq<Content>, req: Request): Py<Plot> {
    match Rows(py, reports, req)
    case Raised => Raised
    case Returned(ordered) => AddReports(py, NO_PLOT, ordered, req)
  }

  /** The reports of the plot in the order of its rows. */
  function Rows(py: Builtins, reports: seq<Content>, req: Request): Py<seq<Content>> {
    match Filtered(py, reports, req.mfilter)
    case Raised => Raised
    case Returned(kept) => InOrder(kept, req.xAxis)
  }

  // ---- Facts about dictionaries ----

  lemma {:induction false} PopGet(d: Dict, key: string, other: string)
    ensures Get(Pop(d, key), other) == if other == key then None else Get(d, other)
  {
    if d != [] {
      PopGet(d[1..], key, other);
      if d[0].0 != key {
        assert Pop(d, key)[1..] == Pop(d[1..], key);
      }
    }
  }

  lemma {:induction false} PopAllGet(d: Dict, keys: seq<string>, other: string)
    ensures Get(PopAll(d, keys), other) == if other in keys then None else Get(d, other)
    decreases |keys|
  {
    if keys != [] {
      PopAllGet(Pop(d, keys[0]), keys[1..], other);
      PopGet(d, keys[0], other);
      assert keys == [keys[0]] + keys[1..];
    }
  }

  lemma {:induction false} GetNone(d: Dict, key: string)
    ensures Get(d, key) == None <==> forall i :: 0 <= i < |d| ==> d[i].0 != key
  {
    if d != [] {
      GetNone(d[1..], key);
      assert forall i :: 1 <= i < |d| ==> d[i] == d[1..][i - 1];
    }
  }

  lemma {:induction false} GetAt(d: Dict, i: nat)
    requires Distinct(d) && i < |d|
    ensures Get(d, d[i].0) == Some(d[i].1)
  {
    if i > 0 {
      assert d[i] == d[1..][i - 1] && d[0].0 != d[i].0;
      GetAt(d[1..], i - 1);
    }
  }

  lemma {:induction false} PopDistinct(d: Dict, key: string)
    requires Distinct(d)
    ensures Distinct(Pop(d, key))
  {
    if d != [] {
      PopDistinct(d[1..], key);
      if d[0].0 != key {
        var rest := Pop(d[1..], key);
        GetNone(d[1..], d[0].0);
        PopGet(d[1..], key, d[0].0);
        GetNone(rest, d[0].0);
        assert forall i :: 1 <= i < |Pop(d, key)| ==> Pop(d, key)[i] == rest[i - 1];
      }
    }
  }

  lemma {:induction false} PopAllDistinct(d: Dict, keys: seq<string>)
    requires Distinct(d)
    ensures Distinct(PopAll(d, keys))
    decreases |keys|
  {
    if keys != [] {
      PopDistinct(d, keys[0]);
      PopAllDistinct(Pop(d, keys[0]), keys[1..]);
    }
  }

  /** Popping what is not there changes nothing. */
  lemma {:induction false} PopAbsent(d: Dict, key: string)
    requires Get(d, key) == None
    ensures Pop(d, key) == d
  {
    if d != [] {
      PopAbsent(d[1..], key);
    }
  }

  lemma {:induction false} PopAllAbsent(d: Dict, keys: seq<string>)
    requires forall k :: k in keys ==> Get(d, k) == None
    ensures PopAll(d, keys) == d
  {
    if keys != [] {
      assert keys[0] in keys;
      PopAbsent(d, keys[0]);
      assert forall k :: k in keys[1..] ==> k in keys;
      PopAllAbsent(d, keys[1..]);
    }
  }

  /** A report that was shown once shows the same again. */
  lemma {:induction false} ShownAgain(keys: Dict, mfilter: Dict)
    ensures Shown(Shown(keys, mfilter), mfilter) == Shown(keys, mfilter)
  {
    var shown := Shown(keys, mfilter);
    var popped := Pop(keys, "FIO-cmd");
    PopAllGet(popped, Keys(mfilter), "FIO-cmd");
    PopGet(keys, "FIO-cmd", "FIO-cmd");
    PopAbsent(shown, "FIO-cmd");
    forall k | k in Keys(mfilter) ensures Get(shown, k) == None {
      PopAllGet(popped, Keys(mfilter), k);
    }
    PopAllAbsent(shown, Keys(mfilter));
  }

  /** Shown keys keep their values, and neither the command nor a filter key is shown. */
  lemma {:induction false} ShownGet(keys: Dict, mfilter: Dict, key: string)
    ensures Get(Shown(keys, mfilter), key)
         == if key == "FIO-cmd" || key in Keys(mfilter) then None else Get(keys, key)
  {
    PopAllGet(Pop(keys, "FIO-cmd"), Keys(mfilter), key);
    PopGet(keys, "FIO-cmd", key);
  }

  // ---- Which rows, in which order ----

  /** The reports that match the whole filter, in their order. */
  function Kept(py: Builtins, reports: seq<Content>, mfilter: Dict): seq<Content> {
    if reports == [] then []
    else (if Matches(py, reports[0], mfilter) then [reports[0]] else []) + Kept(py, reports[1..], mfilter)
  }

  lemma {:induction false} MatchesCons(py: Builtins, report: Content, mfilter: Dict)
    requires mfilter != []
    ensures Matches(py, report, mfilter) <==> Matches(py, report, [mfilter[0]]) && Matches(py, report, mfilter[1..])
  {
    assert forall i :: 1 <= i < |mfilter| ==> mfilter[i] == mfilter[1..][i - 1];
    assert [mfilter[0]][0] == mfilter[0];
  }

  lemma {:induction false} MatchingIsKept(py: Builtins, reports: seq<Content>, key: string, value: string)
    requires Matching(py, reports, key, value).Returned?
    ensures Matching(py, reports, key, value).value == Kept(py, reports, [(key, value)])
  {
    if reports != [] {
      MatchingIsKept(py, reports[1..], key, value);
      assert [(key, value)][0] == (key, value);
    }
  }

  lemma {:induction false} KeptTwice(py: Builtins, reports: seq<Content>, mfilter: Dict)
    requires mfilter != []
    ensures Kept(py, Kept(py, reports, [mfilter[0]]), mfilter[1..]) == Kept(py, reports, mfilter)
  {
    if reports != [] {
      KeptTwice(py, reports[1..], mfilter);
      MatchesCons(py, reports[0], mfilter);
      var once := Kept(py, reports, [mfilter[0]]);
      if Matches(py, reports[0], [mfilter[0]]) {
        assert once[0] == reports[0] && once[1..] == Kept(py, reports[1..], [mfilter[0]]);
      } else {
        assert once == Kept(py, reports[1..], [mfilter[0]]);
      }
    }
  }

  lemma {:induction false} KeptAll(py: Builtins, reports: seq<Content>)
    ensures Kept(py, reports, []) == reports
  {
    if reports != [] {
      KeptAll(py, reports[1..]);
    }
  }

  /** Filtering key by key keeps exactly the reports that match every key. */
  lemma {:induction false} FilteredIsKept(py: Builtins, reports: seq<Content>, mfilter: Dict)
    requires Filtered(py, reports, mfilter).Returned?
    ensures Filtered(py, reports, mfilter).value == Kept(py, reports, mfilter)
    decreases |mfilter|
  {
    if mfilter == [] {
      KeptAll(py, reports);
    } else {
      var kept := Matching(py, reports, mfilter[0].0, mfilter[0].1).value;
      MatchingIsKept(py, reports, mfilter[0].0, mfilter[0].1);
      FilteredIsKept(py, kept, mfilter[1..]);
      KeptTwice(py, reports, mfilter);
    }
  }

  /** The reports are kept in order, each for itself. */
  lemma {:induction false} KeptAppend(py: Builtins, a: seq<Content>, b: seq<Content>, mfilter: Dict)
    ensures Kept(py, a + b, mfilter) == Kept(py, a, mfilter) + Kept(py, b, mfilter)
  {
    if a == [] {
      assert a + b == b;
    } else {
      assert (a + b)[0] == a[0] && (a + b)[1..] == a[1..] + b;
      KeptAppend(py, a[1..], b, mfilter);
      Regroup(if Matches(py, a[0], mfilter) then [a[0]] else [], Kept(py, a[1..], mfilter), Kept(py, b, mfilter));
    }
  }

  /** A report is kept exactly when it is there and matches. */
  lemma {:induction false} KeptIff(py: Builtins, reports: seq<Content>, mfilter: Dict, report: Content)
    ensures report in Kept(py, reports, mfilter) <==> report in reports && Matches(py, report, mfilter)
  {
    if reports != [] {
      assert reports == [reports[0]] + reports[1..];
      KeptIff(py, reports[1..], mfilter, report);
    }
  }

  predicate AllHave(reports: seq<Content>, key: string) {
    forall r :: r in reports ==> Get(r.keys, key).Some?
  }

  lemma {:induction false} MatchingReturnedIff(py: Builtins, reports: seq<Content>, key: string, value: string)
    ensures Matching(py, reports, key, value).Returned? <==> AllHave(reports, key)
  {
    if reports != [] {
      MatchingReturnedIff(py, reports[1..], key, value);
      assert reports == [reports[0]] + reports[1..];
    }
  }

  /** Every report that matches the filter keys before one has that key, too. */
  predicate FilterFits(py: Builtins, reports: seq<Content>, mfilter: Dict) {
    forall i :: 0 <= i < |mfilter| ==> AllHave(Kept(py, reports, mfilter[..i]), mfilter[i].0)
  }

  lemma {:induction false} FilterFitsCons(py: Builtins, reports: seq<Content>, mfilter: Dict)
    requires mfilter != []
    ensures FilterFits(py, reports, mfilter)
       <==> AllHave(reports, mfilter[0].0) && FilterFits(py, Kept(py, reports, [mfilter[0]]), mfilter[1..])
  {
    var first, rest, kept := mfilter[0], mfilter[1..], Kept(py, reports, [mfilter[0]]);
    KeptAll(py, reports);
    assert mfilter[..0] == [];
    forall i | 0 <= i < |rest|
      ensures Kept(py, reports, mfilter[..i + 1]) == Kept(py, kept, rest[..i]) && mfilter[i + 1] == rest[i]
    {
      assert mfilter[..i + 1][0] == first && mfilter[..i + 1][1..] == rest[..i];
      KeptTwice(py, reports, mfilter[..i + 1]);
    }
    if FilterFits(py, reports, mfilter) {
      assert AllHave(Kept(py, reports, mfilter[..0]), mfilter[0].0);
      forall i | 0 <= i < |rest| ensures AllHave(Kept(py, kept, rest[..i]), rest[i].0) {
        assert AllHave(Kept(py, reports, mfilter[..i + 1]), mfilter[i + 1].0);
      }
    }
    if AllHave(reports, first.0) && FilterFits(py, kept, rest) {
      forall i | 0 <= i < |mfilter| ensures AllHave(Kept(py, reports, mfilter[..i]), mfilter[i].0) {
        if i > 0 {
          assert AllHave(Kept(py, kept, rest[..i - 1]), rest[i - 1].0);
        }
      }
    }
  }

  /** Filtering succeeds exactly when no report that is still there misses the next filter key. */
  lemma {:induction false} FilteredReturnedIff(py: Builtins, reports: seq<Content>, mfilter: Dict)
    ensures Filtered(py, reports, mfilter).Returned? <==> FilterFits(py, reports, mfilter)
    decreases |mfilter|
  {
    if mfilter != [] {
      var key, value := mfilter[0].0, mfilter[0].1;
      FilterFitsCons(py, reports, mfilter);
      MatchingReturnedIff(py, reports, key, value);
      if AllHave(reports, key) {
        MatchingIsKept(py, reports, key, value);
        assert (key, value) == mfilter[0];
        FilteredReturnedIff(py, Kept(py, reports, [mfilter[0]]), mfilter[1..]);
      }
    }
  }

  predicate OrderedBy(reports: seq<Content>, xAxis: string) {
    forall i, j :: 0 <= i < j < |reports| ==>
      var x, y := Get(reports[i].keys, xAxis), Get(reports[j].keys, xAxis);
      x.Some? && y.Some? && !Before(y.value, x.value)
  }

  lemma {:induction false} ItemsContents<T>(a: seq<Keyed<T>>, b: seq<Keyed<T>>)
    requires multiset(a) == multiset(b)
    ensures multiset(Items(a)) == multiset(Items(b))
  {
    var item := (x: Keyed<T>) => x.item;
    MapContents(item, a, b);
    assert Items(a) == Map(item, a) && Items(b) == Map(item, b);
  }

  /**
   * The rows of a plot with an x axis are the reports that match the filter, rearranged
   * into the natural order of the axis with ties in their old order.
   */
  lemma {:induction false} RowsAreSorted(py: Builtins, reports: seq<Content>, req: Request)
    requires req.xAxis != "" && Rows(py, reports, req).Returned?
    ensures var rows, kept := Rows(py, reports, req).value, Kept(py, reports, req.mfilter);
            && multiset(rows) == multiset(kept)
            && OrderedBy(rows, req.xAxis)
            && KeyedBy(kept, req.xAxis).Returned?
            && rows == Items(Sorted(KeyedBy(kept, req.xAxis).value))
  {
    FilteredIsKept(py, reports, req.mfilter);
    var kept := Kept(py, reports, req.mfilter);
    var keyed := KeyedBy(kept, req.xAxis).value;
    var sorted := Sorted(keyed);
    SortedIsStableSort(keyed);
    ItemsContents(sorted, keyed);
    assert Items(keyed) == kept;
    forall i | 0 <= i < |sorted| ensures Get(sorted[i].item.keys, req.xAxis) == Some(sorted[i].value) {
      assert sorted[i] in multiset(sorted);
      assert sorted[i] in keyed;
    }
  }

  // ---- The table ----

  /** A row whose cells stand under the right headers. */
  predicate RowAligned(row: seq<string>, headers: seq<string>, report: Content, mfilter: Dict) {
    && |row| == |headers| >= 2
    && forall j :: 2 <= j < |headers| ==>
         && Get(report.keys, headers[j]) == Some(row[j])
         && headers[j] != "FIO-cmd" && headers[j] !in Keys(mfilter)
  }

  /** Row, x and y of a plot belong to the report at the same place. */
  predicate RowOf(py: Builtins, plot: Plot, i: nat, report: Content, req: Request) {
    && i < |plot.table| == |plot.xs| == |plot.ys|
    && RowAligned(plot.table[i], plot.headers, report, req.mfilter)
    && Some(plot.xs[i]) == py.toInt(plot.table[i][0])
    && Some(plot.ys[i]) == py.toFloat(plot.table[i][1])
    && MeasuredValue(report.results, req.name).Returned?
    && plot.table[i][1] == MeasuredValue(report.results, req.name).value.value
    && (req.xAxis != "" ==> plot.headers[0] == req.xAxis && Get(report.keys, req.xAxis) == Some(plot.table[i][0]))
  }

  predicate SameSizes(plot: Plot) {
    |plot.table| == |plot.xs| == |plot.ys|
  }

  lemma {:induction false} ShownRow(keys: Dict, mfilter: Dict, j: nat)
    requires Distinct(keys) && j < |Shown(keys, mfilter)|
    ensures var (key, value) := Shown(keys, mfilter)[j];
            Get(keys, key) == Some(value) && key != "FIO-cmd" && key !in Keys(mfilter)
  {
    PopDistinct(keys, "FIO-cmd");
    PopAllDistinct(Pop(keys, "FIO-cmd"), Keys(mfilter));
    GetAt(Shown(keys, mfilter), j);
    ShownGet(keys, mfilter, Shown(keys, mfilter)[j].0);
  }

  lemma {:induction false} PointAligned(py: Builtins, report: Content, req: Request, count: nat)
    requires Distinct(report.keys) && GetPoint(py, report, req, count).Returned?
    ensures var point := GetPoint(py, report, req, count).value;
            var row := [point.x, point.y] + Values(Shown(report.keys, req.mfilter));
            && RowAligned(row, point.headers, report, req.mfilter)
            && (req.xAxis != "" ==> point.headers[0] == req.xAxis && Get(report.keys, req.xAxis) == Some(row[0]))
  {
    var point := GetPoint(py, report, req, count).value;
    var shown := Shown(report.keys, req.mfilter);
    var row := [point.x, point.y] + Values(shown);
    forall j | 2 <= j < |point.headers|
      ensures Get(report.keys, point.headers[j]) == Some(row[j])
      ensures point.headers[j] != "FIO-cmd" && point.headers[j] !in Keys(req.mfilter)
    {
      ShownRow(report.keys, req.mfilter, j - 2);
      assert point.headers[j] == Keys(shown)[j - 2] && row[j] == Values(shown)[j - 2];
    }
    ShownGet(report.keys, req.mfilter, req.xAxis);
  }

  /** Row, x and y of a plot were made from the report at the same place. */
  predicate RowMade(py: Builtins, plot: Plot, i: nat, report: Content, req: Request) {
    && i < |plot.table| == |plot.xs| == |plot.ys|
    && var point := GetPoint(py, report, req, i + 1);
       && point.Returned? && plot.headers == point.value.headers
       && plot.table[i] == [point.value.x, point.value.y] + Values(Shown(report.keys, req.mfilter))
       && Some(plot.xs[i]) == py.toInt(point.value.x)
       && Some(plot.ys[i]) == py.toFloat(point.value.y)
  }

  lemma {:induction false} NewRow(py: Builtins, plot: Plot, report: Content, req: Request)
    requires SameSizes(plot) && AddReport(py, plot, report, req).Returned?
    ensures RowMade(py, AddReport(py, plot, report, req).value, |plot.table|, report, req)
  {
  }

  lemma {:induction false} MadeAligned(py: Builtins, plot: Plot, i: nat, report: Content, req: Request)
    requires Distinct(report.keys) && RowMade(py, plot, i, report, req)
    ensures RowOf(py, plot, i, report, req)
  {
    PointAligned(py, report, req, i + 1);
  }

  /** A plot with everything that another has, under the same headers. */
  predicate Continues(plot: Plot, more: Plot) {
    && plot.table <= more.table && plot.xs <= more.xs && plot.ys <= more.ys
    && (plot.headers != [] ==> more.headers == plot.headers)
  }

  /** Reports only add rows, and the headers stay what the first report made them. */
  lemma {:induction false} PlotGrows(py: Builtins, plot: Plot, reports: seq<Content>, req: Request)
    requires SameSizes(plot) && AddReports(py, plot, reports, req).Returned?
    ensures var end := AddReports(py, plot, reports, req).value;
            SameSizes(end) && |end.table| == |plot.table| + |reports| && Continues(plot, end)
    decreases |reports|
  {
    if reports != [] {
      var more := AddReport(py, plot, reports[0], req).value;
      PlotGrows(py, more, reports[1..], req);
      assert Continues(plot, more);
    }
  }

  lemma {:induction false} RowStays(py: Builtins, plot: Plot, end: Plot, i: nat, report: Content, req: Request)
    requires RowMade(py, plot, i, report, req) && Continues(plot, end) && SameSizes(end)
    ensures RowMade(py, end, i, report, req)
  {
  }

  /** The plot after the first of some reports. */
  lemma {:induction false} FirstAdded(py: Builtins, plot: Plot, reports: seq<Content>, req: Request, end: Plot)
    returns (more: Plot)
    requires reports != [] && SameSizes(plot) && AddReports(py, plot, reports, req) == Returned(end)
    ensures AddReport(py, plot, reports[0], req) == Returned(more)
    ensures AddReports(py, more, reports[1..], req) == Returned(end)
    ensures SameSizes(more) && |more.table| == |plot.table| + 1
    ensures RowMade(py, more, |plot.table|, reports[0], req)
  {
    NewRow(py, plot, reports[0], req);
    more := AddReport(py, plot, reports[0], req).value;
  }

  lemma {:induction false} FirstRowAt(py: Builtins, plot: Plot, reports: seq<Content>, req: Request, more: Plot,
                                      end: Plot)
    requires reports != [] && SameSizes(more) && RowMade(py, more, |plot.table|, reports[0], req)
    requires AddReports(py, more, reports[1..], req) == Returned(end)
    ensures RowMade(py, end, |plot.table|, reports[0], req)
  {
    PlotGrows(py, more, reports[1..], req);
    RowStays(py, more, end, |plot.table|, reports[0], req);
  }

  lemma {:induction false} RowAt(py: Builtins, plot: Plot, reports: seq<Content>, req: Request, i: nat, end: Plot,
                                 row: nat)
    requires i < |reports| && row == |plot.table| + i
    requires SameSizes(plot) && AddReports(py, plot, reports, req) == Returned(end)
    ensures RowMade(py, end, row, reports[i], req)
    decreases i
  {
    var more := FirstAdded(py, plot, reports, req, end);
    var rest := reports[1..];
    if i == 0 {
      FirstRowAt(py, plot, reports, req, more, end);
    } else {
      assert rest[i - 1] == reports[i];
      RowAt(py, more, rest, req, i - 1, end, row);
    }
  }

  /**
   * When a plot is returned, it has a row, an x and a y for every report that matches the
   * filter, and every row holds the values of its own report under the shared headers.
   */
  lemma {:induction false} TableAligned(py: Builtins, reports: seq<Content>, req: Request)
    requires PlotFor(py, reports, req).Returned?
    requires forall r :: r in Rows(py, reports, req).value ==> Distinct(r.keys)
    ensures var plot, rows := PlotFor(py, reports, req).value, Rows(py, reports, req).value;
            && |plot.table| == |plot.xs| == |plot.ys| == |rows|
            && forall i :: 0 <= i < |rows| ==> RowOf(py, plot, i, rows[i], req)
  {
    var rows := Rows(py, reports, req).value;
    PlotGrows(py, NO_PLOT, rows, req);
    forall i | 0 <= i < |rows| ensures RowOf(py, PlotFor(py, reports, req).value, i, rows[i], req) {
      RowAt(py, NO_PLOT, rows, req, i, PlotFor(py, reports, req).value, i);
      MadeAligned(py, PlotFor(py, reports, req).value, i, rows[i], req);
    }
  }

  // ---- The code ----

  function Contents(reports: seq<Report>): (r: seq<Content>)
    reads reports
    ensures |r| == |reports|
    ensures forall i :: 0 <= i < |reports| ==> r[i] == ContentOf(reports[i])
  {
    if reports == [] then [] else [ContentOf(reports[0])] + Contents(reports[1..])
  }

  function MapItems<A, B>(s: seq<Keyed<A>>, f: A -> B): (r: seq<Keyed<B>>)
    ensures |r| == |s|
    ensures forall i :: 0 <= i < |s| ==> r[i] == Keyed(s[i].value, f(s[i].item))
  {
    seq(|s|, i requires 0 <= i < |s| => Keyed(s[i].value, f(s[i].item)))
  }

  lemma {:induction false} InsertMap<A, B>(x: Keyed<A>, s: seq<Keyed<A>>, f: A -> B)
    ensures MapItems(Insert(x, s), f) == Insert(Keyed(x.value, f(x.item)), MapItems(s, f))
  {
    if s != [] {
      assert MapItems(s, f)[1..] == MapItems(s[1..], f);
      if Before(s[0].value, x.value) {
        InsertMap(x, s[1..], f);
      }
    }
  }

  /** Sorting looks at the values only. */
  lemma {:induction false} SortedMap<A, B>(s: seq<Keyed<A>>, f: A -> B)
    ensures MapItems(Sorted(s), f) == Sorted(MapItems(s, f))
  {
    if s != [] {
      assert MapItems(s, f)[1..] == MapItems(s[1..], f);
      SortedMap(s[1..], f);
      InsertMap(s[0], Sorted(s[1..]), f);
    }
  }

  lemma {:induction false} SortedWithin<T>(s: seq<Keyed<T>>)
    ensures |Sorted(s)| == |s|
    ensures forall i :: 0 <= i < |Sorted(s)| ==> Sorted(s)[i] in s
  {
    SortedIsStableSort(s);
    assert |multiset(Sorted(s))| == |multiset(s)|;
    forall i | 0 <= i < |Sorted(s)| ensures Sorted(s)[i] in s {
      assert Sorted(s)[i] in multiset(Sorted(s));
    }
  }

  /** Sorting report objects sorts what they say. */
  lemma {:induction false} SortedObjects(objects: seq<Keyed<Report>>, contents: seq<Keyed<Content>>)
    requires |objects| == |contents|
    requires forall i :: 0 <= i < |objects| ==>
               objects[i].value == contents[i].value && contents[i].item == ContentOf(objects[i].item)
    ensures |Sorted(objects)| == |Sorted(contents)| == |objects|
    ensures forall i :: 0 <= i < |objects| ==> Sorted(contents)[i].item == ContentOf(Sorted(objects)[i].item)
    ensures forall i :: 0 <= i < |objects| ==> Sorted(objects)[i] in objects
  {
    var pairs := seq(|objects|, i requires 0 <= i < |objects| =>
      Keyed(objects[i].value, (objects[i].item, contents[i].item)));
    var first, second := (p: (Report, Content)) => p.0, (p: (Report, Content)) => p.1;
    assert MapItems(pairs, first) == objects && MapItems(pairs, second) == contents;
    SortedMap(pairs, first);
    SortedMap(pairs, second);
    SortedWithin(pairs);
    SortedWithin(objects);
    forall i | 0 <= i < |objects| ensures Sorted(contents)[i].item == ContentOf(Sorted(objects)[i].item) {
      assert Sorted(pairs)[i] in pairs;
    }
  }

  predicate Holds(objects: Py<seq<Report>>, contents: Py<seq<Content>>, within: seq<Report>)
    reads if objects.Returned? then set r | r in objects.value else {}
  {
    match (objects, contents)
    case (Raised, Raised) => true
    case (Returned(o), Returned(c)) => Contents(o) == c && forall r :: r in o ==> r in within
    case _ => false
  }

  /** The script, with the counter that it keeps between calls. */
  class Plotter {
    var count: nat

    constructor ()
      ensures count == 0
    {
      count := 0;
    }

    method MatchReports(py: Builtins, reports: seq<Report>, key: string, value: string) returns (kept: Py<seq<Report>>)
      ensures Holds(kept, Matching(py, Contents(reports), key, value), reports)
    {
      if reports == [] {
        return Returned([]);
      }
      var v := Get(reports[0].keys, key);
      if v == None {
        return Raised;
      }
      var rest := MatchReports(py, reports[1..], key, value);
      assert Contents(reports)[1..] == Contents(reports[1..]);
      if rest.Raised? {
        return Raised;
      }
      if py.lower(v.value) == py.lower(value) {
        return Returned([reports[0]] + rest.value);
      }
      return rest;
    }

    method FilterReports(py: Builtins, reports: seq<Report>, mfilter: Dict) returns (kept: Py<seq<Report>>)
      ensures Holds(kept, Filtered(py, Contents(reports), mfilter), reports)
    {
      var current := reports;
      var i := 0;
      while i < |mfilter|
        invariant 0 <= i <= |mfilter|
        invariant forall r :: r in current ==> r in reports
        invariant Filtered(py, Contents(reports), mfilter) == Filtered(py, Contents(current), mfilter[i..])
      {
        assert mfilter[i..][1..] == mfilter[i + 1..];
        var matching := MatchReports(py, current, mfilter[i].0, mfilter[i].1);
        if matching.Raised? {
          return Raised;
        }
        current := matching.value;
        i := i + 1;
      }
      return Returned(current);
    }

    /** The values to sort by, with the objects that they belong to. */
    method Decorate(reports: seq<Report>, xAxis: string) returns (keyed: Py<seq<Keyed<Report>>>)
      ensures keyed.Raised? <==> KeyedBy(Contents(reports), xAxis).Raised?
      ensures keyed.Returned? ==>
                && |keyed.value| == |reports|
                && forall i :: 0 <= i < |reports| ==>
                     keyed.value[i] == Keyed(KeyedBy(Contents(reports), xAxis).value[i].value, reports[i])
    {
      if reports == [] {
        return Returned([]);
      }
      var v := Get(reports[0].keys, xAxis);
      if v == None {
        return Raised;
      }
      var rest := Decorate(reports[1..], xAxis);
      assert Contents(reports)[1..] == Contents(reports[1..]);
      if rest.Raised? {
        return Raised;
      }
      return Returned([Keyed(v.value, reports[0])] + rest.value);
    }

    method SortReports(reports: seq<Report>, xAxis: string) returns (ordered: Py<seq<Report>>)
      ensures Holds(ordered, InOrder(Contents(reports), xAxis), reports)
    {
      if xAxis == "" {
        return Returned(reports);
      }
      var keyed := Decorate(reports, xAxis);
      if keyed.Raised? {
        return Raised;
      }
      SortedObjects(keyed.value, KeyedBy(Contents(reports), xAxis).value);
      ordered := Returned(Items(Sorted(keyed.value)));
      assert Contents(ordered.value) == InOrder(Contents(reports), xAxis).value;
    }

    /** Takes the point of a report, which loses the keys that are not shown. */
    method ReportGetPoint(py: Builtins, report: Report, req: Request) returns (point: Py<Point>)
      modifies this, report
      ensures count == old(count) + 1
      ensures point == GetPoint(py, old(ContentOf(report)), req, count)
      ensures point.Returned? ==> report.keys == Shown(old(report.keys), req.mfilter)
    {
      count := count + 1;
      var measured := MeasuredValue(report.results, req.name);
      if measured.Raised? {
        return Raised;
      }
      report.keys := Pop(report.keys, "FIO-cmd");
      PopKeys(report, req.mfilter);
      var x := XValue(py, report.keys, req.xAxis, count);
      if x.Raised? {
        return Raised;
      }
      var multiplier := py.fromHex(measured.value.multiplier);
      if multiplier == None {
        return Raised;
      }
      var first := if req.xAxis == "" then "Measurement#" else req.xAxis;
      var second := req.name + " (" + measured.value.units + " * " + multiplier.value + ")";
      return Returned(Point(x.value, measured.value.value, [first, second] + Keys(report.keys)));
    }

    /** Pops the keys of a filter. */
    method PopKeys(report: Report, mfilter: Dict)
      modifies report
      ensures report.keys == PopAll(old(report.keys), Keys(mfilter))
    {
      var i := 0;
      while i < |mfilter|
        invariant 0 <= i <= |mfilter|
        invariant PopAll(old(report.keys), Keys(mfilter)) == PopAll(report.keys, Keys(mfilter)[i..])
      {
        assert Keys(mfilter)[i..][0] == mfilter[i].0 && Keys(mfilter)[i..][1..] == Keys(mfilter)[i + 1..];
        report.keys := Pop(report.keys, mfilter[i].0);
        i := i + 1;
      }
    }

    /** Returns the plot for some reports, which may hold an object twice. */
    method PlotOne(py: Builtins, reports: seq<Report>, req: Request) returns (plot: Py<Plot>)
      modifies this, reports
      ensures plot == PlotFor(py, old(Contents(reports)), req)
    {
      var kept := FilterReports(py, reports, req.mfilter);
      if kept.Raised? {
        return Raised;
      }
      var ordered := SortReports(kept.value, req.xAxis);
      if ordered.Raised? {
        return Raised;
      }
      plot := MakePlot(py, ordered.value, req, set r | r in reports);
    }

    /** One turn of the loop of MakePlot. */
    method TakeReport(py: Builtins, made: Plot, report: Report, req: Request) returns (next: Py<Plot>)
      requires count == |made.table|
      modifies this, report
      ensures next == AddReport(py, made, old(ContentOf(report)), req)
      ensures next.Returned? ==> count == |next.value.table| && report.keys == Shown(old(report.keys), req.mfilter)
    {
      var point := ReportGetPoint(py, report, req);
      if point.Raised? {
        return Raised;
      }
      next := AddPoint(py, made, point.value, Values(report.keys));
    }

    /** The report at i adds the row that it had at first, and no report shows anything else than at first. */
    method NextRow(py: Builtins, made: Plot, reports: seq<Report>, i: nat, req: Request, ghost contents: seq<Content>)
      returns (next: Py<Plot>)
      requires i < |reports| == |contents| && count == |made.table|
      requires forall j :: 0 <= j < |reports| ==> SameShown(ContentOf(reports[j]), contents[j], req.mfilter)
      modifies this, reports[i]
      ensures next == AddReport(py, made, contents[i], req)
      ensures next.Returned? ==> count == |next.value.table|
      ensures next.Returned? ==>
                forall j :: 0 <= j < |reports| ==> SameShown(ContentOf(reports[j]), contents[j], req.mfilter)
    {
      var report := reports[i];
      ghost var before := ContentOf(report);
      SameAdded(py, made, before, contents[i], req);
      next := TakeReport(py, made, report, req);
      ShownAgain(before.keys, req.mfilter);
      forall j | next.Returned? && 0 <= j < |reports|
        ensures SameShown(ContentOf(reports[j]), contents[j], req.mfilter)
      {
        assert old(SameShown(ContentOf(reports[j]), contents[j], req.mfilter));
      }
    }

    /** The loop of PlotOne over the reports in their order. */
    method MakePlot(py: Builtins, reports: seq<Report>, req: Request, ghost owned: set<Report>)
      returns (plot: Py<Plot>)
      requires forall r :: r in reports ==> r in owned
      modifies this, owned
      ensures plot == AddReports(py, NO_PLOT, old(Contents(reports)), req)
    {
      ghost var contents := Contents(reports);
      assert contents[0..] == contents;
      count := 0;
      var made := NO_PLOT;
      var i := 0;
      while i < |reports|
        invariant 0 <= i <= |reports| && count == i == |made.table|
        invariant forall j :: 0 <= j < |reports| ==> SameShown(ContentOf(reports[j]), contents[j], req.mfilter)
        invariant AddReports(py, NO_PLOT, contents, req) == AddReports(py, made, contents[i..], req)
      {
        assert contents[i..][0] == contents[i] && contents[i..][1..] == contents[i + 1..];
        var next := NextRow(py, made, reports, i, req, contents);
        if next.Raised? {
          return Raised;
        }
        made := next.value;
        i := i + 1;
      }
      return Returned(made);
    }
  }

  /** Two states of a report that show the same. */
  predicate SameShown(a: Content, b: Content, mfilter: Dict) {
    a.results == b.results && Shown(a.keys, mfilter) == Shown(b.keys, mfilter)
  }

  /** A report gives the same row before and after its keys were popped. */
  lemma {:induction false} SameAdded(py: Builtins, plot: Plot, a: Content, b: Content, req: Request)
    requires SameShown(a, b, req.mfilter)
    ensures AddReport(py, plot, a, req) == AddReport(py, plot, b, req)
  {
    assert GetPoint(py, a, req, |plot.table| + 1) == GetPoint(py, b, req, |plot.table| + 1);
  }
}
