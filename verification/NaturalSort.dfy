/** Sorting reports in natural order (scripts/perf.py, natural_sort_key and its use). */
module NaturalSort {
  import opened Text
  import opened Numbers

  // ---- Sort keys ----

  /** An element of a sort key: a text or an integer. */
  datatype Part = Str(s: string) | Num(n: nat)

  predicate IsDigit(c: char) {
    '0' <= c <= '9'
  }

  predicate IsNumeral(s: string) {
    s != "" && forall i :: 0 <= i < |s| ==> IsDigit(s[i])
  }

  predicate HasNoDigit(s: string) {
    forall i :: 0 <= i < |s| ==> !IsDigit(s[i])
  }

  /** int() of a decimal numeral. */
  function ToInt(s: string): nat {
    DigitsValue(s, 10)
  }

  /** Where the text without digits that starts at i ends. */
  function TextEnd(s: string, i: nat): (t: nat)
    requires i <= |s|
    ensures i <= t <= |s|
    ensures forall k :: i <= k < t ==> !IsDigit(s[k])
    ensures t < |s| ==> IsDigit(s[t])
    decreases |s| - i
  {
    if i == |s| || IsDigit(s[i]) then i else TextEnd(s, i + 1)
  }

  /** Where the run of digits that starts at i ends. */
  function DigitsEnd(s: string, i: nat): (d: nat)
    requires i <= |s|
    ensures i <= d <= |s|
    ensures forall k :: i <= k < d ==> IsDigit(s[k])
    ensures d < |s| ==> !IsDigit(s[d])
    decreases |s| - i
  {
    if i < |s| && IsDigit(s[i]) then DigitsEnd(s, i + 1) else i
  }

  /** re.split(r'(\d+)', value): the value cut around its runs of digits, which are kept. */
  function Split(value: string): seq<string>
    decreases |value|
  {
    var t := TextEnd(value, 0);
    if t == |value| then [value]
    else
      var d := DigitsEnd(value, t);
      [value[..t], value[t..d]] + Split(value[d..])
  }

  function ToPart(piece: string): Part {
    if IsNumeral(piece) then Num(ToInt(piece)) else Str(piece)
  }

  /** The pieces of a value with the numerals made integers. */
  function SortKey(value: string): (key: seq<Part>) {
    var pieces := Split(value);
    seq(|pieces|, i requires 0 <= i < |pieces| => ToPart(pieces[i]))
  }

  /** Texts without digits and numerals take turns, starting and ending with a text. */
  predicate PiecesAlternate(pieces: seq<string>) {
    && |pieces| % 2 == 1
    && forall i :: 0 <= i < |pieces| ==> if i % 2 == 0 then HasNoDigit(pieces[i]) else IsNumeral(pieces[i])
  }

  /** The split loses nothing, and only its odd pieces are numerals. */
  lemma {:induction false} SplitIsExact(value: string)
    ensures PiecesAlternate(Split(value))
    ensures Concat(Split(value)) == value
    decreases |value|
  {
    if TextEnd(value, 0) == |value| {
      assert Concat([value]) == value + Concat([]);
    } else {
      var t, d := FirstCut(value);
      SplitIsExact(value[d..]);
      PiecesCons(value[..t], value[t..d], Split(value[d..]));
    }
  }

  lemma {:induction false} FirstCut(value: string) returns (t: nat, d: nat)
    requires TextEnd(value, 0) < |value|
    ensures t < d <= |value| && Split(value) == [value[..t], value[t..d]] + Split(value[d..])
    ensures HasNoDigit(value[..t]) && IsNumeral(value[t..d])
    ensures value == value[..t] + (value[t..d] + value[d..])
  {
    t := TextEnd(value, 0);
    d := DigitsEnd(value, t);
  }

  lemma {:induction false} PiecesCons(text: string, digits: string, rest: seq<string>)
    requires HasNoDigit(text) && IsNumeral(digits) && PiecesAlternate(rest)
    ensures PiecesAlternate([text, digits] + rest)
    ensures Concat([text, digits] + rest) == text + (digits + Concat(rest))
  {
    var pieces := [text, digits] + rest;
    assert forall i :: 2 <= i < |pieces| ==> pieces[i] == rest[i - 2];
    assert pieces[1..] == [digits] + rest && ([digits] + rest)[1..] == rest;
  }

  /** Texts and integers take turns, starting and ending with a text. */
  predicate Alternates(key: seq<Part>) {
    |key| % 2 == 1 && forall i :: 0 <= i < |key| ==> (key[i].Str? <==> i % 2 == 0)
  }

  lemma {:induction false} SortKeyAlternates(value: string)
    ensures Alternates(SortKey(value))
  {
    SplitIsExact(value);
    var pieces, key := Split(value), SortKey(value);
    forall i | 0 <= i < |key| ensures key[i].Str? <==> i % 2 == 0 {
      assert i % 2 == 0 ==> pieces[i] == "" || !IsDigit(pieces[i][0]);
    }
  }

  // ---- Comparing keys as Python compares lists ----

  function StrLess(a: string, b: string): bool {
    if b == "" then false
    else if a == "" then true
    else a[0] < b[0] || (a[0] == b[0] && StrLess(a[1..], b[1..]))
  }

  /** a < b; None stands for the TypeError of comparing a text with an integer. */
  function PartLess(a: Part, b: Part): Option<bool> {
    match (a, b)
    case (Str(s), Str(t)) => Some(StrLess(s, t))
    case (Num(m), Num(n)) => Some(m < n)
    case _ => None
  }

  /** List comparison: the first elements that differ decide, then the lengths. */
  function KeyLess(a: seq<Part>, b: seq<Part>): Option<bool> {
    if a == [] || b == [] then Some(a == [] && b != [])
    else if a[0] == b[0] then KeyLess(a[1..], b[1..])
    else PartLess(a[0], b[0])
  }

  predicate Less(a: seq<Part>, b: seq<Part>) {
    KeyLess(a, b).Some? && KeyLess(a, b).value
  }

  /** Two keys that have the same kind of element wherever both have one. */
  predicate SameKinds(a: seq<Part>, b: seq<Part>) {
    forall i :: 0 <= i < |a| && i < |b| ==> (a[i].Str? <==> b[i].Str?)
  }

  lemma {:induction false} StrTrichotomy(a: string, b: string)
    ensures StrLess(a, b) ==> !StrLess(b, a) && a != b
    ensures !StrLess(a, b) && !StrLess(b, a) ==> a == b
    ensures a == b ==> !StrLess(a, b)
  {
    if a != "" && b != "" {
      StrTrichotomy(a[1..], b[1..]);
      assert a == [a[0]] + a[1..] && b == [b[0]] + b[1..];
    }
  }

  lemma {:induction false} StrTransitive(a: string, b: string, c: string)
    requires StrLess(a, b) && StrLess(b, c)
    ensures StrLess(a, c)
  {
    if a != "" && b != "" && c != "" && a[0] == b[0] == c[0] {
      StrTransitive(a[1..], b[1..], c[1..]);
    }
  }

  lemma {:induction false} SameKindsRest(a: seq<Part>, b: seq<Part>)
    requires a != [] && b != [] && SameKinds(a, b)
    ensures SameKinds(a[1..], b[1..])
  {
    assert forall i :: 0 <= i < |a[1..]| && i < |b[1..]| ==> a[1..][i] == a[i + 1] && b[1..][i] == b[i + 1];
  }

  lemma {:induction false} SameFirst<T>(a: seq<T>, b: seq<T>)
    requires a != [] && b != [] && a[0] == b[0]
    ensures a == b <==> a[1..] == b[1..]
  {
    assert a == [a[0]] + a[1..] && b == [b[0]] + b[1..];
  }

  /** Keys of the same kinds can be compared, and exactly one of <, ==, > holds. */
  lemma {:induction false} KeyTrichotomy(a: seq<Part>, b: seq<Part>)
    requires SameKinds(a, b)
    ensures KeyLess(a, b).Some? && KeyLess(b, a).Some?
    ensures Less(a, b) ==> !Less(b, a) && a != b
    ensures !Less(a, b) && !Less(b, a) ==> a == b
    ensures a == b ==> !Less(a, b)
  {
    if a != [] && b != [] {
      assert a[0].Str? <==> b[0].Str?;
      if a[0] == b[0] {
        SameKindsRest(a, b);
        KeyTrichotomy(a[1..], b[1..]);
        SameFirst(a, b);
      } else if a[0].Str? {
        StrTrichotomy(a[0].s, b[0].s);
      }
    }
  }

  lemma {:induction false} KeyTransitive(a: seq<Part>, b: seq<Part>, c: seq<Part>)
    requires SameKinds(a, b) && SameKinds(b, c)
    requires Less(a, b) && Less(b, c)
    ensures Less(a, c)
  {
    if a != [] {
      assert (a[0].Str? <==> b[0].Str?) && (b[0].Str? <==> c[0].Str?);
      if a[0] == b[0] == c[0] {
        SameKindsRest(a, b);
        SameKindsRest(b, c);
        KeyTransitive(a[1..], b[1..], c[1..]);
      } else if a[0] != b[0] && b[0] != c[0] && a[0].Str? {
        StrTransitive(a[0].s, b[0].s, c[0].s);
        StrTrichotomy(a[0].s, c[0].s);
      }
    }
  }

  /** One value sorts before another. */
  predicate Before(a: string, b: string) {
    Less(SortKey(a), SortKey(b))
  }

  lemma {:induction false} SortKeysSameKinds(a: string, b: string)
    ensures SameKinds(SortKey(a), SortKey(b))
  {
    SortKeyAlternates(a);
    SortKeyAlternates(b);
  }

  /**
   * Comparing the sort keys of any two values never fails, and the order is a total
   * preorder in which values are tied exactly when their keys are equal.
   */
  lemma {:induction false} TotalPreorder(a: string, b: string, c: string)
    ensures KeyLess(SortKey(a), SortKey(b)).Some?
    ensures !(Before(a, b) && Before(b, a))
    ensures !Before(a, b) && !Before(b, a) <==> SortKey(a) == SortKey(b)
    ensures Before(a, b) && Before(b, c) ==> Before(a, c)
    ensures !Before(b, a) && !Before(c, b) ==> !Before(c, a)
  {
    SortKeysSameKinds(a, b);
    SortKeysSameKinds(b, c);
    SortKeysSameKinds(c, a);
    KeyPreorder(SortKey(a), SortKey(b), SortKey(c));
  }

  lemma {:induction false} KeyPreorder(a: seq<Part>, b: seq<Part>, c: seq<Part>)
    requires SameKinds(a, b) && SameKinds(b, c) && SameKinds(c, a)
    ensures KeyLess(a, b).Some?
    ensures !(Less(a, b) && Less(b, a))
    ensures !Less(a, b) && !Less(b, a) <==> a == b
    ensures Less(a, b) && Less(b, c) ==> Less(a, c)
    ensures !Less(b, a) && !Less(c, b) ==> !Less(c, a)
  {
    assert SameKinds(b, a) && SameKinds(c, b) && SameKinds(a, c);
    KeyTrichotomy(a, b);
    KeyTrichotomy(b, a);
    KeyTrichotomy(b, c);
    KeyTrichotomy(c, b);
    if Less(a, b) && Less(b, c) {
      KeyTransitive(a, b, c);
    }
    if Less(c, a) {
      if Less(a, b) {
        KeyTransitive(c, a, b);
      }
      if Less(b, c) {
        KeyTransitive(b, c, a);
      }
    }
  }

  // ---- The stable sort ----

  /** A value to sort by with what it belongs to. */
  datatype Keyed<T> = Keyed(value: string, item: T)

  function Insert<T>(x: Keyed<T>, s: seq<Keyed<T>>): seq<Keyed<T>> {
    if s == [] then [x]
    else if Before(s[0].value, x.value) then [s[0]] + Insert(x, s[1..])
    else [x] + s
  }

  /** sorted(): the stable order by sort key. */
  function Sorted<T>(s: seq<Keyed<T>>): seq<Keyed<T>> {
    if s == [] then [] else Insert(s[0], Sorted(s[1..]))
  }

  predicate Ordered<T>(s: seq<Keyed<T>>) {
    forall i, j :: 0 <= i < j < |s| ==> !Before(s[j].value, s[i].value)
  }

  /** The elements with one sort key, in their order. */
  function Ties<T>(s: seq<Keyed<T>>, key: seq<Part>): seq<Keyed<T>> {
    if s == [] then []
    else (if SortKey(s[0].value) == key then [s[0]] else []) + Ties(s[1..], key)
  }

  /** A stable ordered rearrangement. */
  ghost predicate StableSortOf<T>(t: seq<Keyed<T>>, s: seq<Keyed<T>>) {
    && Ordered(t)
    && multiset(t) == multiset(s)
    && forall key: seq<Part> :: Ties(t, key) == Ties(s, key)
  }

  lemma {:induction false} InsertContents<T>(x: Keyed<T>, s: seq<Keyed<T>>)
    ensures multiset(Insert(x, s)) == multiset(s) + multiset{x}
  {
    if s != [] {
      assert s == [s[0]] + s[1..];
      if Before(s[0].value, x.value) {
        InsertContents(x, s[1..]);
      }
    }
  }

  lemma {:induction false} InsertOrdered<T>(x: Keyed<T>, s: seq<Keyed<T>>)
    requires Ordered(s)
    ensures Ordered(Insert(x, s))
  {
    if s == [] {
    } else if Before(s[0].value, x.value) {
      var rest := Insert(x, s[1..]);
      InsertOrdered(x, s[1..]);
      InsertContents(x, s[1..]);
      forall j | 0 <= j < |rest| ensures !Before(rest[j].value, s[0].value) {
        assert rest[j] in multiset(rest);
        if rest[j] != x {
          assert rest[j] in s[1..];
          var k :| 0 <= k < |s[1..]| && s[1..][k] == rest[j];
          assert s[k + 1] == rest[j];
        } else {
          TotalPreorder(s[0].value, x.value, x.value);
        }
      }
      OrderedCons(s[0], rest);
    } else {
      forall j | 0 <= j < |s| ensures !Before(s[j].value, x.value) {
        if j > 0 {
          TotalPreorder(x.value, s[0].value, s[j].value);
        }
      }
      OrderedCons(x, s);
    }
  }

  lemma {:induction false} OrderedCons<T>(x: Keyed<T>, s: seq<Keyed<T>>)
    requires Ordered(s)
    requires forall j :: 0 <= j < |s| ==> !Before(s[j].value, x.value)
    ensures Ordered([x] + s)
  {
    var t := [x] + s;
    forall i, j | 0 <= i < j < |t| ensures !Before(t[j].value, t[i].value) {
      assert t[j] == s[j - 1];
      assert i > 0 ==> t[i] == s[i - 1];
    }
  }

  function Tie<T>(x: Keyed<T>, key: seq<Part>): seq<Keyed<T>> {
    if SortKey(x.value) == key then [x] else []
  }

  lemma {:induction false} ConsTies<T>(x: Keyed<T>, s: seq<Keyed<T>>, key: seq<Part>)
    ensures Ties([x] + s, key) == Tie(x, key) + Ties(s, key)
  {
    assert ([x] + s)[1..] == s;
  }

  lemma {:induction false} SwapTies<T>(x: Keyed<T>, y: Keyed<T>, ties: seq<Keyed<T>>, key: seq<Part>)
    requires Before(y.value, x.value)
    ensures Tie(y, key) + (Tie(x, key) + ties) == Tie(x, key) + (Tie(y, key) + ties)
  {
    TotalPreorder(y.value, x.value, x.value);
  }

  lemma {:induction false} InsertTies<T>(x: Keyed<T>, s: seq<Keyed<T>>, key: seq<Part>)
    ensures Ties(Insert(x, s), key) == Tie(x, key) + Ties(s, key)
  {
    if s != [] && Before(s[0].value, x.value) {
      var first, rest := s[0], s[1..];
      InsertTies(x, rest, key);
      ConsTies(first, Insert(x, rest), key);
      SwapTies(x, first, Ties(rest, key), key);
      ConsTies(first, rest, key);
      assert s == [first] + rest;
    } else {
      assert Insert(x, s) == [x] + s;
      ConsTies(x, s, key);
    }
  }

  /** The sort is ordered, keeps every element, and keeps the order of ties. */
  lemma {:induction false} SortedIsStableSort<T>(s: seq<Keyed<T>>)
    ensures StableSortOf(Sorted(s), s)
  {
    if s != [] {
      var rest := Sorted(s[1..]);
      SortedIsStableSort(s[1..]);
      InsertOrdered(s[0], rest);
      InsertContents(s[0], rest);
      assert s == [s[0]] + s[1..];
      forall key: seq<Part> ensures Ties(Sorted(s), key) == Ties(s, key) {
        InsertTies(s[0], rest, key);
      }
    }
  }

  /** What is tied with some key is in the sequence. */
  lemma {:induction false} TiesMember<T>(s: seq<Keyed<T>>, x: Keyed<T>)
    ensures x in s ==> Ties(s, SortKey(x.value)) != []
    ensures forall key: seq<Part>, y :: y in Ties(s, key) ==> y in s && SortKey(y.value) == key
  {
    if s != [] {
      TiesMember(s[1..], x);
      assert s == [s[0]] + s[1..];
    }
  }

  lemma {:induction false} FirstIsLeast<T>(a: seq<Keyed<T>>, b: seq<Keyed<T>>)
    requires a != [] && b != [] && Ordered(b)
    requires forall key: seq<Part> :: Ties(a, key) == Ties(b, key)
    ensures !Before(a[0].value, b[0].value)
  {
    TiesMember(a, a[0]);
    var ties := Ties(b, SortKey(a[0].value));
    TiesMember(b, b[0]);
    assert ties[0] in ties;
    var k :| 0 <= k < |b| && b[k] == ties[0];
    if k == 0 {
      TotalPreorder(a[0].value, b[0].value, b[0].value);
    }
    assert SortKey(b[k].value) == SortKey(a[0].value);
    assert !Before(b[k].value, b[0].value);
  }

  lemma {:induction false} BothEmpty<T>(a: seq<Keyed<T>>, b: seq<Keyed<T>>)
    requires forall key: seq<Part> :: Ties(a, key) == Ties(b, key)
    ensures a != [] ==> b != []
  {
    if a != [] {
      TiesMember(a, a[0]);
      assert Ties(b, SortKey(a[0].value)) != [];
    }
  }

  /** A stable ordered rearrangement is determined, so it does not matter how it is found. */
  lemma {:induction false} StableSortUnique<T>(a: seq<Keyed<T>>, b: seq<Keyed<T>>)
    requires Ordered(a) && Ordered(b)
    requires forall key: seq<Part> :: Ties(a, key) == Ties(b, key)
    ensures a == b
    decreases |a|
  {
    BothEmpty(a, b);
    BothEmpty(b, a);
    if a != [] {
      FirstIsLeast(a, b);
      FirstIsLeast(b, a);
      TotalPreorder(a[0].value, b[0].value, b[0].value);
      var key := SortKey(a[0].value);
      assert Ties(a, key)[0] == a[0] && Ties(b, key)[0] == b[0];
      forall k: seq<Part> ensures Ties(a[1..], k) == Ties(b[1..], k) {
        assert Ties(a, k) == Ties(b, k);
        var head := if k == key then [a[0]] else [];
        assert Ties(a[1..], k) == Ties(a, k)[|head|..];
        assert Ties(b[1..], k) == Ties(b, k)[|head|..];
      }
      StableSortUnique(a[1..], b[1..]);
      assert a == [a[0]] + a[1..] && b == [b[0]] + b[1..];
    }
  }

  // ---- What the comparisons say ----

  /** The decimal digits, one by one. */
  lemma {:induction false} DigitChars(c: char)
    ensures IsDigit(c) <==> c in DECIMAL_DIGITS
  {
    if IsDigit(c) {
      var i := c as int - '0' as int;
      assert DECIMAL_DIGITS[i] == c;
    }
  }

  /** Texts that agree before k, where the first one ends or has the smaller character. */
  predicate SmallerAt(a: string, b: string, k: nat) {
    k <= |a| && k < |b| && a[..k] == b[..k] && (k == |a| || a[k] < b[k])
  }

  /** One text is before another exactly when it is smaller where they part. */
  lemma {:induction false} StrLessIff(a: string, b: string)
    ensures StrLess(a, b) <==> exists k: nat :: SmallerAt(a, b, k)
  {
    if b == "" {
    } else if a == "" {
      assert SmallerAt(a, b, 0);
    } else {
      StrLessIff(a[1..], b[1..]);
      if StrLess(a, b) {
        if a[0] < b[0] {
          assert SmallerAt(a, b, 0);
        } else {
          var k: nat :| SmallerAt(a[1..], b[1..], k);
          assert a[..k + 1] == [a[0]] + a[1..][..k] && b[..k + 1] == [b[0]] + b[1..][..k];
          assert SmallerAt(a, b, k + 1);
        }
      }
      if k: nat :| SmallerAt(a, b, k) {
        if k > 0 {
          assert a[0] == a[..k][0] && b[0] == b[..k][0];
          assert a[1..][..k - 1] == a[..k][1..] && b[1..][..k - 1] == b[..k][1..];
          assert SmallerAt(a[1..], b[1..], k - 1);
        }
      }
    }
  }

  /** Keys that agree before k, where the first one ends or has the smaller element. */
  predicate KeySmallerAt(a: seq<Part>, b: seq<Part>, k: nat) {
    && k <= |a| && k < |b| && a[..k] == b[..k]
    && (k == |a| || (match (a[k], b[k])
                     case (Str(s), Str(t)) => StrLess(s, t)
                     case (Num(m), Num(n)) => m < n
                     case _ => false))
  }

  /** One key is before another exactly when it is smaller where they part. */
  lemma {:induction false} KeyLessIff(a: seq<Part>, b: seq<Part>)
    requires SameKinds(a, b)
    ensures Less(a, b) <==> exists k: nat :: KeySmallerAt(a, b, k)
  {
    if b == [] {
    } else if a == [] {
      assert KeySmallerAt(a, b, 0);
    } else if a[0] == b[0] {
      SameKindsRest(a, b);
      KeyLessIff(a[1..], b[1..]);
      if Less(a, b) {
        var k: nat :| KeySmallerAt(a[1..], b[1..], k);
        LaterPart(a, b, k);
      }
      if k: nat :| KeySmallerAt(a, b, k) {
        NotFirstPart(a, b, k);
        EarlierPart(a, b, k);
      }
    } else {
      assert a[0].Str? <==> b[0].Str?;
      if Less(a, b) {
        assert KeySmallerAt(a, b, 0);
      }
      if k: nat :| KeySmallerAt(a, b, k) {
        if k > 0 {
          SameStart(a, b, k);
          assert false;
        }
      }
    }
  }

  lemma {:induction false} SameStart(a: seq<Part>, b: seq<Part>, k: nat)
    requires k > 0 && KeySmallerAt(a, b, k)
    ensures a[0] == b[0]
  {
    assert a[..k][0] == a[0] && b[..k][0] == b[0];
  }

  lemma {:induction false} LaterPart(a: seq<Part>, b: seq<Part>, k: nat)
    requires a != [] && b != [] && a[0] == b[0] && KeySmallerAt(a[1..], b[1..], k)
    ensures KeySmallerAt(a, b, k + 1)
  {
    assert a[..k + 1] == [a[0]] + a[1..][..k] && b[..k + 1] == [b[0]] + b[1..][..k];
  }

  lemma {:induction false} NotFirstPart(a: seq<Part>, b: seq<Part>, k: nat)
    requires a != [] && b != [] && a[0] == b[0] && KeySmallerAt(a, b, k)
    ensures k > 0
  {
    if k == 0 && a[0].Str? {
      StrTrichotomy(a[0].s, a[0].s);
    }
  }

  lemma {:induction false} EarlierPart(a: seq<Part>, b: seq<Part>, k: nat)
    requires a != [] && b != [] && k > 0 && KeySmallerAt(a, b, k)
    ensures KeySmallerAt(a[1..], b[1..], k - 1)
  {
    assert a[1..][..k - 1] == a[..k][1..] && b[1..][..k - 1] == b[..k][1..];
  }

  // ---- Numerals ----

  /** A text without digits and a numeral behind it. */
  lemma {:induction false} NumberedKey(text: string, digits: string)
    requires HasNoDigit(text) && IsNumeral(digits)
    ensures SortKey(text + digits) == [Str(text), Num(ToInt(digits)), Str("")]
  {
    var s, t := text + digits, |text|;
    assert forall i :: 0 <= i < t ==> s[i] == text[i];
    assert s[t] == digits[0];
    assert TextEnd(s, 0) == t;
    assert forall i :: t <= i < |s| ==> s[i] == digits[i - t];
    assert DigitsEnd(s, t) == |s|;
    assert s[..t] == text && s[t..|s|] == digits && s[|s|..] == "";
    assert Split("") == [""];
    assert Split(s) == [text, digits, ""];
    assert ToPart(text) == Str(text) by {
      assert text != "" ==> !IsDigit(text[0]);
    }
  }

  /** Texts that differ in a number at the end only sort by the number. */
  lemma {:induction false} NumberedBefore(text: string, a: string, b: string)
    requires HasNoDigit(text) && IsNumeral(a) && IsNumeral(b)
    ensures Before(text + a, text + b) <==> ToInt(a) < ToInt(b)
  {
    NumberedKey(text, a);
    NumberedKey(text, b);
    SameTextLess(text, ToInt(a), ToInt(b));
  }

  lemma {:induction false} SameTextLess(text: string, m: nat, n: nat)
    ensures Less([Str(text), Num(m), Str("")], [Str(text), Num(n), Str("")]) <==> m < n
  {
    var x, y := [Str(text), Num(m), Str("")], [Str(text), Num(n), Str("")];
    assert x[0] == y[0] && x[1..][0] == Num(m) && y[1..][0] == Num(n);
    assert KeyLess(x, y) == KeyLess(x[1..], y[1..]);
    if m == n {
      assert x == y;
      KeyTrichotomy(x, y);
    } else {
      assert KeyLess(x[1..], y[1..]) == PartLess(Num(m), Num(n));
    }
  }

  /** int() reads back what was printed. */
  lemma {:induction false} PrintedNumeral(n: nat)
    ensures IsNumeral(Decimal(n)) && ToInt(Decimal(n)) == n
  {
    var digits := Decimal(n);
    AreTables();
    PrintedIsRead(n, DECIMAL_DIGITS);
    forall i | 0 <= i < |digits| ensures IsDigit(digits[i]) {
      assert Digit(digits[i]) < 10;
    }
  }

  /** Texts with the same start sort by the numbers printed behind it, as "dev2" before "dev10". */
  lemma {:induction false} PrintedBefore(text: string, m: nat, n: nat)
    requires HasNoDigit(text)
    ensures Before(text + Decimal(m), text + Decimal(n)) <==> m < n
  {
    PrintedNumeral(m);
    PrintedNumeral(n);
    NumberedBefore(text, Decimal(m), Decimal(n));
  }

  // ---- Numerals with a sign ----

  /** The sign of a text, if it opens with one. */
  function Sign(s: string): string {
    s[..|s| - |Unsigned(s)|]
  }

  /** A decimal numeral with an optional sign. */
  predicate IsSigned(s: string) {
    IsNumeral(Unsigned(s))
  }

  /** int() of a numeral with an optional sign. */
  function SignedValue(s: string): int {
    var magnitude: int := ToInt(Unsigned(s));
    if Sign(s) == "-" then -magnitude else magnitude
  }

  /** Texts without a sign sort first, then those with a plus, then those with a minus. */
  function SignRank(s: string): nat {
    if Sign(s) == "" then 0 else if Sign(s) == "+" then 1 else 2
  }

  lemma {:induction false} SignedKey(s: string)
    requires IsSigned(s)
    ensures Sign(s) in {"", "+", "-"}
    ensures SortKey(s) == [Str(Sign(s)), Num(ToInt(Unsigned(s))), Str("")]
  {
    assert s == Sign(s) + Unsigned(s);
    assert Sign(s) == "" || Sign(s) == [s[0]];
    assert !IsDigit('+') && !IsDigit('-');
    NumberedKey(Sign(s), Unsigned(s));
  }

  /** The sign decides by itself; numerals with the same sign sort by their digits. */
  lemma {:induction false} SignedBefore(a: string, b: string)
    requires IsSigned(a) && IsSigned(b)
    ensures Before(a, b) <==> SignRank(a) < SignRank(b)
                              || (SignRank(a) == SignRank(b) && ToInt(Unsigned(a)) < ToInt(Unsigned(b)))
  {
    SignedKey(a);
    SignedKey(b);
    var x, y := SortKey(a), SortKey(b);
    var m, n := ToInt(Unsigned(a)), ToInt(Unsigned(b));
    if Sign(a) == Sign(b) {
      SameTextLess(Sign(a), m, n);
    } else {
      assert KeyLess(x, y) == PartLess(x[0], y[0]);
      assert StrLess("", "+") && StrLess("", "-") && StrLess("+", "-");
      assert !StrLess("+", "") && !StrLess("-", "") && !StrLess("-", "+");
    }
  }

  /** Decimal numerals sort by their values. */
  lemma {:induction false} NumeralsByValue(a: string, b: string)
    requires IsNumeral(a) && IsNumeral(b)
    ensures Before(a, b) <==> ToInt(a) < ToInt(b)
  {
    assert "" + a == a && "" + b == b;
    NumberedBefore("", a, b);
  }

  lemma {:induction false} SignedParts(sign: string, digits: string)
    requires IsNumeral(digits) && IsSign(sign)
    ensures Unsigned(sign + digits) == digits && Sign(sign + digits) == sign
  {
    assert IsDigit(digits[0]);
    if sign == "" {
      assert sign + digits == digits;
    } else {
      assert (sign + digits)[1..] == digits && (sign + digits)[..1] == sign;
    }
  }

  /** int() reads back what was printed behind a sign. */
  lemma {:induction false} PrintedSigned(sign: string, n: nat)
    requires IsSign(sign)
    ensures IsSigned(sign + Decimal(n))
    ensures SignedValue(sign + Decimal(n)) == if sign == "-" then -(n as int) else n
  {
    PrintedNumeral(n);
    SignedParts(sign, Decimal(n));
  }
}
