/** What the logged thread counts and the crossed flag mean. */
module MiLogFacts {
  import opened Text
  import opened Sequences
  import opened Conf
  import opened ConfRoundTrip
  import opened Numbers
  import opened Masks
  import opened MiLog

  // ---- The masks of a section ----

  /** How many items of a section give a kind of mask. */
  function KindCount(items: seq<Item>, kind: MaskKind): nat {
    if items == [] then 0
    else (if KindOf(items[0].key) == Some(kind) then 1 else 0) + KindCount(items[1..], kind)
  }

  /** The value of the first item that gives a kind of mask. */
  function ValueOf(items: seq<Item>, kind: MaskKind): Option<string> {
    if items == [] then None
    else if KindOf(items[0].key) == Some(kind) then Some(items[0].value)
    else ValueOf(items[1..], kind)
  }

  /** The CPUs that a section gives to a kind of thread. */
  function CpusOf(items: seq<Item>, kind: MaskKind): set<nat> {
    match ValueOf(items, kind)
    case None => {}
    case Some(value) => if Strtoul16(value).Ok? then Cpus(Strtoul16(value).value) else {}
  }

  function Taken(masks: seq<KindMask>, kind: MaskKind): nat {
    if MaskOf(masks, kind).Some? then 1 else 0
  }

  lemma {:induction false} MaskOfAdd(masks: seq<KindMask>, mask: KindMask, kind: MaskKind)
    ensures MaskOf(masks + [mask], kind)
         == if MaskOf(masks, kind).Some? then MaskOf(masks, kind)
            else if mask.kind == kind then Some(mask.value) else None
  {
    if masks != [] {
      assert (masks + [mask])[1..] == masks[1..] + [mask];
      MaskOfAdd(masks[1..], mask, kind);
    }
  }

  predicate AtMostOnce(masks: seq<KindMask>, items: seq<Item>) {
    forall kind: MaskKind :: Taken(masks, kind) + KindCount(items, kind) <= 1
  }

  /** Collecting succeeds exactly when no kind of mask is given twice, and then finds each. */
  lemma {:induction false} MasksCollected(masks: seq<KindMask>, items: seq<Item>)
    requires forall kind: MaskKind :: Taken(masks, kind) <= 1
    ensures ItemsMasks(masks, items).Ok? <==> AtMostOnce(masks, items)
    ensures ItemsMasks(masks, items).Err? ==> ItemsMasks(masks, items).error == EEXIST
    ensures ItemsMasks(masks, items).Ok? ==>
              forall kind: MaskKind :: MaskOf(ItemsMasks(masks, items).value, kind)
                == if MaskOf(masks, kind).Some? then MaskOf(masks, kind) else ValueOf(items, kind)
    decreases |items|
  {
    if items != [] {
      var kind := KindOf(items[0].key);
      if kind == None {
        MasksCollected(masks, items[1..]);
        assert AtMostOnce(masks, items) <==> AtMostOnce(masks, items[1..]);
      } else {
        var mask := KindMask(kind.value, items[0].value);
        if MaskOf(masks, kind.value).Some? {
          assert Taken(masks, kind.value) + KindCount(items, kind.value) >= 2;
        } else {
          forall k: MaskKind
            ensures MaskOf(masks + [mask], k)
                 == if MaskOf(masks, k).Some? then MaskOf(masks, k)
                    else if mask.kind == k then Some(mask.value) else None
          {
            MaskOfAdd(masks, mask, k);
          }
          MasksCollected(masks + [mask], items[1..]);
          assert AtMostOnce(masks, items) <==> AtMostOnce(masks + [mask], items[1..]) by {
            assert forall k: MaskKind ::
                Taken(masks, k) + KindCount(items, k) == Taken(masks + [mask], k) + KindCount(items[1..], k);
          }
        }
      }
    }
  }

  // ---- The crossed flag ----

  /** The crossed mask of a section, or why there is none. */
  function SectionCrossed(items: seq<Item>): Result<Mask> {
    var masks :- ItemsMasks([], items);
    CrossedMask(masks)
  }

  lemma {:induction false} GivenCpus(items: seq<Item>, masks: seq<KindMask>, kind: MaskKind)
    requires MaskOf(masks, kind) == ValueOf(items, kind)
    requires GivenMask(masks, kind).Ok?
    ensures var given := GivenMask(masks, kind).value;
            && (given.Some? <==> ValueOf(items, kind).Some?)
            && CpusOf(items, kind) == GivenSet(given)
  {
  }

  /** The CPUs of the crossed mask. */
  lemma {:induction false} CrossedCpus(items: seq<Item>)
    requires SectionCrossed(items).Ok?
    ensures Cpus(SectionCrossed(items).value)
         == if ValueOf(items, Q).Some? then (CpusOf(items, R) + CpusOf(items, W)) * CpusOf(items, Q)
            else CpusOf(items, R) + CpusOf(items, W)
  {
    MasksCollected([], items);
    var masks := ItemsMasks([], items).value;
    assert forall kind: MaskKind :: MaskOf(masks, kind) == ValueOf(items, kind);
    GivenCpus(items, masks, W);
    GivenCpus(items, masks, R);
    GivenCpus(items, masks, Q);
    CrossedMaskIs(masks, GivenMask(masks, W).value, GivenMask(masks, R).value, GivenMask(masks, Q).value);
    CombinedCpus(GivenMask(masks, W).value, GivenMask(masks, R).value, GivenMask(masks, Q).value);
  }

  /** The masks are read in the order write, read, reactor, and the first wrong one decides the error. */
  lemma {:induction false} CrossedFirstError(masks: seq<KindMask>)
    ensures CrossedMask(masks).Ok? <==>
              GivenMask(masks, W).Ok? && GivenMask(masks, R).Ok? && GivenMask(masks, Q).Ok?
    ensures GivenMask(masks, W).Err? ==> CrossedMask(masks) == Err(GivenMask(masks, W).error)
    ensures GivenMask(masks, W).Ok? && GivenMask(masks, R).Err? ==>
              CrossedMask(masks) == Err(GivenMask(masks, R).error)
    ensures GivenMask(masks, W).Ok? && GivenMask(masks, R).Ok? && GivenMask(masks, Q).Err? ==>
              CrossedMask(masks) == Err(GivenMask(masks, Q).error)
  {
  }

  function GivenSet(given: Option<Mask>): set<nat> {
    if given.Some? then Cpus(given.value) else {}
  }

  lemma {:induction false} CrossedMaskIs(masks: seq<KindMask>, w: Option<Mask>, r: Option<Mask>, q: Option<Mask>)
    requires GivenMask(masks, W) == Ok(w) && GivenMask(masks, R) == Ok(r) && GivenMask(masks, Q) == Ok(q)
    ensures CrossedMask(masks) == Ok(AndMask(OrMask(OrMask(0, w), r), q))
  {
  }

  lemma {:induction false} CombinedCpus(w: Option<Mask>, r: Option<Mask>, q: Option<Mask>)
    ensures Cpus(AndMask(OrMask(OrMask(0, w), r), q))
         == if q.Some? then (GivenSet(r) + GivenSet(w)) * GivenSet(q) else GivenSet(r) + GivenSet(w)
  {
    var none, ofW := OrGiven(0, w);
    var before, ofWR := OrGiven(OrMask(0, w), r);
    var ofQ := AndGiven(OrMask(OrMask(0, w), r), q);
    ZeroIsNoCpus(0);
    CombinedSets(none, GivenSet(w), GivenSet(r));
  }

  lemma {:induction false} CombinedSets(none: set<nat>, w: set<nat>, r: set<nat>)
    requires none == {}
    ensures none + w + r == r + w
  {
  }

  lemma {:induction false} OrGiven(crossed: Mask, given: Option<Mask>) returns (before: set<nat>, after: set<nat>)
    ensures before == Cpus(crossed) && after == Cpus(OrMask(crossed, given))
    ensures after == before + GivenSet(given)
  {
    before, after := Cpus(crossed), Cpus(OrMask(crossed, given));
    if given.Some? {
      OrIsUnion(crossed, given.value, OrMask(crossed, given));
    }
  }

  lemma {:induction false} AndGiven(crossed: Mask, given: Option<Mask>) returns (after: set<nat>)
    ensures after == Cpus(AndMask(crossed, given))
    ensures after == if given.Some? then Cpus(crossed) * GivenSet(given) else Cpus(crossed)
  {
    after := Cpus(AndMask(crossed, given));
    if given.Some? {
      AndIsIntersection(crossed, given.value, AndMask(crossed, given));
    }
  }

  /** The read or the write threads share a CPU with the reactor. */
  predicate ThreadsCross(items: seq<Item>) {
    exists cpu :: cpu in CpusOf(items, Q) && (cpu in CpusOf(items, R) || cpu in CpusOf(items, W))
  }

  /**
   * The logged flag says whether read or write threads cross with the reactor exactly for
   * the sections that give a reactor mask or no read and write CPU at all. For the others
   * it is TRUE although there is nothing to cross with.
   */
  lemma {:induction false} CrossedFlagIff(items: seq<Item>)
    requires SectionCrossed(items).Ok?
    ensures (SectionCrossed(items).value != 0 <==> ThreadsCross(items))
       <==> ValueOf(items, Q).Some? || CpusOf(items, R) + CpusOf(items, W) == {}
  {
    var mask := SectionCrossed(items).value;
    ZeroIsNoCpus(mask);
    CrossedCpus(items);
    if ValueOf(items, Q).Some? {
      if mask != 0 {
        var cpu :| cpu in Cpus(mask);
        assert cpu in CpusOf(items, Q);
      }
      if ThreadsCross(items) {
        var cpu :| cpu in CpusOf(items, Q) && (cpu in CpusOf(items, R) || cpu in CpusOf(items, W));
        assert cpu in Cpus(mask);
      }
    }
  }

  // ---- In terms of the keys of the items ----

  /** The value of the first item with a key. */
  function ValueAt(items: seq<Item>, key: string): Option<string> {
    if items == [] then None else if items[0].key == key then Some(items[0].value) else ValueAt(items[1..], key)
  }

  /** The CPUs that the first item with a key names. */
  function CpusAt(items: seq<Item>, key: string): set<nat> {
    match ValueAt(items, key)
    case None => {}
    case Some(value) => if Strtoul16(value).Ok? then Cpus(Strtoul16(value).value) else {}
  }

  lemma {:induction false} ByKey(items: seq<Item>)
    ensures ValueOf(items, Q) == ValueAt(items, "Cpumask")
    ensures ValueOf(items, R) == ValueAt(items, "R_Cpumask")
    ensures ValueOf(items, W) == ValueAt(items, "W_Cpumask")
  {
    if items != [] {
      KindByName(items[0].key);
      ByKey(items[1..]);
    }
  }

  /** The CPUs of reading or writing that are also CPUs of the reactor, or all when it has no mask. */
  function CrossingCpus(items: seq<Item>): set<nat> {
    var threads := CpusAt(items, "R_Cpumask") + CpusAt(items, "W_Cpumask");
    if ValueAt(items, "Cpumask").Some? then threads * CpusAt(items, "Cpumask") else threads
  }

  /** The crossed flag in terms of the keys. */
  lemma {:induction false} FlagByKeys(items: seq<Item>)
    requires SectionCrossed(items).Ok?
    ensures SectionCrossed(items).value != 0 <==> CrossingCpus(items) != {}
  {
    ByKey(items);
    CrossedCpus(items);
    ZeroIsNoCpus(SectionCrossed(items).value);
  }

  /** The masks among the items, in their order. */
  function GivenMasks(items: seq<Item>): seq<KindMask> {
    if items == [] then []
    else
      match KindOf(items[0].key)
      case None => GivenMasks(items[1..])
      case Some(kind) => [KindMask(kind, items[0].value)] + GivenMasks(items[1..])
  }

  /** The masks are collected in the order of the items. */
  lemma {:induction false} MasksInOrder(masks: seq<KindMask>, items: seq<Item>)
    requires ItemsMasks(masks, items).Ok?
    ensures ItemsMasks(masks, items).value == masks + GivenMasks(items)
    decreases |items|
  {
    if items == [] {
      assert masks + [] == masks;
    } else if KindOf(items[0].key) == None {
      MasksInOrder(masks, items[1..]);
    } else {
      var mask := KindMask(KindOf(items[0].key).value, items[0].value);
      MasksInOrder(masks + [mask], items[1..]);
      Regroup(masks, [mask], GivenMasks(items[1..]));
    }
  }

  // ---- What is logged up to a failure ----

  /** The thread counts of some items, in their order. */
  function AllThreads(dev: int, items: seq<Item>): seq<LogKey> {
    if items == [] then [] else ThreadsKeys(dev, items[0]) + AllThreads(dev, items[1..])
  }

  /** All items are logged, or those up to and with the first mask that was given before. */
  lemma {:induction false} ItemsKeysUpTo(dev: int, masks: seq<KindMask>, items: seq<Item>) returns (n: nat)
    ensures n <= |items| && ItemsKeys(dev, masks, items) == AllThreads(dev, items[..n])
    ensures ItemsMasks(masks, items).Ok? ==> n == |items|
    ensures ItemsMasks(masks, items).Err? ==>
              n > 0 && ItemsMasks(masks, items[..n - 1]).Ok? && ItemsMasks(masks, items[..n]).Err?
    decreases |items|
  {
    if items == [] {
      n := 0;
    } else {
      var item, rest, kind := items[0], items[1..], KindOf(items[0].key);
      var added := if kind == None then Ok(masks) else AddMask(masks, KindMask(kind.value, item.value));
      if added.Err? {
        n := 1;
        FirstItems(masks, [item], 1);
        assert items[..1] == [item] && [item][1..] == [] && items[..0] == [];
        assert AllThreads(dev, [item]) == ThreadsKeys(dev, item) + [];
      } else {
        var m := ItemsKeysUpTo(dev, added.value, rest);
        n := m + 1;
        FirstItems(masks, items, n);
        FirstItems(masks, items, m);
        AllThreadsFirst(dev, items, n);
      }
    }
  }

  lemma {:induction false} FirstItems(masks: seq<KindMask>, items: seq<Item>, n: nat)
    requires n <= |items|
    ensures n > 0 ==>
              var kind := KindOf(items[0].key);
              var added := if kind == None then Ok(masks) else AddMask(masks, KindMask(kind.value, items[0].value));
              ItemsMasks(masks, items[..n])
              == if added.Err? then Err(added.error) else ItemsMasks(added.value, items[1..][..n - 1])
    ensures n == 0 ==> ItemsMasks(masks, items[..n]) == Ok(masks)
  {
    if n > 0 {
      assert items[..n][0] == items[0] && items[..n][1..] == items[1..][..n - 1];
    }
  }

  lemma {:induction false} AllThreadsFirst(dev: int, items: seq<Item>, n: nat)
    requires 0 < n <= |items|
    ensures AllThreads(dev, items[..n]) == ThreadsKeys(dev, items[0]) + AllThreads(dev, items[1..][..n - 1])
  {
    assert items[..n][0] == items[0] && items[..n][1..] == items[1..][..n - 1];
  }

  predicate HasOther(sections: seq<Section>) {
    exists s :: s in sections && !(DEVICE_PREFIX <= s.name)
  }

  /** Sections are logged in order up to the first that fails, and one type at most. */
  lemma {:induction false} SectionsLogAppend(a: seq<Section>, b: seq<Section>, typeAdded: bool)
    ensures SectionsLog(a + b, typeAdded)
         == if SectionsLog(a, typeAdded).rc != OK then SectionsLog(a, typeAdded)
            else After(SectionsLog(a, typeAdded).keys, SectionsLog(b, typeAdded || HasOther(a)))
    decreases |a|
  {
    if a == [] {
      assert a + b == b;
      assert [] + SectionsLog(b, typeAdded).keys == SectionsLog(b, typeAdded).keys;
    } else {
      var s, rest := a[0], a[1..];
      assert (a + b)[0] == s && (a + b)[1..] == rest + b;
      assert a == [s] + rest;
      assert HasOther(a) <==> !(DEVICE_PREFIX <= s.name) || HasOther(rest) by {
        assert forall t :: t in a <==> t == s || t in rest;
      }
      var isOther := !(DEVICE_PREFIX <= s.name);
      SectionsLogAppend(rest, b, typeAdded || isOther);
      var own := if !isOther then SectionLog(s).keys else if typeAdded then [] else [DevType(s.name)];
      var later := SectionsLog(b, typeAdded || isOther || HasOther(rest));
      Regroup(own, SectionsLog(rest, typeAdded || isOther).keys, later.keys);
      if isOther && typeAdded {
        assert [] + SectionsLog(rest, true).keys == SectionsLog(rest, true).keys;
      }
    }
  }

  /** A read mask alone is reported as crossed. */
  lemma {:induction false} CrossedWithoutReactor()
    ensures var items := [Item("R_Cpumask", "0x2")];
            && SectionCrossed(items).Ok? && SectionCrossed(items).value != 0
            && !ThreadsCross(items)
  {
    var items := [Item("R_Cpumask", "0x2")];
    assert items[1..] == [];
    var masks := [KindMask(R, "0x2")];
    assert masks[1..] == [];
    assert ItemsMasks(masks, []) == Ok(masks);
    assert [] + [KindMask(R, "0x2")] == masks;
    assert ItemsMasks([], items) == Ok(masks);
    assert Strtoul16("0x2") == Ok(2) by {
      assert SkipSpaces("0x2") == "0x2";
      assert "0x2"[2..] == "2";
      assert "2"[..0] == "";
      assert DigitsValue("2", 16) == 2;
      assert Word(1) == 1;
      assert Word(2) == 2;
    }
    assert MaskOf(masks, Q) == None && MaskOf(masks, W) == None;
    assert CrossedMask(masks) == Ok(2);
  }

  // ---- The order of the items does not matter ----

  lemma {:induction false} KindCountRemove(items: seq<Item>, i: nat, kind: MaskKind)
    requires i < |items|
    ensures KindCount(items, kind)
         == KindCount(RemoveAt(items, i), kind) + (if KindOf(items[i].key) == Some(kind) then 1 else 0)
    decreases i
  {
    if i == 0 {
      assert RemoveAt(items, i) == items[1..];
    } else {
      assert RemoveAt(items, i)[1..] == RemoveAt(items[1..], i - 1);
      KindCountRemove(items[1..], i - 1, kind);
    }
  }

  lemma {:induction false} KindCountPermuted(a: seq<Item>, b: seq<Item>, kind: MaskKind)
    requires multiset(a) == multiset(b)
    ensures KindCount(a, kind) == KindCount(b, kind)
    decreases |a|
  {
    if a == [] {
      assert |b| == |multiset(b)| == 0;
    } else {
      var i := Rearranged(a, b);
      KindCountPermuted(a[1..], RemoveAt(b, i), kind);
      KindCountRemove(b, i, kind);
    }
  }

  /** Where a kind is given at most once, its value is that of any item that gives it. */
  lemma {:induction false} ValueUnique(items: seq<Item>, kind: MaskKind)
    requires KindCount(items, kind) <= 1
    ensures forall item :: item in items && KindOf(item.key) == Some(kind) ==> ValueOf(items, kind) == Some(item.value)
    ensures ValueOf(items, kind).Some? <==> KindCount(items, kind) == 1
    ensures ValueOf(items, kind).Some? ==>
              exists item :: item in items && KindOf(item.key) == Some(kind) && item.value == ValueOf(items, kind).value
  {
    if items != [] {
      ValueUnique(items[1..], kind);
      assert items == [items[0]] + items[1..];
      if KindOf(items[0].key) == Some(kind) {
        NotCounted(items[1..], kind);
      } else if ValueOf(items, kind).Some? {
        var item :| item in items[1..] && KindOf(item.key) == Some(kind) && item.value == ValueOf(items, kind).value;
        assert item in items;
      }
    }
  }

  lemma {:induction false} NotCounted(items: seq<Item>, kind: MaskKind)
    requires KindCount(items, kind) == 0
    ensures forall item :: item in items ==> KindOf(item.key) != Some(kind)
  {
    if items != [] {
      NotCounted(items[1..], kind);
      assert items == [items[0]] + items[1..];
    }
  }

  lemma {:induction false} ValuePermuted(a: seq<Item>, b: seq<Item>, kind: MaskKind)
    requires multiset(a) == multiset(b)
    requires KindCount(a, kind) <= 1
    ensures ValueOf(a, kind) == ValueOf(b, kind)
  {
    KindCountPermuted(a, b, kind);
    ValueUnique(a, kind);
    ValueUnique(b, kind);
    if ValueOf(a, kind).Some? {
      var item :| item in a && KindOf(item.key) == Some(kind) && item.value == ValueOf(a, kind).value;
      assert item in multiset(b);
    }
  }

  /** Reordering the items of a section changes neither the flag nor the error. */
  lemma {:induction false} CrossedOrderIndependent(a: seq<Item>, b: seq<Item>)
    requires multiset(a) == multiset(b)
    ensures SectionCrossed(a) == SectionCrossed(b)
  {
    MasksCollected([], a);
    MasksCollected([], b);
    forall kind: MaskKind ensures KindCount(a, kind) == KindCount(b, kind) {
      KindCountPermuted(a, b, kind);
    }
    assert AtMostOnce([], a) <==> AtMostOnce([], b);
    if ItemsMasks([], a).Ok? {
      var masksA, masksB := ItemsMasks([], a).value, ItemsMasks([], b).value;
      forall kind: MaskKind ensures GivenMask(masksA, kind) == GivenMask(masksB, kind) {
        assert Taken([], kind) + KindCount(a, kind) <= 1;
        ValuePermuted(a, b, kind);
      }
    }
  }

  // ---- The log of a configuration that was read back ----

  /** The masks with a text in front of each value. */
  function Led(lead: string, masks: seq<KindMask>): (r: seq<KindMask>)
    ensures |r| == |masks|
    ensures forall i :: 0 <= i < |masks| ==> r[i] == KindMask(masks[i].kind, lead + masks[i].value)
  {
    seq(|masks|, i requires 0 <= i < |masks| => KindMask(masks[i].kind, lead + masks[i].value))
  }

  /** The one key that shows the text of the masks. */
  function LedKey(lead: string, key: LogKey): LogKey {
    match key
    case QrwMask(dev, masks) => QrwMask(dev, Led(lead, masks))
    case _ => key
  }

  function LedKeys(lead: string, keys: seq<LogKey>): (r: seq<LogKey>)
    ensures |r| == |keys|
    ensures forall i :: 0 <= i < |keys| ==> r[i] == LedKey(lead, keys[i])
  {
    seq(|keys|, i requires 0 <= i < |keys| => LedKey(lead, keys[i]))
  }

  function LedLog(lead: string, log: Logged): Logged {
    Logged(log.rc, LedKeys(lead, log.keys))
  }

  lemma {:induction false} LedMask(delimiter: string, masks: seq<KindMask>, kind: MaskKind)
    requires AllSpaces(delimiter)
    ensures MaskOf(Led(delimiter + " ", masks), kind)
         == if MaskOf(masks, kind).Some? then Some(delimiter + " " + MaskOf(masks, kind).value) else None
  {
    if masks != [] {
      assert Led(delimiter + " ", masks)[1..] == Led(delimiter + " ", masks[1..]);
      LedMask(delimiter, masks[1..], kind);
    }
  }

  lemma {:induction false} LedNumber(delimiter: string, value: string)
    requires AllSpaces(delimiter)
    ensures Strtoul16(delimiter + " " + value) == Strtoul16(value)
  {
    BlanksBeforeNumber(delimiter + " ", value, 16);
  }

  lemma {:induction false} LedItems(delimiter: string, dev: int, masks: seq<KindMask>, items: seq<Item>)
    requires AllSpaces(delimiter)
    ensures var lead := delimiter + " "; var again := ReadBackItems(delimiter, items);
            && ItemsKeys(dev, Led(lead, masks), again) == ItemsKeys(dev, masks, items)
            && ItemsMasks(Led(lead, masks), again)
               == (match ItemsMasks(masks, items) case Err(e) => Err(e) case Ok(all) => Ok(Led(lead, all)))
    decreases |items|
  {
    if items != [] {
      var lead, again := delimiter + " ", ReadBackItems(delimiter, items);
      assert again[1..] == ReadBackItems(delimiter, items[1..]);
      LedNumber(delimiter, items[0].value);
      if KindOf(items[0].key) == None {
        LedItems(delimiter, dev, masks, items[1..]);
      } else {
        var mask := KindMask(KindOf(items[0].key).value, items[0].value);
        LedMask(delimiter, masks, mask.kind);
        if MaskOf(masks, mask.kind) == None {
          LedItems(delimiter, dev, masks + [mask], items[1..]);
          assert Led(lead, masks + [mask]) == Led(lead, masks) + [KindMask(mask.kind, lead + mask.value)];
        }
      }
    }
  }

  lemma {:induction false} LedCrossed(delimiter: string, masks: seq<KindMask>)
    requires AllSpaces(delimiter)
    ensures CrossedMask(Led(delimiter + " ", masks)) == CrossedMask(masks)
  {
    forall kind: MaskKind
      ensures GivenMask(Led(delimiter + " ", masks), kind) == GivenMask(masks, kind)
    {
      LedMask(delimiter, masks, kind);
      if MaskOf(masks, kind).Some? {
        LedNumber(delimiter, MaskOf(masks, kind).value);
      }
    }
  }

  /** The keys of the item loop are thread counts. */
  lemma {:induction false} ItemsKeysThreads(dev: int, masks: seq<KindMask>, items: seq<Item>)
    ensures forall key :: key in ItemsKeys(dev, masks, items) ==> key.Threads? && key.dev == dev
    decreases |items|
  {
    if items != [] && KindOf(items[0].key).Some? {
      var added := AddMask(masks, KindMask(KindOf(items[0].key).value, items[0].value));
      if added.Ok? {
        ItemsKeysThreads(dev, added.value, items[1..]);
      }
    } else if items != [] {
      ItemsKeysThreads(dev, masks, items[1..]);
    }
  }

  lemma {:induction false} LedSection(s: Section)
    requires DEVICE_PREFIX <= s.name && AllSpaces(s.delimiter)
    ensures SectionLog(ReadBack(s)) == LedLog(s.delimiter + " ", SectionLog(s))
  {
    var number := Strtol10(s.name[|DEVICE_PREFIX|..]);
    if number.Ok? {
      var lead, dev := s.delimiter + " ", number.value;
      assert Led(lead, []) == [];
      LedItems(s.delimiter, dev, [], s.items);
      ItemsKeysThreads(dev, [], s.items);
      var keys := ItemsKeys(dev, [], s.items);
      assert LedKeys(lead, keys) == keys by {
        assert forall i :: 0 <= i < |keys| ==> keys[i] in keys;
      }
      if ItemsMasks([], s.items).Ok? {
        var masks := ItemsMasks([], s.items).value;
        LedCrossed(s.delimiter, masks);
        if CrossedMask(masks).Ok? {
          var tail := [ThreadsCrossed(dev, CrossedMask(masks).value != 0), QrwMask(dev, masks)];
          assert LedKeys(lead, keys + tail) == LedKeys(lead, keys) + LedKeys(lead, tail);
          assert LedKeys(lead, tail)
              == [ThreadsCrossed(dev, CrossedMask(masks).value != 0), QrwMask(dev, Led(lead, masks))];
        }
      }
    }
  }

  lemma {:induction false} LedSections(delimiter: string, sections: seq<Section>, typeAdded: bool)
    requires AllSpaces(delimiter)
    requires forall i :: 0 <= i < |sections| ==> sections[i].delimiter == delimiter
    ensures SectionsLog(ReadBackAll(sections), typeAdded) == LedLog(delimiter + " ", SectionsLog(sections, typeAdded))
    decreases |sections|
  {
    var lead, again := delimiter + " ", ReadBackAll(sections);
    if sections == [] {
      assert LedKeys(lead, []) == [];
    } else {
      var s, rest := sections[0], sections[1..];
      assert again[0] == ReadBack(s) && again[1..] == ReadBackAll(rest);
      if DEVICE_PREFIX <= s.name {
        LedSection(s);
        LedSections(delimiter, rest, typeAdded);
        LedAfter(lead, SectionLog(s).keys, SectionsLog(rest, typeAdded));
      } else if !typeAdded {
        LedSections(delimiter, rest, true);
        LedAfter(lead, [DevType(s.name)], SectionsLog(rest, true));
        assert LedKeys(lead, [DevType(s.name)]) == [DevType(s.name)];
      } else {
        LedSections(delimiter, rest, typeAdded);
      }
    }
  }

  lemma {:induction false} LedAfter(lead: string, keys: seq<LogKey>, rest: Logged)
    ensures LedLog(lead, After(keys, rest)) == After(LedKeys(lead, keys), LedLog(lead, rest))
  {
    assert LedKeys(lead, keys + rest.keys) == LedKeys(lead, keys) + LedKeys(lead, rest.keys);
  }

  lemma {:induction false} SameDevCount(sections: seq<Section>)
    ensures DevCount(ReadBackAll(sections)) == DevCount(sections)
  {
    if sections != [] {
      assert ReadBackAll(sections)[1..] == ReadBackAll(sections[1..]);
      SameDevCount(sections[1..]);
    }
  }

  /**
   * The log of a configuration that was read back is the log of the configuration itself,
   * with the blanks of the reader only in the key that shows the masks as text.
   */
  lemma {:induction false} ReadBackLog(delimiter: string, sections: seq<Section>, multipath: bool)
    requires AllSpaces(delimiter)
    requires forall i :: 0 <= i < |sections| ==> sections[i].delimiter == delimiter
    ensures ConfLog(ReadBackAll(sections), multipath) == LedLog(delimiter + " ", ConfLog(sections, multipath))
  {
    var head := [Multipath(multipath), Dev(DevCount(sections))];
    LedSections(delimiter, sections, false);
    SameDevCount(sections);
    LedAfter(delimiter + " ", head, SectionsLog(sections, false));
    assert LedKeys(delimiter + " ", head) == head;
  }
}
