/**
 * From command-line arguments to performance keys: a configuration is created from the
 * arguments, written to a file, read back and logged.
 */
module EndToEnd {
  import opened Text
  import opened Stdio
  import opened Conf
  import opened ConfRoundTrip
  import opened BlkProxyConf
  import opened Numbers
  import opened Masks
  import opened MiLog
  import opened MiLogFacts

  /** What a setting must look like for the created file to be read back. */
  predicate SettingReadable(e: Setting) {
    && ']' !in e.section
    && OneRead(HeaderText(e.section), PATH_MAX)
    && EntryReadable(e.item)
    && OneRead(EntryText("", e.item), PATH_MAX)
  }

  lemma {:induction false} ItemsFromSettings(settings: seq<Setting>, name: string, item: Item)
    ensures item in ItemsOf(settings, name) <==> Setting(name, item) in settings
  {
    if settings != [] {
      var before, last := settings[..|settings| - 1], settings[|settings| - 1];
      assert settings == before + [last];
      ItemsFromSettings(before, name, item);
    }
  }

  lemma {:induction false} GroupReadable(settings: seq<Setting>, i: nat)
    requires i < |GroupBy(settings)|
    ensures SectionParses(GroupBy(settings), i) && SectionFits(GroupBy(settings)[i])
       <==> forall e :: e in settings && e.section == GroupBy(settings)[i].name ==> SettingReadable(e)
  {
    var sections := GroupBy(settings);
    var s := sections[i];
    SectionsInOrder(settings);
    assert IsNew(sections[..i], s.name);
    assert s.name in Names(settings);
    if SectionParses(sections, i) && SectionFits(s) {
      forall e | e in settings && e.section == s.name ensures SettingReadable(e) {
        ItemsFromSettings(settings, s.name, e.item);
        assert e.item in s.items;
      }
    }
    if forall e :: e in settings && e.section == s.name ==> SettingReadable(e) {
      forall j | 0 <= j < |s.items| ensures SettingReadable(Setting(s.name, s.items[j])) {
        ItemsFromSettings(settings, s.name, s.items[j]);
      }
    }
  }

  /** The file created from some settings is read back exactly when each setting can be. */
  lemma {:induction false} CreatedConfigReadsBackIff(settings: seq<Setting>)
    ensures ReadsBackAs(Print(GroupBy(settings)), ReadBackAll(GroupBy(settings)))
       <==> forall e :: e in settings ==> SettingReadable(e)
  {
    var sections := GroupBy(settings);
    ReadsBackIff(sections);
    forall i | 0 <= i < |sections|
      ensures SectionParses(sections, i) && SectionFits(sections[i])
         <==> forall e :: e in settings && e.section == sections[i].name ==> SettingReadable(e)
    {
      GroupReadable(settings, i);
    }
    if Readable(sections) {
      forall e | e in settings ensures SettingReadable(e) {
        assert e.section in Names(settings);
        var i :| 0 <= i < |sections| && Names(settings)[i] == e.section;
        assert sections[i].name == e.section;
      }
    }
  }

  /**
   * Logging the file that was created, written and read back gives the status and the keys
   * that the arguments themselves determine; only the text of the masks has gained a blank.
   */
  lemma {:induction false} LogOfReadBack(settings: seq<Setting>, multipath: bool)
    requires forall e :: e in settings ==> SettingReadable(e)
    ensures var end := ReadText(Print(GroupBy(settings)));
            && end.rc == OK
            && ConfLog(end.sections, multipath) == LedLog(" ", ConfLog(GroupBy(settings), multipath))
  {
    CreatedConfigReadsBackIff(settings);
    ReadBackLog("", GroupBy(settings), multipath);
    assert "" + " " == " ";
  }

  // ---- The keys in terms of the arguments ----

  predicate IsDevice(name: string, dev: int) {
    DEVICE_PREFIX <= name && Strtol10(name[|DEVICE_PREFIX|..]) == Ok(dev)
  }

  /** An item that gives this thread count. */
  predicate Counts(item: Item, kind: MaskKind, count: nat) {
    && KindOf(item.key) == Some(kind)
    && Strtoul16(item.value).Ok?
    && count == |Cpus(Strtoul16(item.value).value)|
  }

  lemma {:induction false} ItemsThreads(dev: int, masks: seq<KindMask>, items: seq<Item>, kind: MaskKind, count: nat)
    requires ItemsMasks(masks, items).Ok?
    ensures Threads(dev, kind, count) in ItemsKeys(dev, masks, items)
       <==> exists item :: item in items && Counts(item, kind, count)
    decreases |items|
  {
    if items != [] {
      assert items == [items[0]] + items[1..];
      assert forall item :: item in items <==> item == items[0] || item in items[1..];
      if KindOf(items[0].key) == None {
        ItemsThreads(dev, masks, items[1..], kind, count);
      } else {
        var more := AddMask(masks, KindMask(KindOf(items[0].key).value, items[0].value)).value;
        ItemsThreads(dev, more, items[1..], kind, count);
        assert Threads(dev, kind, count) in ThreadsKeys(dev, items[0]) <==> Counts(items[0], kind, count);
      }
    }
  }

  lemma {:induction false} SectionThreads(s: Section, dev: int, kind: MaskKind, count: nat)
    requires DEVICE_PREFIX <= s.name && SectionLog(s).rc == OK
    ensures Threads(dev, kind, count) in SectionLog(s).keys
       <==> IsDevice(s.name, dev) && exists item :: item in s.items && Counts(item, kind, count)
  {
    MasksCollected([], s.items);
    var own := Strtol10(s.name[|DEVICE_PREFIX|..]).value;
    ItemsThreads(own, [], s.items, kind, count);
    ItemsKeysThreads(own, [], s.items);
  }

  lemma {:induction false} SectionFlag(s: Section, dev: int, crossed: bool)
    requires DEVICE_PREFIX <= s.name && SectionLog(s).rc == OK
    ensures SectionCrossed(s.items).Ok?
    ensures ThreadsCrossed(dev, crossed) in SectionLog(s).keys
       <==> IsDevice(s.name, dev) && (crossed <==> SectionCrossed(s.items).value != 0)
  {
    MasksCollected([], s.items);
    var own := Strtol10(s.name[|DEVICE_PREFIX|..]).value;
    ItemsKeysThreads(own, [], s.items);
    FlagKey(ItemsKeys(own, [], s.items), own, SectionCrossed(s.items).value != 0, ItemsMasks([], s.items).value,
            dev, crossed);
  }

  lemma {:induction false} FlagKey(keys: seq<LogKey>, own: int, flag: bool, masks: seq<KindMask>, dev: int,
                                   crossed: bool)
    requires forall key :: key in keys ==> key.Threads?
    ensures ThreadsCrossed(dev, crossed) in keys + [ThreadsCrossed(own, flag), QrwMask(own, masks)]
       <==> dev == own && crossed == flag
  {
    var tail := [ThreadsCrossed(own, flag), QrwMask(own, masks)];
    assert (keys + tail)[|keys|] == tail[0];
    assert forall key :: key in keys + tail <==> key in keys || key in tail;
  }

  /** The device keys are those of the device sections. */
  lemma {:induction false} SectionsKeys(sections: seq<Section>, typeAdded: bool, key: LogKey)
    requires SectionsLog(sections, typeAdded).rc == OK && !key.DevType?
    ensures key in SectionsLog(sections, typeAdded).keys
       <==> exists s :: s in sections && DEVICE_PREFIX <= s.name && key in SectionLog(s).keys
    ensures forall s :: s in sections && DEVICE_PREFIX <= s.name ==> SectionLog(s).rc == OK
    decreases |sections|
  {
    if sections != [] {
      assert sections == [sections[0]] + sections[1..];
      assert forall s :: s in sections <==> s == sections[0] || s in sections[1..];
      SectionsKeys(sections[1..], typeAdded || !(DEVICE_PREFIX <= sections[0].name), key);
    }
  }

  /**
   * A thread count is logged for a device exactly when an argument for a section of that
   * device gives a mask of that kind with so many CPUs.
   */
  lemma {:induction false} ThreadsFromArguments(settings: seq<Setting>, multipath: bool, dev: int, kind: MaskKind,
                                                count: nat)
    requires ConfLog(GroupBy(settings), multipath).rc == OK
    ensures Threads(dev, kind, count) in ConfLog(GroupBy(settings), multipath).keys
       <==> exists e :: e in settings && IsDevice(e.section, dev) && Counts(e.item, kind, count)
  {
    var sections, key := GroupBy(settings), Threads(dev, kind, count);
    SectionsKeys(sections, false, key);
    if key in SectionsLog(sections, false).keys {
      var s :| s in sections && DEVICE_PREFIX <= s.name && key in SectionLog(s).keys;
      SectionThreads(s, dev, kind, count);
      var item :| item in s.items && Counts(item, kind, count);
      ItemsFromSettings(settings, s.name, item);
      assert Setting(s.name, item) in settings;
    }
    if exists e :: e in settings && IsDevice(e.section, dev) && Counts(e.item, kind, count) {
      var e :| e in settings && IsDevice(e.section, dev) && Counts(e.item, kind, count);
      var s := GroupOf(settings, e.section);
      ItemsFromSettings(settings, s.name, e.item);
      SectionThreads(s, dev, kind, count);
    }
  }

  lemma {:induction false} GroupOf(settings: seq<Setting>, name: string) returns (s: Section)
    requires exists e :: e in settings && e.section == name
    ensures s in GroupBy(settings) && s.name == name && s.items == ItemsOf(settings, name)
  {
    assert name in Names(settings);
    var i :| 0 <= i < |Names(settings)| && Names(settings)[i] == name;
    s := GroupBy(settings)[i];
  }

  /**
   * A crossed flag is logged for a device exactly when some section of that device is used,
   * and it is the flag of the arguments for that section.
   */
  lemma {:induction false} CrossedFromArguments(settings: seq<Setting>, multipath: bool, dev: int, crossed: bool)
    requires ConfLog(GroupBy(settings), multipath).rc == OK
    ensures ThreadsCrossed(dev, crossed) in ConfLog(GroupBy(settings), multipath).keys
       <==> exists e :: e in settings && IsDevice(e.section, dev) && FlagIs(settings, e.section, crossed)
  {
    var sections, key := GroupBy(settings), ThreadsCrossed(dev, crossed);
    SectionsKeys(sections, false, key);
    if key in SectionsLog(sections, false).keys {
      var s :| s in sections && DEVICE_PREFIX <= s.name && key in SectionLog(s).keys;
      SectionFlag(s, dev, crossed);
      assert s.name in Names(settings);
      var e :| e in settings && e.section == s.name;
      FlagByKeys(s.items);
      assert FlagIs(settings, e.section, crossed);
    }
    if exists e :: e in settings && IsDevice(e.section, dev) && FlagIs(settings, e.section, crossed) {
      var e :| e in settings && IsDevice(e.section, dev) && FlagIs(settings, e.section, crossed);
      var s := GroupOf(settings, e.section);
      SectionFlag(s, dev, crossed);
      FlagByKeys(s.items);
    }
  }

  /** Whether the arguments for a section cross, going by the keys that they give. */
  predicate FlagIs(settings: seq<Setting>, name: string, crossed: bool) {
    crossed <==> CrossingCpus(ItemsOf(settings, name)) != {}
  }

  /** The masks of a section as text are those of its arguments. */
  lemma {:induction false} SectionMasks(s: Section, dev: int, masks: seq<KindMask>)
    requires DEVICE_PREFIX <= s.name && SectionLog(s).rc == OK
    ensures QrwMask(dev, masks) in SectionLog(s).keys <==> IsDevice(s.name, dev) && masks == GivenMasks(s.items)
  {
    MasksCollected([], s.items);
    var own := Strtol10(s.name[|DEVICE_PREFIX|..]).value;
    ItemsKeysThreads(own, [], s.items);
    MasksInOrder([], s.items);
    assert [] + GivenMasks(s.items) == GivenMasks(s.items);
    MasksKey(ItemsKeys(own, [], s.items), own, CrossedMask(ItemsMasks([], s.items).value).value != 0,
             GivenMasks(s.items), dev, masks);
  }

  lemma {:induction false} MasksKey(keys: seq<LogKey>, own: int, flag: bool, given: seq<KindMask>, dev: int,
                                    masks: seq<KindMask>)
    requires forall key :: key in keys ==> key.Threads?
    ensures QrwMask(dev, masks) in keys + [ThreadsCrossed(own, flag), QrwMask(own, given)]
       <==> dev == own && masks == given
  {
    var tail := [ThreadsCrossed(own, flag), QrwMask(own, given)];
    assert (keys + tail)[|keys| + 1] == tail[1];
    assert forall key :: key in keys + tail <==> key in keys || key in tail;
  }

  /** The masks that are logged as text are those of the arguments for a device, in their order. */
  lemma {:induction false} MasksFromArguments(settings: seq<Setting>, multipath: bool, dev: int, masks: seq<KindMask>)
    requires ConfLog(GroupBy(settings), multipath).rc == OK
    ensures QrwMask(dev, masks) in ConfLog(GroupBy(settings), multipath).keys
       <==> exists e :: e in settings && IsDevice(e.section, dev) && masks == GivenMasks(ItemsOf(settings, e.section))
  {
    var sections, key := GroupBy(settings), QrwMask(dev, masks);
    SectionsKeys(sections, false, key);
    if key in SectionsLog(sections, false).keys {
      var s :| s in sections && DEVICE_PREFIX <= s.name && key in SectionLog(s).keys;
      SectionMasks(s, dev, masks);
      assert s.name in Names(settings);
      var e :| e in settings && e.section == s.name;
      assert masks == GivenMasks(ItemsOf(settings, e.section));
    }
    if e :| e in settings && IsDevice(e.section, dev) && masks == GivenMasks(ItemsOf(settings, e.section)) {
      var s := GroupOf(settings, e.section);
      SectionMasks(s, dev, masks);
    }
  }

  // ---- What the arguments look like ----

  /** A device section with a printed number is that device. */
  lemma {:induction false} PrintedDevice(n: nat, dev: int)
    ensures IsDevice("MapVirtioBlk" + Decimal(n), dev) <==> dev == n && n <= LONG_MAX
  {
    var name := "MapVirtioBlk" + Decimal(n);
    assert name[|DEVICE_PREFIX|..] == Decimal(n);
    PlainDecimalRead(n);
  }

  /** A printed mask gives as many threads as its number has one bits. */
  lemma {:induction false} PrintedThreads(key: string, n: nat, count: nat)
    requires n <= ULONG_MAX
    ensures GivesCount(Item(key, "0x" + Hex(n)), key, count) <==> count == |BitsOf(n)|
  {
    PrintedMask(n);
  }

  /** An item with this key and a mask of so many CPUs. */
  predicate GivesCount(item: Item, key: string, count: nat) {
    item.key == key && Strtoul16(item.value).Ok? && count == |Cpus(Strtoul16(item.value).value)|
  }

  lemma {:induction false} CountsByKey(item: Item, count: nat)
    ensures Counts(item, Q, count) <==> GivesCount(item, "Cpumask", count)
    ensures Counts(item, R, count) <==> GivesCount(item, "R_Cpumask", count)
    ensures Counts(item, W, count) <==> GivesCount(item, "W_Cpumask", count)
  {
    KindByName(item.key);
  }

  lemma {:induction false} LedKeeps(lead: string, keys: seq<LogKey>, key: LogKey)
    requires !key.QrwMask?
    ensures key in LedKeys(lead, keys) <==> key in keys
  {
    if key in keys {
      var i :| 0 <= i < |keys| && keys[i] == key;
      assert LedKeys(lead, keys)[i] == key;
    }
  }

  // ---- When the log succeeds ----

  predicate MasksParse(items: seq<Item>) {
    forall item :: item in items && KindOf(item.key).Some? ==> Strtoul16(item.value).Ok?
  }

  predicate KindParses(items: seq<Item>, kind: MaskKind) {
    forall item :: item in items && KindOf(item.key) == Some(kind) ==> Strtoul16(item.value).Ok?
  }

  lemma {:induction false} KindSucceedsIff(items: seq<Item>, masks: seq<KindMask>, kind: MaskKind)
    requires KindCount(items, kind) <= 1 && MaskOf(masks, kind) == ValueOf(items, kind)
    ensures GivenMask(masks, kind).Ok? <==> KindParses(items, kind)
    ensures GivenMask(masks, kind).Err? ==> GivenMask(masks, kind).error != OK
  {
    ValueUnique(items, kind);
    if ValueOf(items, kind) == None {
      NotCounted(items, kind);
    }
  }

  lemma {:induction false} CrossedSucceedsIff(items: seq<Item>)
    requires AtMostOnce([], items)
    ensures SectionCrossed(items).Ok? <==> MasksParse(items)
    ensures SectionCrossed(items).Err? ==> SectionCrossed(items).error != OK
  {
    MasksCollected([], items);
    var masks := ItemsMasks([], items).value;
    forall kind: MaskKind
      ensures GivenMask(masks, kind).Ok? <==> KindParses(items, kind)
      ensures GivenMask(masks, kind).Err? ==> GivenMask(masks, kind).error != OK
    {
      assert Taken([], kind) + KindCount(items, kind) <= 1;
      KindSucceedsIff(items, masks, kind);
    }
    AllKinds(items);
  }

  lemma {:induction false} AllKinds(items: seq<Item>)
    ensures MasksParse(items) <==> KindParses(items, Q) && KindParses(items, R) && KindParses(items, W)
  {
  }

  /** A device section is logged without an error: its number, and each mask once and a number. */
  predicate SectionLoggable(name: string, items: seq<Item>)
    requires DEVICE_PREFIX <= name
  {
    && Strtol10(name[|DEVICE_PREFIX|..]).Ok?
    && AtMostOnce([], items)
    && MasksParse(items)
  }

  lemma {:induction false} SectionSucceedsIff(s: Section)
    requires DEVICE_PREFIX <= s.name
    ensures SectionLog(s).rc == OK <==> SectionLoggable(s.name, s.items)
  {
    MasksCollected([], s.items);
    if AtMostOnce([], s.items) {
      CrossedSucceedsIff(s.items);
    }
  }

  lemma {:induction false} SectionsSucceedIff(sections: seq<Section>, typeAdded: bool)
    ensures SectionsLog(sections, typeAdded).rc == OK
       <==> forall s :: s in sections && DEVICE_PREFIX <= s.name ==> SectionLog(s).rc == OK
    decreases |sections|
  {
    if sections != [] {
      assert sections == [sections[0]] + sections[1..];
      assert forall s :: s in sections <==> s == sections[0] || s in sections[1..];
      SectionsSucceedIff(sections[1..], typeAdded || !(DEVICE_PREFIX <= sections[0].name));
    }
  }

  /** Every device section of the arguments can be logged. */
  predicate Loggable(settings: seq<Setting>) {
    forall e :: e in settings && DEVICE_PREFIX <= e.section ==>
      SectionLoggable(e.section, ItemsOf(settings, e.section))
  }

  /** Logging succeeds exactly when every device section of the arguments is loggable. */
  lemma {:induction false} LogSucceedsIff(settings: seq<Setting>, multipath: bool)
    ensures ConfLog(GroupBy(settings), multipath).rc == OK <==> Loggable(settings)
  {
    var sections := GroupBy(settings);
    SectionsSucceedIff(sections, false);
    forall s | s in sections && DEVICE_PREFIX <= s.name
      ensures SectionLog(s).rc == OK <==> SectionLoggable(s.name, ItemsOf(settings, s.name))
      ensures exists e :: e in settings && e.section == s.name
    {
      SectionSucceedsIff(s);
      assert s.name in Names(settings);
    }
    forall e | e in settings ensures exists s :: s in sections && s.name == e.section {
      var s := GroupOf(settings, e.section);
    }
  }

  // ---- The device count and the device type ----

  function DeviceNames(settings: seq<Setting>): set<string> {
    set e | e in settings && DEVICE_PREFIX <= e.section :: e.section
  }

  lemma {:induction false} DevCountAdd(sections: seq<Section>, e: Setting)
    ensures var missing := Find(sections, e.section) == |sections|;
            DevCount(AddSetting(sections, e))
            == DevCount(sections) + if missing && DEVICE_PREFIX <= e.section then 1 else 0
  {
    var more := AddSetting(sections, e);
    if sections == [] {
      assert more[1..] == [];
    } else if sections[0].name == e.section {
      assert more[1..] == sections[1..];
    } else {
      DevCountAdd(sections[1..], e);
      AddLater(sections, e);
    }
  }

  lemma {:induction false} FindUsed(settings: seq<Setting>, name: string)
    ensures Find(GroupBy(settings), name) < |GroupBy(settings)| <==> UsesSection(settings, name)
  {
    var sections, i := GroupBy(settings), Find(GroupBy(settings), name);
    if i < |sections| {
      assert Names(settings)[i] == name;
      assert name in Names(settings);
    }
    if UsesSection(settings, name) {
      var s := GroupOf(settings, name);
      var k :| 0 <= k < |sections| && sections[k] == s;
    }
  }

  predicate UsesSection(settings: seq<Setting>, name: string) {
    exists e :: e in settings && e.section == name
  }

  lemma {:induction false} DeviceNamesAdd(before: seq<Setting>, last: Setting)
    ensures |DeviceNames(before + [last])| == |DeviceNames(before)|
              + if DEVICE_PREFIX <= last.section && !UsesSection(before, last.section) then 1 else 0
  {
    var all := before + [last];
    assert forall e :: e in all <==> e in before || e == last;
    assert DeviceNames(all) == DeviceNames(before) + if DEVICE_PREFIX <= last.section then {last.section} else {};
    assert DEVICE_PREFIX <= last.section ==>
             (last.section in DeviceNames(before) <==> UsesSection(before, last.section));
  }

  /** The logged count is the number of different device sections among the arguments. */
  lemma {:induction false} DevCountFromArguments(settings: seq<Setting>)
    ensures DevCount(GroupBy(settings)) == |DeviceNames(settings)|
  {
    if settings == [] {
      assert GroupBy(settings) == [] && DeviceNames(settings) == {};
    } else {
      var before, last := settings[..|settings| - 1], settings[|settings| - 1];
      assert settings == before + [last];
      DevCountFromArguments(before);
      GroupByAdd(before, last);
      DevCountAdd(GroupBy(before), last);
      FindUsed(before, last.section);
      DeviceNamesAdd(before, last);
    }
  }

  /** The device types that were logged. */
  function DevTypes(keys: seq<LogKey>): seq<string> {
    if keys == [] then []
    else (if keys[0].DevType? then [keys[0].name] else []) + DevTypes(keys[1..])
  }

  /** The first section that is no device, if any. */
  function FirstOther(sections: seq<Section>): seq<string> {
    if sections == [] then []
    else if DEVICE_PREFIX <= sections[0].name then FirstOther(sections[1..])
    else [sections[0].name]
  }

  lemma {:induction false} DevTypesAppend(a: seq<LogKey>, b: seq<LogKey>)
    ensures DevTypes(a + b) == DevTypes(a) + DevTypes(b)
  {
    if a == [] {
      assert a + b == b;
    } else {
      assert (a + b)[1..] == a[1..] + b;
      DevTypesAppend(a[1..], b);
    }
  }

  lemma {:induction false} NoDevTypes(keys: seq<LogKey>)
    requires forall key :: key in keys ==> !key.DevType?
    ensures DevTypes(keys) == []
  {
    if keys != [] {
      assert keys[0] in keys;
      assert forall key :: key in keys[1..] ==> key in keys;
      NoDevTypes(keys[1..]);
    }
  }

  lemma {:induction false} SectionHasNoType(s: Section)
    requires DEVICE_PREFIX <= s.name
    ensures DevTypes(SectionLog(s).keys) == []
  {
    var number := Strtol10(s.name[|DEVICE_PREFIX|..]);
    if number.Ok? {
      ItemsKeysThreads(number.value, [], s.items);
    }
    NoDevTypes(SectionLog(s).keys);
  }

  /** At most one device type is logged: the first section that is no device. */
  lemma {:induction false} DevTypeOnce(sections: seq<Section>, typeAdded: bool)
    requires SectionsLog(sections, typeAdded).rc == OK
    ensures DevTypes(SectionsLog(sections, typeAdded).keys) == if typeAdded then [] else FirstOther(sections)
    decreases |sections|
  {
    if sections != [] {
      var s, rest := sections[0], sections[1..];
      if DEVICE_PREFIX <= s.name {
        DevTypeOnce(rest, typeAdded);
        SectionHasNoType(s);
        DevTypesAppend(SectionLog(s).keys, SectionsLog(rest, typeAdded).keys);
      } else if !typeAdded {
        DevTypeOnce(rest, true);
        DevTypesAppend([DevType(s.name)], SectionsLog(rest, true).keys);
        assert DevTypes([DevType(s.name)]) == [s.name];
      } else {
        DevTypeOnce(rest, typeAdded);
      }
    }
  }

  /** The first section without the device prefix that the arguments use, if any. */
  function FirstOtherOf(settings: seq<Setting>): seq<string> {
    if settings == [] then []
    else
      var before, last := FirstOtherOf(settings[..|settings| - 1]), settings[|settings| - 1];
      if before != [] || DEVICE_PREFIX <= last.section then before else [last.section]
  }

  lemma {:induction false} FirstOtherAdd(sections: seq<Section>, e: Setting)
    ensures FirstOther(AddSetting(sections, e))
         == if FirstOther(sections) != [] || DEVICE_PREFIX <= e.section then FirstOther(sections) else [e.section]
  {
    var more := AddSetting(sections, e);
    if sections == [] {
      assert more[1..] == [];
    } else if sections[0].name == e.section {
      assert more[1..] == sections[1..];
    } else {
      FirstOtherAdd(sections[1..], e);
      AddLater(sections, e);
    }
  }

  lemma {:induction false} FirstOtherFromArguments(settings: seq<Setting>)
    ensures FirstOther(GroupBy(settings)) == FirstOtherOf(settings)
  {
    if settings == [] {
      assert GroupBy(settings) == [];
    } else {
      var before, last := settings[..|settings| - 1], settings[|settings| - 1];
      FirstOtherFromArguments(before);
      GroupByAdd(before, last);
      assert settings == before + [last];
      FirstOtherAdd(GroupBy(before), last);
    }
  }

  // ---- The whole way ----

  /** Keys that the two leading ones are not among. */
  predicate NoLeadingKeys(keys: seq<LogKey>) {
    forall key :: key in keys ==> !key.Dev? && !key.Multipath?
  }

  lemma {:induction false} SectionNoLeadingKeys(s: Section)
    requires DEVICE_PREFIX <= s.name
    ensures NoLeadingKeys(SectionLog(s).keys)
  {
    var number := Strtol10(s.name[|DEVICE_PREFIX|..]);
    if number.Ok? {
      ItemsKeysThreads(number.value, [], s.items);
    }
  }

  lemma {:induction false} SectionsNoLeadingKeys(sections: seq<Section>, typeAdded: bool)
    ensures NoLeadingKeys(SectionsLog(sections, typeAdded).keys)
    decreases |sections|
  {
    if sections != [] {
      var s := sections[0];
      if DEVICE_PREFIX <= s.name {
        SectionNoLeadingKeys(s);
        SectionsNoLeadingKeys(sections[1..], typeAdded);
      } else {
        SectionsNoLeadingKeys(sections[1..], true);
      }
    }
  }

  lemma {:induction false} LedDevTypes(lead: string, keys: seq<LogKey>)
    ensures DevTypes(LedKeys(lead, keys)) == DevTypes(keys)
  {
    if keys != [] {
      LedDevTypes(lead, keys[1..]);
      assert LedKeys(lead, keys)[1..] == LedKeys(lead, keys[1..]);
    }
  }

  /** The keys open with the multipath setting and the number of device sections, said once. */
  predicate LeadsWith(keys: seq<LogKey>, settings: seq<Setting>, multipath: bool) {
    && |keys| >= 2
    && keys[0] == Multipath(multipath) && keys[1] == Dev(|DeviceNames(settings)|)
    && NoLeadingKeys(keys[2..])
  }

  /** An argument for the device has this key and a mask of so many CPUs. */
  predicate GivesThreads(settings: seq<Setting>, dev: int, key: string, count: nat) {
    exists e :: e in settings && IsDevice(e.section, dev) && GivesCount(e.item, key, count)
  }

  /** A thread count is there exactly for each mask that an argument gives a device. */
  ghost predicate TellsThreads(keys: seq<LogKey>, settings: seq<Setting>) {
    forall dev, count ::
      && (Threads(dev, Q, count) in keys <==> GivesThreads(settings, dev, "Cpumask", count))
      && (Threads(dev, R, count) in keys <==> GivesThreads(settings, dev, "R_Cpumask", count))
      && (Threads(dev, W, count) in keys <==> GivesThreads(settings, dev, "W_Cpumask", count))
  }

  /** A crossed flag is there exactly for each device section, and it is that of its arguments. */
  ghost predicate TellsCrossed(keys: seq<LogKey>, settings: seq<Setting>) {
    forall dev, crossed :: ThreadsCrossed(dev, crossed) in keys <==>
      exists e :: e in settings && IsDevice(e.section, dev) && FlagIs(settings, e.section, crossed)
  }

  /** The masks as text are those of the arguments for a device, each led by a blank. */
  ghost predicate TellsMasks(keys: seq<LogKey>, settings: seq<Setting>) {
    forall dev, masks :: QrwMask(dev, masks) in keys <==>
      exists e :: e in settings && IsDevice(e.section, dev)
                  && masks == Led(" ", GivenMasks(ItemsOf(settings, e.section)))
  }

  /** What the log of a configuration tells about the arguments that it was made from. */
  ghost predicate Tells(keys: seq<LogKey>, settings: seq<Setting>, multipath: bool) {
    && LeadsWith(keys, settings, multipath)
    && TellsThreads(keys, settings)
    && TellsCrossed(keys, settings)
    && TellsMasks(keys, settings)
    && DevTypes(keys) == FirstOtherOf(settings)
  }

  lemma {:induction false} ConfLeadsWith(settings: seq<Setting>, multipath: bool)
    ensures LeadsWith(LedKeys(" ", ConfLog(GroupBy(settings), multipath).keys), settings, multipath)
  {
    var sections := GroupBy(settings);
    DevCountFromArguments(settings);
    SectionsNoLeadingKeys(sections, false);
    var rest := SectionsLog(sections, false).keys;
    var led := LedKeys(" ", ConfLog(sections, multipath).keys);
    assert led[2..] == LedKeys(" ", rest);
    forall i | 0 <= i < |rest| ensures !led[2..][i].Dev? && !led[2..][i].Multipath? {
      assert rest[i] in rest;
    }
  }

  lemma {:induction false} ConfDevTypes(settings: seq<Setting>, multipath: bool)
    requires ConfLog(GroupBy(settings), multipath).rc == OK
    ensures DevTypes(LedKeys(" ", ConfLog(GroupBy(settings), multipath).keys)) == FirstOtherOf(settings)
  {
    var sections := GroupBy(settings);
    var lead, rest := [Multipath(multipath), Dev(DevCount(sections))], SectionsLog(sections, false).keys;
    LedDevTypes(" ", ConfLog(sections, multipath).keys);
    DevTypesAppend(lead, rest);
    NoDevTypes(lead);
    DevTypeOnce(sections, false);
    FirstOtherFromArguments(settings);
  }

  lemma {:induction false} ThreadsByKey(settings: seq<Setting>, multipath: bool, dev: int, count: nat)
    requires ConfLog(GroupBy(settings), multipath).rc == OK
    ensures var keys := LedKeys(" ", ConfLog(GroupBy(settings), multipath).keys);
            && (Threads(dev, Q, count) in keys <==> GivesThreads(settings, dev, "Cpumask", count))
            && (Threads(dev, R, count) in keys <==> GivesThreads(settings, dev, "R_Cpumask", count))
            && (Threads(dev, W, count) in keys <==> GivesThreads(settings, dev, "W_Cpumask", count))
  {
    var own := ConfLog(GroupBy(settings), multipath).keys;
    forall kind: MaskKind
      ensures Threads(dev, kind, count) in LedKeys(" ", own) <==>
                exists e :: e in settings && IsDevice(e.section, dev) && Counts(e.item, kind, count)
    {
      LedKeeps(" ", own, Threads(dev, kind, count));
      ThreadsFromArguments(settings, multipath, dev, kind, count);
    }
    forall e | e in settings
      ensures Counts(e.item, Q, count) <==> GivesCount(e.item, "Cpumask", count)
      ensures Counts(e.item, R, count) <==> GivesCount(e.item, "R_Cpumask", count)
      ensures Counts(e.item, W, count) <==> GivesCount(e.item, "W_Cpumask", count)
    {
      CountsByKey(e.item, count);
    }
  }

  lemma {:induction false} LedMasks(lead: string, keys: seq<LogKey>, dev: int, masks: seq<KindMask>)
    ensures QrwMask(dev, masks) in LedKeys(lead, keys) <==>
              exists own :: QrwMask(dev, own) in keys && masks == Led(lead, own)
  {
    var led := LedKeys(lead, keys);
    if QrwMask(dev, masks) in led {
      var i :| 0 <= i < |led| && led[i] == QrwMask(dev, masks);
      assert keys[i].QrwMask? && keys[i] in keys;
      assert keys[i] == QrwMask(dev, keys[i].masks);
    }
    if own :| QrwMask(dev, own) in keys && masks == Led(lead, own) {
      var i :| 0 <= i < |keys| && keys[i] == QrwMask(dev, own);
      assert led[i] == QrwMask(dev, masks);
    }
  }

  lemma {:induction false} MasksByKey(settings: seq<Setting>, multipath: bool, dev: int, masks: seq<KindMask>)
    requires ConfLog(GroupBy(settings), multipath).rc == OK
    ensures QrwMask(dev, masks) in LedKeys(" ", ConfLog(GroupBy(settings), multipath).keys)
       <==> exists e :: e in settings && IsDevice(e.section, dev)
                        && masks == Led(" ", GivenMasks(ItemsOf(settings, e.section)))
  {
    var own := ConfLog(GroupBy(settings), multipath).keys;
    LedMasks(" ", own, dev, masks);
    if given :| QrwMask(dev, given) in own && masks == Led(" ", given) {
      MasksFromArguments(settings, multipath, dev, given);
    }
    if e :| e in settings && IsDevice(e.section, dev) && masks == Led(" ", GivenMasks(ItemsOf(settings, e.section))) {
      MasksFromArguments(settings, multipath, dev, GivenMasks(ItemsOf(settings, e.section)));
    }
  }

  lemma {:induction false} ConfTells(settings: seq<Setting>, multipath: bool)
    requires ConfLog(GroupBy(settings), multipath).rc == OK
    ensures Tells(LedKeys(" ", ConfLog(GroupBy(settings), multipath).keys), settings, multipath)
  {
    var own := ConfLog(GroupBy(settings), multipath).keys;
    var keys := LedKeys(" ", own);
    ConfLeadsWith(settings, multipath);
    ConfDevTypes(settings, multipath);
    assert TellsThreads(keys, settings) by {
      forall dev, count
        ensures Threads(dev, Q, count) in keys <==> GivesThreads(settings, dev, "Cpumask", count)
        ensures Threads(dev, R, count) in keys <==> GivesThreads(settings, dev, "R_Cpumask", count)
        ensures Threads(dev, W, count) in keys <==> GivesThreads(settings, dev, "W_Cpumask", count)
      {
        ThreadsByKey(settings, multipath, dev, count);
      }
    }
    assert TellsCrossed(keys, settings) by {
      forall dev, crossed
        ensures ThreadsCrossed(dev, crossed) in keys <==>
                  exists e :: e in settings && IsDevice(e.section, dev) && FlagIs(settings, e.section, crossed)
      {
        LedKeeps(" ", own, ThreadsCrossed(dev, crossed));
        CrossedFromArguments(settings, multipath, dev, crossed);
      }
    }
    assert TellsMasks(keys, settings) by {
      forall dev, masks
        ensures QrwMask(dev, masks) in keys <==>
                  exists e :: e in settings && IsDevice(e.section, dev)
                              && masks == Led(" ", GivenMasks(ItemsOf(settings, e.section)))
      {
        MasksByKey(settings, multipath, dev, masks);
      }
    }
  }

  /** What comes of creating the configuration from arguments, reading it back and logging it. */
  function ReportOf(argv: seq<string>, vars: string -> string, multipath: bool): Logged {
    var strs := OptsWith(argv, CONFIG_PREFIX);
    if strs == [] then Logged(EFAIL, [])
    else
      match Settings(strs, vars)
      case Err(e) => Logged(e, [])
      case Ok(settings) =>
        var conf := ReadText(Print(GroupBy(settings)));
        if conf.rc != OK then Logged(conf.rc, []) else ConfLog(conf.sections, multipath)
  }

  /** Creates the configuration from the arguments, writes it, reads it back and logs it. */
  method ReportArguments(argv: seq<string>, vars: string -> string, multipath: bool, logger: Logger)
    returns (rc: Errno)
    modifies logger
    ensures rc == ReportOf(argv, vars, multipath).rc
    ensures logger.keys == old(logger.keys) + ReportOf(argv, vars, multipath).keys
  {
    var text;
    rc, text := CreateConf(argv, vars);
    if text == None {
      return;
    }
    var f := new File(text.value);
    rc := MiReport(logger, f, multipath);
  }

  /**
   * The whole way. When every setting that the arguments ask for can be read back, the report
   * succeeds exactly when each device section has a device number and gives every mask once
   * and as a number. It then tells the thread counts, crossed flags, device count and device
   * type that follow from the arguments, and nothing else of these kinds.
   */
  lemma {:induction false} ReportFollowsArguments(argv: seq<string>, vars: string -> string, multipath: bool,
                                                  settings: seq<Setting>)
    requires OptsWith(argv, CONFIG_PREFIX) != [] && Settings(OptsWith(argv, CONFIG_PREFIX), vars) == Ok(settings)
    requires forall e :: e in settings ==> SettingReadable(e)
    ensures ReportOf(argv, vars, multipath).rc == OK <==> Loggable(settings)
    ensures Loggable(settings) ==> Tells(ReportOf(argv, vars, multipath).keys, settings, multipath)
  {
    LogOfReadBack(settings, multipath);
    LogSucceedsIff(settings, multipath);
    if Loggable(settings) {
      ConfTells(settings, multipath);
    }
  }

  /** The same for a command line with "bp-Section-Key=Value" arguments among any others. */
  lemma {:induction false} ReportOfCommandLine(args: seq<Arg>, vars: string -> string, multipath: bool)
    requires HasOwn(args) && forall arg :: arg in args ==> WellFormed(arg)
    requires forall e :: e in Used(args) ==> SettingReadable(e)
    ensures ReportOf(CommandLine(args), vars, multipath).rc == OK <==> Loggable(Used(args))
    ensures Loggable(Used(args)) ==> Tells(ReportOf(CommandLine(args), vars, multipath).keys, Used(args), multipath)
  {
    ArgumentsAskFor(args, vars);
    ReportFollowsArguments(CommandLine(args), vars, multipath, Used(args));
  }
}
