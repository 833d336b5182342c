/**
 * Turning a configuration into performance keys (block-ts/lib/tsapi-blkproxy.c,
 * tsapi_blkproxy_add_conf_to_mi_log and its helpers).
 */
module MiLog {
  import opened Text
  import opened Stdio
  import opened Conf
  import opened Numbers
  import opened Masks

  const DEVICE_PREFIX := "MapVirtioBlk"

  /** The reactor, read and write masks. */
  datatype MaskKind = Q | R | W

  datatype KindMask = KindMask(kind: MaskKind, value: string)

  /** A measurement key with its value. */
  datatype LogKey =
    | Multipath(on: bool)
    | Dev(count: nat)
    | DevType(name: string)
    | Threads(dev: int, kind: MaskKind, count: nat)
    | ThreadsCrossed(dev: int, crossed: bool)
    | QrwMask(dev: int, masks: seq<KindMask>)

  /** A status and the keys that were logged before it was known. */
  datatype Logged = Logged(rc: Errno, keys: seq<LogKey>)

  const MAPPINGS: seq<(string, MaskKind)> := [("Cpumask", Q), ("R_Cpumask", R), ("W_Cpumask", W)]

  function KindOf(key: string): Option<MaskKind> {
    if key == "Cpumask" then Some(Q)
    else if key == "R_Cpumask" then Some(R)
    else if key == "W_Cpumask" then Some(W)
    else None
  }

  /** Each kind of mask has one key, and any other key is no mask. */
  lemma {:induction false} KindByName(name: string)
    ensures KindOf(name) == Some(Q) <==> name == "Cpumask"
    ensures KindOf(name) == Some(R) <==> name == "R_Cpumask"
    ensures KindOf(name) == Some(W) <==> name == "W_Cpumask"
  {
    assert "R_Cpumask"[0] != "W_Cpumask"[0];
  }

  /** te_kvpairs_get(): the value of a kind of mask. */
  function MaskOf(masks: seq<KindMask>, kind: MaskKind): Option<string> {
    if masks == [] then None
    else if masks[0].kind == kind then Some(masks[0].value)
    else MaskOf(masks[1..], kind)
  }

  /** te_kvpair_add(): a key that is there already is an error. */
  function AddMask(masks: seq<KindMask>, mask: KindMask): Result<seq<KindMask>> {
    if MaskOf(masks, mask.kind).Some? then Err(EEXIST) else Ok(masks + [mask])
  }

  /** The thread count of one mask item; a mask that is no number is passed over. */
  function ThreadsKeys(dev: int, item: Item): seq<LogKey> {
    if KindOf(item.key).Some? && Strtoul16(item.value).Ok? then
      [Threads(dev, KindOf(item.key).value, |Cpus(Strtoul16(item.value).value)|)]
    else []
  }

  /** What the item loop logs, up to the first mask that is given twice. */
  function ItemsKeys(dev: int, masks: seq<KindMask>, items: seq<Item>): seq<LogKey>
    decreases |items|
  {
    if items == [] then []
    else
      match KindOf(items[0].key)
      case None => ItemsKeys(dev, masks, items[1..])
      case Some(kind) =>
        match AddMask(masks, KindMask(kind, items[0].value))
        case Err(_) => ThreadsKeys(dev, items[0])
        case Ok(more) => ThreadsKeys(dev, items[0]) + ItemsKeys(dev, more, items[1..])
  }

  /** The masks that the item loop collects. */
  function ItemsMasks(masks: seq<KindMask>, items: seq<Item>): Result<seq<KindMask>>
    decreases |items|
  {
    if items == [] then Ok(masks)
    else
      match KindOf(items[0].key)
      case None => ItemsMasks(masks, items[1..])
      case Some(kind) =>
        var more :- AddMask(masks, KindMask(kind, items[0].value));
        ItemsMasks(more, items[1..])
  }

  /** The mask of a kind, if one was given. */
  function GivenMask(masks: seq<KindMask>, kind: MaskKind): Result<Option<Mask>> {
    match MaskOf(masks, kind)
    case None => Ok(None)
    case Some(value) =>
      var mask :- Strtoul16(value);
      Ok(Some(mask))
  }

  function OrMask(crossed: Mask, given: Option<Mask>): Mask {
    if given.Some? then crossed | given.value else crossed
  }

  function AndMask(crossed: Mask, given: Option<Mask>): Mask {
    if given.Some? then crossed & given.value else crossed
  }

  /** ((0 | W) | R) & Q, where a mask that is not there takes no part. */
  function CrossedMask(masks: seq<KindMask>): Result<Mask> {
    var w :- GivenMask(masks, W);
    var r :- GivenMask(masks, R);
    var q :- GivenMask(masks, Q);
    Ok(AndMask(OrMask(OrMask(0, w), r), q))
  }

  /** The crossed flag and the masks as text, or nothing when a mask is no number. */
  function MasksKeys(masks: seq<KindMask>, dev: int): seq<LogKey> {
    match CrossedMask(masks)
    case Err(_) => []
    case Ok(mask) => [ThreadsCrossed(dev, mask != 0), QrwMask(dev, masks)]
  }

  /** The keys of one device section. */
  function SectionLog(section: Section): Logged
    requires DEVICE_PREFIX <= section.name
  {
    match Strtol10(section.name[|DEVICE_PREFIX|..])
    case Err(e) => Logged(e, [])
    case Ok(dev) =>
      var keys := ItemsKeys(dev, [], section.items);
      match ItemsMasks([], section.items)
      case Err(e) => Logged(e, keys)
      case Ok(masks) =>
        match CrossedMask(masks)
        case Err(e) => Logged(e, keys)
        case Ok(mask) => Logged(OK, keys + [ThreadsCrossed(dev, mask != 0), QrwMask(dev, masks)])
  }

  /** The keys of all sections, up to the first that fails. */
  function SectionsLog(sections: seq<Section>, typeAdded: bool): Logged {
    if sections == [] then Logged(OK, [])
    else
      var s := sections[0];
      if DEVICE_PREFIX <= s.name then
        var first := SectionLog(s);
        if first.rc != OK then first else After(first.keys, SectionsLog(sections[1..], typeAdded))
      else if !typeAdded then After([DevType(s.name)], SectionsLog(sections[1..], true))
      else SectionsLog(sections[1..], typeAdded)
  }

  function After(keys: seq<LogKey>, rest: Logged): Logged {
    Logged(rest.rc, keys + rest.keys)
  }

  function DevCount(sections: seq<Section>): nat {
    if sections == [] then 0
    else (if DEVICE_PREFIX <= sections[0].name then 1 else 0) + DevCount(sections[1..])
  }

  function ConfLog(sections: seq<Section>, multipath: bool): Logged {
    After([Multipath(multipath), Dev(DevCount(sections))], SectionsLog(sections, false))
  }

  // ---- The code ----

  /** The MI logger: the measurement keys logged so far. */
  class Logger {
    var keys: seq<LogKey>

    constructor ()
      ensures keys == []
    {
      keys := [];
    }

    method AddMeasKey(key: LogKey)
      modifies this
      ensures keys == old(keys) + [key]
    {
      keys := keys + [key];
    }
  }

  method MapMaskName(name: string) returns (kind: Option<MaskKind>)
    ensures kind == Some(Q) <==> name == "Cpumask"
    ensures kind == Some(R) <==> name == "R_Cpumask"
    ensures kind == Some(W) <==> name == "W_Cpumask"
    ensures kind == KindOf(name)
  {
    KindByName(name);
    var i := 0;
    while i < |MAPPINGS|
      invariant 0 <= i <= |MAPPINGS|
      invariant forall j :: 0 <= j < i ==> MAPPINGS[j].0 != name
    {
      if MAPPINGS[i].0 == name {
        return Some(MAPPINGS[i].1);
      }
      i := i + 1;
    }
    assert MAPPINGS[0].0 != name && MAPPINGS[1].0 != name && MAPPINGS[2].0 != name;
    return None;
  }

  method AddThreadMask(logger: Logger, dev: int, kind: MaskKind, value: string) returns (rc: Errno)
    modifies logger
    ensures match Strtoul16(value)
            case Ok(mask) => rc == OK && logger.keys == old(logger.keys) + [Threads(dev, kind, |Cpus(mask)|)]
            case Err(e) => rc == e && logger.keys == old(logger.keys)
  {
    var count;
    rc, count := CountBitsInMask(value);
    if rc == OK {
      logger.AddMeasKey(Threads(dev, kind, count));
    }
  }

  method AddCrossedMasks(logger: Logger, masks: seq<KindMask>, dev: int) returns (rc: Errno)
    modifies logger
    ensures match CrossedMask(masks)
            case Ok(mask) => rc == OK && logger.keys == old(logger.keys) + [ThreadsCrossed(dev, mask != 0)]
            case Err(e) => rc == e && logger.keys == old(logger.keys)
  {
    var crossed: Mask := 0;
    var w := GivenMask(masks, W);
    if w.Err? {
      return w.error;
    }
    crossed := OrMask(crossed, w.value);
    var r := GivenMask(masks, R);
    if r.Err? {
      return r.error;
    }
    crossed := OrMask(crossed, r.value);
    var q := GivenMask(masks, Q);
    if q.Err? {
      return q.error;
    }
    crossed := AndMask(crossed, q.value);
    logger.AddMeasKey(ThreadsCrossed(dev, crossed != 0));
    rc := OK;
  }

  method AddMapVirtBlkSection(logger: Logger, section: Section) returns (rc: Errno)
    requires DEVICE_PREFIX <= section.name
    modifies logger
    ensures rc == SectionLog(section).rc
    ensures logger.keys == old(logger.keys) + SectionLog(section).keys
  {
    var number := Strtol10(section.name[|DEVICE_PREFIX|..]);
    if number.Err? {
      return number.error;
    }
    var dev := number.value;
    var masks := AddItems(logger, dev, section.items);
    if masks.Err? {
      return masks.error;
    }
    rc := AddMasks(logger, masks.value, dev);
    Regroup(old(logger.keys), ItemsKeys(dev, [], section.items), MasksKeys(masks.value, dev));
  }

  /** The end of AddMapVirtBlkSection: the crossed flag and the masks as text. */
  method AddMasks(logger: Logger, masks: seq<KindMask>, dev: int) returns (rc: Errno)
    modifies logger
    ensures rc == if CrossedMask(masks).Err? then CrossedMask(masks).error else OK
    ensures logger.keys == old(logger.keys) + MasksKeys(masks, dev)
  {
    rc := AddCrossedMasks(logger, masks, dev);
    if rc != OK {
      assert logger.keys + [] == logger.keys;
      return;
    }
    logger.AddMeasKey(QrwMask(dev, masks));
  }

  /** The item loop of AddMapVirtBlkSection. */
  method AddItems(logger: Logger, dev: int, items: seq<Item>) returns (masks: Result<seq<KindMask>>)
    modifies logger
    ensures masks == ItemsMasks([], items)
    ensures logger.keys == old(logger.keys) + ItemsKeys(dev, [], items)
  {
    var collected: seq<KindMask> := [];
    var i := 0;
    while i < |items|
      invariant 0 <= i <= |items|
      invariant old(logger.keys) + ItemsKeys(dev, [], items) == logger.keys + ItemsKeys(dev, collected, items[i..])
      invariant ItemsMasks([], items) == ItemsMasks(collected, items[i..])
    {
      var item := items[i];
      assert items[i..][1..] == items[i + 1..];
      var kind := MapMaskName(item.key);
      if kind.Some? {
        ghost var before := logger.keys;
        var ignored := AddThreadMask(logger, dev, kind.value, item.value);
        assert logger.keys == before + ThreadsKeys(dev, item);
        var added := AddMask(collected, KindMask(kind.value, item.value));
        if added.Err? {
          return Err(added.error);
        }
        collected := added.value;
        Regroup(before, ThreadsKeys(dev, item), ItemsKeys(dev, collected, items[i + 1..]));
      }
      i := i + 1;
    }
    masks := Ok(collected);
  }

  method AddDevCount(logger: Logger, sections: seq<Section>)
    modifies logger
    ensures logger.keys == old(logger.keys) + [Dev(DevCount(sections))]
  {
    var count := 0;
    var i := 0;
    while i < |sections|
      invariant 0 <= i <= |sections|
      invariant count + DevCount(sections[i..]) == DevCount(sections)
    {
      assert sections[i..][1..] == sections[i + 1..];
      if DEVICE_PREFIX <= sections[i].name {
        count := count + 1;
      }
      i := i + 1;
    }
    logger.AddMeasKey(Dev(count));
  }

  method AddConfToMiLog(logger: Logger, conf: Config, multipath: bool) returns (rc: Errno)
    modifies logger
    ensures rc == ConfLog(conf.sections, multipath).rc
    ensures logger.keys == old(logger.keys) + ConfLog(conf.sections, multipath).keys
  {
    logger.AddMeasKey(Multipath(multipath));
    AddDevCount(logger, conf.sections);
    assert logger.keys == old(logger.keys) + [Multipath(multipath), Dev(DevCount(conf.sections))];
    rc := AddSections(logger, conf.sections);
    Regroup(old(logger.keys), [Multipath(multipath), Dev(DevCount(conf.sections))],
            SectionsLog(conf.sections, false).keys);
  }

  /** The section loop of AddConfToMiLog. */
  method AddSections(logger: Logger, sections: seq<Section>) returns (rc: Errno)
    modifies logger
    ensures rc == SectionsLog(sections, false).rc
    ensures logger.keys == old(logger.keys) + SectionsLog(sections, false).keys
  {
    var typeAdded := false;
    var i := 0;
    assert sections[0..] == sections;
    while i < |sections|
      invariant 0 <= i <= |sections|
      invariant SectionsLog(sections, false).rc == SectionsLog(sections[i..], typeAdded).rc
      invariant old(logger.keys) + SectionsLog(sections, false).keys
             == logger.keys + SectionsLog(sections[i..], typeAdded).keys
    {
      NextSection(logger.keys, sections, i, typeAdded);
      var section := sections[i];
      if DEVICE_PREFIX <= section.name {
        rc := AddMapVirtBlkSection(logger, section);
        if rc != OK {
          return;
        }
      } else if !typeAdded {
        logger.AddMeasKey(DevType(section.name));
        typeAdded := true;
      }
      i := i + 1;
    }
    rc := OK;
  }

  /** What the next section adds to the keys that are there. */
  lemma {:induction false} NextSection(keys: seq<LogKey>, sections: seq<Section>, i: nat, typeAdded: bool)
    requires i < |sections|
    ensures var s := sections[i]; var all := SectionsLog(sections[i..], typeAdded);
            if DEVICE_PREFIX <= s.name then
              if SectionLog(s).rc != OK then all == SectionLog(s)
              else var rest := SectionsLog(sections[i + 1..], typeAdded);
                   all.rc == rest.rc && keys + all.keys == keys + SectionLog(s).keys + rest.keys
            else if typeAdded then all == SectionsLog(sections[i + 1..], typeAdded)
            else var rest := SectionsLog(sections[i + 1..], true);
                 all.rc == rest.rc && keys + all.keys == keys + [DevType(s.name)] + rest.keys
  {
    assert sections[i..][1..] == sections[i + 1..];
    var s := sections[i];
    if DEVICE_PREFIX <= s.name {
      Regroup(keys, SectionLog(s).keys, SectionsLog(sections[i + 1..], typeAdded).keys);
    } else {
      Regroup(keys, [DevType(s.name)], SectionsLog(sections[i + 1..], true).keys);
    }
  }

  /** The part of tsapi_fio_mi_report() that reads the configuration file and logs it. */
  method MiReport(logger: Logger, f: File, multipath: bool) returns (rc: Errno)
    requires f.Valid() && f.pos == 0
    modifies logger, f
    ensures var conf := ReadText(f.text);
            if conf.rc != OK then rc == conf.rc && logger.keys == old(logger.keys)
            else var log := ConfLog(conf.sections, multipath);
                 rc == log.rc && logger.keys == old(logger.keys) + log.keys
  {
    var conf := new Config();
    assert f.text[0..] == f.text;
    rc := conf.ReadFromFile(f);
    if rc != OK {
      return;
    }
    rc := AddConfToMiLog(logger, conf, multipath);
  }
}
