/** The RBD feature list of a test (block-ts/lib/block-ts.c, block_ts_test_get_features). */
module Features {
  import opened Text
  import opened Strtok

  datatype Feature =
    | LAYERING | STRIPINGV2 | EXCLUSIVE_LOCK | OBJECT_MAP | FAST_DIFF
    | DEEP_FLATTEN | JOURNALING | DATA_POOL | OPERATIONS | MIGRATING

  /** A set of features as the unsigned word that librbd takes. */
  type Word = bv32

  function Bit(f: Feature): Word {
    match f
    case LAYERING => 0x1
    case STRIPINGV2 => 0x2
    case EXCLUSIVE_LOCK => 0x4
    case OBJECT_MAP => 0x8
    case FAST_DIFF => 0x10
    case DEEP_FLATTEN => 0x20
    case JOURNALING => 0x40
    case DATA_POOL => 0x80
    case OPERATIONS => 0x100
    case MIGRATING => 0x200
  }

  function BitIn(s: set<Feature>, f: Feature): Word {
    if f in s then Bit(f) else 0
  }

  const ALL_FEATURES := [LAYERING, STRIPINGV2, EXCLUSIVE_LOCK, OBJECT_MAP, FAST_DIFF,
                         DEEP_FLATTEN, JOURNALING, DATA_POOL, OPERATIONS, MIGRATING]

  function EncodeList(s: set<Feature>, features: seq<Feature>): Word {
    if features == [] then 0 else BitIn(s, features[0]) | EncodeList(s, features[1..])
  }

  /** The word in which exactly the bits of the features are one. */
  function Encode(s: set<Feature>): Word {
    EncodeList(s, ALL_FEATURES)
  }

  const DEFAULT_FEATURES: set<Feature> :=
    {LAYERING, STRIPINGV2, EXCLUSIVE_LOCK, OBJECT_MAP, FAST_DIFF, DEEP_FLATTEN, JOURNALING, DATA_POOL}

  const FEATURE_MAP: seq<(string, Feature)> := [
    ("LAYERING", LAYERING),
    ("STRIPINGV2", STRIPINGV2),
    ("EXCLUSIVE_LOCK", EXCLUSIVE_LOCK),
    ("OBJECT_MAP", OBJECT_MAP),
    ("FAST_DIFF", FAST_DIFF),
    ("DEEP_FLATTEN", DEEP_FLATTEN),
    ("JOURNALING", JOURNALING),
    ("DATA_POOL", DATA_POOL),
    ("OPERATIONS", OPERATIONS),
    ("MIGRATING", MIGRATING)
  ]

  const UNSET := "UNSET_FEATURES"

  lemma {:induction false} BitsApart(g: Feature, f: Feature)
    ensures Bit(f) != 0
    ensures g != f ==> Bit(g) & Bit(f) == 0
  {
  }

  lemma {:induction false} ClearStep(bit: Word, rest: Word, mask: Word)
    ensures (bit | rest) & mask == (bit & mask) | (rest & mask)
  {
  }

  lemma {:induction false} ClearOne(bit: Word, mask: Word)
    ensures bit & mask == 0 ==> bit & !mask == bit
    ensures bit == mask ==> bit & !mask == 0
    ensures 0 & mask == 0
  {
  }

  lemma {:induction false} ClearBitOf(s: set<Feature>, g: Feature, f: Feature)
    ensures BitIn(s, g) & !Bit(f) == BitIn(s - {f}, g)
  {
    BitsApart(g, f);
    ClearOne(Bit(g), Bit(f));
    ClearOne(0, !Bit(f));
  }

  /** Clearing a bit of the word takes one feature out of the set. */
  lemma {:induction false} ClearBitIn(s: set<Feature>, features: seq<Feature>, f: Feature)
    ensures EncodeList(s, features) & !Bit(f) == EncodeList(s - {f}, features)
  {
    if features == [] {
      ClearOne(0, !Bit(f));
    } else {
      var g, rest := features[0], features[1..];
      ClearBitIn(s, rest, f);
      ClearBitOf(s, g, f);
      ClearStep(BitIn(s, g), EncodeList(s, rest), !Bit(f));
    }
  }

  lemma {:induction false} MaskStep(bit: Word, rest: Word, mask: Word)
    ensures (bit | rest) & mask == (bit & mask) | (rest & mask)
    ensures mask & mask == mask && 0 & mask == 0
    ensures mask | mask == mask && mask | 0 == mask && 0 | mask == mask
  {
  }

  lemma {:induction false} MaskBitIn(s: set<Feature>, features: seq<Feature>, f: Feature)
    ensures EncodeList(s, features) & Bit(f) == if f in features then BitIn(s, f) else 0
  {
    MaskStep(0, 0, Bit(f));
    if features != [] {
      MaskBitIn(s, features[1..], f);
      BitsApart(features[0], f);
      MaskStep(BitIn(s, features[0]), EncodeList(s, features[1..]), Bit(f));
    }
  }

  /** A bit of the word is one exactly when its feature is in the set. */
  lemma {:induction false} BitOfEncode(s: set<Feature>, f: Feature)
    ensures Encode(s) & Bit(f) != 0 <==> f in s
  {
    MaskBitIn(s, ALL_FEATURES, f);
    BitsApart(f, f);
    assert f in ALL_FEATURES by {
      match f
      case LAYERING => assert ALL_FEATURES[0] == f;
      case STRIPINGV2 => assert ALL_FEATURES[1] == f;
      case EXCLUSIVE_LOCK => assert ALL_FEATURES[2] == f;
      case OBJECT_MAP => assert ALL_FEATURES[3] == f;
      case FAST_DIFF => assert ALL_FEATURES[4] == f;
      case DEEP_FLATTEN => assert ALL_FEATURES[5] == f;
      case JOURNALING => assert ALL_FEATURES[6] == f;
      case DATA_POOL => assert ALL_FEATURES[7] == f;
      case OPERATIONS => assert ALL_FEATURES[8] == f;
      case MIGRATING => assert ALL_FEATURES[9] == f;
    }
  }

  lemma {:induction false} EncodeNone(features: seq<Feature>)
    ensures EncodeList({}, features) == 0
  {
    if features != [] {
      EncodeNone(features[1..]);
    }
  }

  // ---- The list ----

  /** The feature of the first entry with this name. */
  function Lookup(entries: seq<(string, Feature)>, name: string): Option<Feature> {
    if entries == [] then None
    else if entries[0].0 == name then Some(entries[0].1)
    else Lookup(entries[1..], name)
  }

  function FeatureOf(name: string): Option<Feature> {
    Lookup(FEATURE_MAP, name)
  }

  lemma {:induction false} LookupFound(entries: seq<(string, Feature)>, name: string) returns (i: nat)
    requires Lookup(entries, name).Some?
    ensures i < |entries| && entries[i] == (name, Lookup(entries, name).value)
  {
    if entries[0].0 == name {
      i := 0;
    } else {
      i := LookupFound(entries[1..], name);
      i := i + 1;
    }
  }

  lemma {:induction false} LookupFirst(entries: seq<(string, Feature)>, i: nat)
    requires i < |entries| && forall j :: 0 <= j < i ==> entries[j].0 != entries[i].0
    ensures Lookup(entries, entries[i].0) == Some(entries[i].1)
  {
    if i > 0 {
      assert forall j :: 1 <= j < |entries| ==> entries[j] == entries[1..][j - 1];
      LookupFirst(entries[1..], i - 1);
    }
  }

  /** No two entries have the same name or the same feature. */
  lemma {:induction false} EntriesDiffer(i: nat, j: nat)
    requires i < j < |FEATURE_MAP|
    ensures FEATURE_MAP[i].0 != FEATURE_MAP[j].0 && FEATURE_MAP[i].1 != FEATURE_MAP[j].1
  {
    var a, b := FEATURE_MAP[i].0, FEATURE_MAP[j].0;
    assert |a| >= 8 && |b| >= 8;
    assert |a| != |b| || a[0] != b[0] || a[1] != b[1];
  }

  lemma {:induction false} EntryIff(name: string, i: nat)
    requires i < |FEATURE_MAP|
    ensures FeatureOf(name) == Some(FEATURE_MAP[i].1) <==> name == FEATURE_MAP[i].0
  {
    forall j, k | 0 <= j < k < |FEATURE_MAP|
      ensures FEATURE_MAP[j].0 != FEATURE_MAP[k].0 && FEATURE_MAP[j].1 != FEATURE_MAP[k].1
    {
      EntriesDiffer(j, k);
    }
    LookupFirst(FEATURE_MAP, i);
    if FeatureOf(name) == Some(FEATURE_MAP[i].1) {
      var k := LookupFound(FEATURE_MAP, name);
      assert k == i;
    }
  }

  /** Which name is which feature, one by one; a text that is none of these names is no feature. */
  lemma {:induction false} FeatureNames(name: string)
    ensures FeatureOf(name) == Some(LAYERING) <==> name == "LAYERING"
    ensures FeatureOf(name) == Some(STRIPINGV2) <==> name == "STRIPINGV2"
    ensures FeatureOf(name) == Some(EXCLUSIVE_LOCK) <==> name == "EXCLUSIVE_LOCK"
    ensures FeatureOf(name) == Some(OBJECT_MAP) <==> name == "OBJECT_MAP"
    ensures FeatureOf(name) == Some(FAST_DIFF) <==> name == "FAST_DIFF"
    ensures FeatureOf(name) == Some(DEEP_FLATTEN) <==> name == "DEEP_FLATTEN"
    ensures FeatureOf(name) == Some(JOURNALING) <==> name == "JOURNALING"
    ensures FeatureOf(name) == Some(DATA_POOL) <==> name == "DATA_POOL"
    ensures FeatureOf(name) == Some(OPERATIONS) <==> name == "OPERATIONS"
    ensures FeatureOf(name) == Some(MIGRATING) <==> name == "MIGRATING"
  {
    forall i | 0 <= i < |FEATURE_MAP|
      ensures FeatureOf(name) == Some(FEATURE_MAP[i].1) <==> name == FEATURE_MAP[i].0
    {
      EntryIff(name, i);
    }
    assert FEATURE_MAP[0] == ("LAYERING", LAYERING);
    assert FEATURE_MAP[1] == ("STRIPINGV2", STRIPINGV2);
    assert FEATURE_MAP[2] == ("EXCLUSIVE_LOCK", EXCLUSIVE_LOCK);
    assert FEATURE_MAP[3] == ("OBJECT_MAP", OBJECT_MAP);
    assert FEATURE_MAP[4] == ("FAST_DIFF", FAST_DIFF);
    assert FEATURE_MAP[5] == ("DEEP_FLATTEN", DEEP_FLATTEN);
    assert FEATURE_MAP[6] == ("JOURNALING", JOURNALING);
    assert FEATURE_MAP[7] == ("DATA_POOL", DATA_POOL);
    assert FEATURE_MAP[8] == ("OPERATIONS", OPERATIONS);
    assert FEATURE_MAP[9] == ("MIGRATING", MIGRATING);
  }

  /** The features after one token. */
  function Interpret(result: set<Feature>, token: string): Result<set<Feature>> {
    if token != "" && token[0] == '-' then
      match FeatureOf(token[1..])
      case None => Err(ESRCH)
      case Some(feature) => Ok(result - {feature})
    else if token == UNSET then Ok({})
    else Err(EINVAL)
  }

  function InterpretAll(result: set<Feature>, tokens: seq<string>): Result<set<Feature>>
    decreases |tokens|
  {
    if tokens == [] then Ok(result)
    else
      var next :- Interpret(result, tokens[0]);
      InterpretAll(next, tokens[1..])
  }

  method Str2Feat(feature: string) returns (rc: Errno, value: Feature)
    ensures match FeatureOf(feature)
            case None => rc == ESRCH
            case Some(f) => rc == OK && value == f
  {
    rc, value := Search(FEATURE_MAP, feature);
  }

  /** The loop of Str2Feat over the entries of the map. */
  method Search(entries: seq<(string, Feature)>, feature: string) returns (rc: Errno, value: Feature)
    ensures match Lookup(entries, feature)
            case None => rc == ESRCH
            case Some(f) => rc == OK && value == f
  {
    value := LAYERING;
    var i := 0;
    while i < |entries|
      invariant 0 <= i <= |entries|
      invariant Lookup(entries, feature) == Lookup(entries[i..], feature)
    {
      var entry := entries[i];
      assert entries[i..][1..] == entries[i + 1..];
      if feature == entry.0 {
        return OK, entry.1;
      }
      i := i + 1;
    }
    rc := ESRCH;
  }

  /** Clears the bit of a feature with this name. */
  method Disable(word: Word, name: string, ghost result: set<Feature>, ghost order: seq<Feature>)
    returns (rc: Errno, word': Word)
    requires word == EncodeList(result, order)
    ensures match FeatureOf(name)
            case None => rc == ESRCH && word' == word
            case Some(f) => rc == OK && word' == EncodeList(result - {f}, order)
  {
    var feature;
    rc, feature := Str2Feat(name);
    word' := word;
    if rc == OK {
      ClearBitIn(result, order, feature);
      word' := word & !Bit(feature);
    }
  }

  /**
   * Interprets a colon-separated list into the word of features. When a token is wrong the
   * caller's word stays what it was.
   */
  method GetFeatures(str: string, features: Word) returns (rc: Errno, features': Word)
    ensures match InterpretAll(DEFAULT_FEATURES, Tokens(str, ':'))
            case Ok(result) => rc == OK && features' == Encode(result)
            case Err(e) => rc == e && rc != OK && features' == features
  {
    rc, features' := ChangeFeatures(Encode(DEFAULT_FEATURES), str, features, DEFAULT_FEATURES, ALL_FEATURES);
  }

  /** The tokens that the loop has still to interpret, with the current one in front. */
  ghost function Pending(fstr: Option<string>, rest: string): seq<string> {
    (if fstr.Some? then [fstr.value] else []) + Tokens(rest, ':')
  }

  /** What the loop reports: the word of the features, or the error and the caller's word. */
  ghost predicate Outcome(expected: Result<set<Feature>>, order: seq<Feature>, features: Word, rc: Errno,
                          features': Word) {
    match expected
    case Ok(result) => rc == OK && features' == EncodeList(result, order)
    case Err(e) => rc == e && rc != OK && features' == features
  }

  /** The loop of GetFeatures, from any word to start with. */
  method ChangeFeatures(start: Word, str: string, features: Word, ghost startSet: set<Feature>,
                        ghost order: seq<Feature>)
    returns (rc: Errno, features': Word)
    requires start == EncodeList(startSet, order)
    ensures Outcome(InterpretAll(startSet, Tokens(str, ':')), order, features, rc, features')
  {
    ghost var all := Tokens(str, ':');
    ghost var result := startSet;
    var word := start;
    var scanner := new Scanner(str);
    var fstr := scanner.Next(':');
    while fstr.Some?
      invariant word == EncodeList(result, order)
      invariant InterpretAll(result, Pending(fstr, scanner.rest)) == InterpretAll(startSet, all)
      invariant fstr == None ==> Tokens(scanner.rest, ':') == []
      decreases fstr.Some?, |scanner.rest|
    {
      ghost var tokens := Pending(fstr, scanner.rest);
      assert tokens[0] == fstr.value && tokens[1..] == Tokens(scanner.rest, ':');
      if fstr.value != "" && fstr.value[0] == '-' {
        rc, word := Disable(word, fstr.value[1..], result, order);
      } else {
        rc, word := Keyword(word, fstr.value, order);
      }
      if rc != OK {
        return rc, features;
      }
      result := Interpret(result, fstr.value).value;
      fstr := scanner.Next(':');
    }
    return OK, word;
  }

  /** The one keyword unsets everything. */
  method Keyword(word: Word, keyword: string, ghost order: seq<Feature>) returns (rc: Errno, word': Word)
    ensures if keyword == UNSET then rc == OK && word' == EncodeList({}, order) else rc == EINVAL && word' == word
  {
    EncodeNone(order);
    if keyword == UNSET {
      return OK, 0;
    }
    return EINVAL, word;
  }

  // ---- What the list means ----

  predicate ValidToken(token: string) {
    token == UNSET || (token != "" && token[0] == '-' && FeatureOf(token[1..]).Some?)
  }

  /** The feature that a token disables. */
  function Disabled(token: string): set<Feature> {
    if token != "" && token[0] == '-' && FeatureOf(token[1..]).Some? then {FeatureOf(token[1..]).value} else {}
  }

  function AllDisabled(tokens: seq<string>): set<Feature> {
    set t, f | t in tokens && f in Disabled(t) :: f
  }

  /**
   * The list is accepted exactly when every token is valid. The result is then no feature
   * if UNSET_FEATURES occurs anywhere, and otherwise all but the disabled ones.
   */
  lemma {:induction false} ListMeaning(result: set<Feature>, tokens: seq<string>)
    ensures InterpretAll(result, tokens).Ok? <==> forall t :: t in tokens ==> ValidToken(t)
    ensures InterpretAll(result, tokens).Ok? ==>
              InterpretAll(result, tokens).value == if UNSET in tokens then {} else result - AllDisabled(tokens)
    decreases |tokens|
  {
    if tokens != [] {
      var t, rest := tokens[0], tokens[1..];
      assert tokens == [t] + rest;
      assert forall u :: u in tokens <==> u == t || u in rest;
      if ValidToken(t) {
        ListMeaning(Interpret(result, t).value, rest);
        assert AllDisabled(tokens) == Disabled(t) + AllDisabled(rest);
      } else {
        assert Interpret(result, t).Err?;
      }
    }
  }

  /** Neither the order of the tokens nor their repetition matters. */
  lemma {:induction false} OrderAndRepetition(a: seq<string>, b: seq<string>)
    requires forall t :: t in a <==> t in b
    ensures InterpretAll(DEFAULT_FEATURES, a).Ok? <==> InterpretAll(DEFAULT_FEATURES, b).Ok?
    ensures InterpretAll(DEFAULT_FEATURES, a).Ok? ==>
              InterpretAll(DEFAULT_FEATURES, a) == InterpretAll(DEFAULT_FEATURES, b)
  {
    ListMeaning(DEFAULT_FEATURES, a);
    ListMeaning(DEFAULT_FEATURES, b);
    assert AllDisabled(a) == AllDisabled(b);
  }

  /** No list turns a feature on that is not on by default. */
  lemma {:induction false} NeverBeyondDefault(tokens: seq<string>)
    ensures InterpretAll(DEFAULT_FEATURES, tokens).Ok? ==>
              InterpretAll(DEFAULT_FEATURES, tokens).value <= DEFAULT_FEATURES
  {
    ListMeaning(DEFAULT_FEATURES, tokens);
  }

  /** The first wrong token decides the error: an unknown feature, or an unknown keyword. */
  lemma {:induction false} FirstWrongToken(result: set<Feature>, before: seq<string>, t: string, behind: seq<string>)
    requires (forall u :: u in before ==> ValidToken(u)) && !ValidToken(t)
    ensures InterpretAll(result, before + [t] + behind)
         == Err(if t != "" && t[0] == '-' then ESRCH else EINVAL)
    decreases |before|
  {
    var tokens := before + [t] + behind;
    if before == [] {
      assert tokens[0] == t;
    } else {
      assert tokens[0] == before[0] && tokens[1..] == before[1..] + [t] + behind;
      assert before[0] in before;
      FirstWrongToken(Interpret(result, before[0]).value, before[1..], t, behind);
    }
  }

  // ---- The words, bit by bit ----

  /** The word that GetFeatures returns for a list. */
  function WordOf(str: string): Result<Word> {
    match InterpretAll(DEFAULT_FEATURES, Tokens(str, ':'))
    case Err(e) => Err(e)
    case Ok(result) => Ok(Encode(result))
  }

  lemma {:induction false} EncodeCons(s: set<Feature>, f: Feature, rest: seq<Feature>, low: Word)
    returns (features: seq<Feature>, word: Word)
    requires EncodeList(s, rest) == low
    ensures features == [f] + rest && word == BitIn(s, f) | low == EncodeList(s, features)
  {
    features, word := [f] + rest, BitIn(s, f) | low;
    assert features[1..] == rest;
  }

  lemma {:induction false} EncodeHigh(s: set<Feature>) returns (features: seq<Feature>)
    requires forall f :: f in s <==> f != OPERATIONS && f != MIGRATING
    ensures features == [FAST_DIFF, DEEP_FLATTEN, JOURNALING, DATA_POOL, OPERATIONS, MIGRATING]
    ensures EncodeList(s, features) == 0xF0
  {
    var word;
    features, word := EncodeCons(s, MIGRATING, [], 0);
    features, word := EncodeCons(s, OPERATIONS, features, word);
    features, word := EncodeCons(s, DATA_POOL, features, word);
    features, word := EncodeCons(s, JOURNALING, features, word);
    features, word := EncodeCons(s, DEEP_FLATTEN, features, word);
    features, word := EncodeCons(s, FAST_DIFF, features, word);
  }

  lemma {:induction false} EncodeAll(s: set<Feature>)
    requires forall f :: f in s <==> f != OPERATIONS && f != MIGRATING
    ensures Encode(s) == 0xFF
  {
    var features := EncodeHigh(s);
    var word: Word := 0xF0;
    features, word := EncodeCons(s, OBJECT_MAP, features, word);
    features, word := EncodeCons(s, EXCLUSIVE_LOCK, features, word);
    features, word := EncodeCons(s, STRIPINGV2, features, word);
    features, word := EncodeCons(s, LAYERING, features, word);
    assert features == ALL_FEATURES;
  }

  lemma {:induction false} DefaultSet()
    ensures forall f :: f in DEFAULT_FEATURES <==> f != OPERATIONS && f != MIGRATING
  {
    forall f ensures f in DEFAULT_FEATURES <==> f != OPERATIONS && f != MIGRATING {
      match f
      case LAYERING =>
      case STRIPINGV2 =>
      case EXCLUSIVE_LOCK =>
      case OBJECT_MAP =>
      case FAST_DIFF =>
      case DEEP_FLATTEN =>
      case JOURNALING =>
      case DATA_POOL =>
      case OPERATIONS =>
      case MIGRATING =>
    }
  }

  /** Without a list all but the last two features are on. */
  lemma {:induction false} DefaultWord()
    ensures Encode(DEFAULT_FEATURES) == 0xFF && WordOf("") == Ok(0xFF)
  {
    assert Tokens("", ':') == [];
    DefaultSet();
    EncodeAll(DEFAULT_FEATURES);
  }

  lemma {:induction false} InterpretOne(result: set<Feature>, token: string)
    ensures InterpretAll(result, [token]) == Interpret(result, token)
  {
    var tokens := [token];
    assert tokens[1..] == [];
  }

  lemma {:induction false} DisableOne(name: string, f: Feature)
    requires FeatureOf(name) == Some(f) && Lacks(name, ':')
    ensures WordOf("-" + name) == Ok(0xFF & !Bit(f))
  {
    var token := "-" + name;
    OneToken(token, ':');
    assert token[1..] == name;
    InterpretOne(DEFAULT_FEATURES, token);
    ClearBitIn(DEFAULT_FEATURES, ALL_FEATURES, f);
    DefaultWord();
  }

  /** The words that are left of 0xFF, name by name. */
  predicate LeavesWord(name: string, word: Word) {
    || (name == "LAYERING" && word == 0xFE)
    || (name == "STRIPINGV2" && word == 0xFD)
    || (name == "EXCLUSIVE_LOCK" && word == 0xFB)
    || (name == "OBJECT_MAP" && word == 0xF7)
    || (name == "FAST_DIFF" && word == 0xEF)
    || (name == "DEEP_FLATTEN" && word == 0xDF)
    || (name == "JOURNALING" && word == 0xBF)
    || (name == "DATA_POOL" && word == 0x7F)
    || (name == "OPERATIONS" && word == 0xFF)
    || (name == "MIGRATING" && word == 0xFF)
  }

  lemma {:induction false} NamedFeature(name: string, word: Word) returns (f: Feature)
    requires LeavesWord(name, word)
    ensures FeatureOf(name) == Some(f) && word == 0xFF & !Bit(f)
  {
    FeatureNames(name);
    f := FeatureOf(name).value;
  }

  lemma {:induction false} NameLacksColon(name: string, word: Word)
    requires LeavesWord(name, word)
    ensures Lacks(name, ':')
  {
  }

  /** Disabling one feature clears its bit, which is that of its name. */
  lemma {:induction false} DisabledWord(name: string, word: Word)
    requires LeavesWord(name, word)
    ensures WordOf("-" + name) == Ok(word)
  {
    var f := NamedFeature(name, word);
    NameLacksColon(name, word);
    DisableOne(name, f);
  }

  /** The keyword alone leaves nothing on. */
  lemma {:induction false} UnsetWord()
    ensures WordOf("UNSET_FEATURES") == Ok(0)
  {
    OneToken(UNSET, ':');
    InterpretOne(DEFAULT_FEATURES, UNSET);
    EncodeNone(ALL_FEATURES);
  }
}
