/**
 * Building the blk-proxy configuration from command-line arguments
 * (block-ts/lib/tsapi-blkproxy.c, tsapi_blkproxy_create_conf).
 */
module BlkProxyConf {
  import opened Text
  import opened Conf
  import opened Expand

  const CONFIG_PREFIX := "bp"

  /** What one argument asks for. */
  datatype Setting = Setting(section: string, item: Item)

  predicate HasHash(s: string) {
    |s| >= 2 && ("#{" <= s || HasHash(s[1..]))
  }

  /** Every "#{" made "${". */
  function HashToDollar(s: string): string {
    if |s| < 2 then s
    else if "#{" <= s then "${" + HashToDollar(s[2..])
    else [s[0]] + HashToDollar(s[1..])
  }

  function ExpandSectionVal(value: string, vars: string -> string): Result<string> {
    ExpandVars(HashToDollar(value), vars)
  }

  /** The setting of one configuration string; the value "none" asks for nothing. */
  function ReadArg(str: string, vars: string -> string): Result<Option<Setting>> {
    var parsed :- ParseString(str);
    var item := parsed.1;
    if item.value == "none" then Ok(None)
    else if HasHash(item.value) then
      var value :- ExpandSectionVal(item.value, vars);
      Ok(Some(Setting(parsed.0, Item(item.key, value))))
    else Ok(Some(Setting(parsed.0, item)))
  }

  /** The settings of all configuration strings in order, or the first error. */
  function Settings(strs: seq<string>, vars: string -> string): Result<seq<Setting>> {
    if strs == [] then Ok([])
    else
      var first :- ReadArg(strs[0], vars);
      var rest :- Settings(strs[1..], vars);
      Ok((if first.Some? then [first.value] else []) + rest)
  }

  // ---- Grouping: the definition that the loop is held against ----

  /** The section names in order of first use. */
  function Names(settings: seq<Setting>): (names: seq<string>)
    ensures forall i, j :: 0 <= i < j < |names| ==> names[i] != names[j]
    ensures forall n :: n in names <==> exists e :: e in settings && e.section == n
  {
    if settings == [] then []
    else
      var before, last := Names(settings[..|settings| - 1]), settings[|settings| - 1];
      assert forall e :: e in settings <==> e == last || e in settings[..|settings| - 1];
      if last.section in before then before else before + [last.section]
  }

  /** The items for one section in argument order. */
  function ItemsOf(settings: seq<Setting>, name: string): seq<Item> {
    if settings == [] then []
    else
      var before, last := ItemsOf(settings[..|settings| - 1], name), settings[|settings| - 1];
      if last.section == name then before + [last.item] else before
  }

  function GroupBy(settings: seq<Setting>): seq<Section> {
    var names := Names(settings);
    seq(|names|, i requires 0 <= i < |names| => Section(names[i], "", ItemsOf(settings, names[i])))
  }

  // ---- What one turn of the loop does ----

  /** The sections with one setting added: its section is created when it is missing. */
  function AddSetting(sections: seq<Section>, e: Setting): seq<Section> {
    var i := Find(sections, e.section);
    if i == |sections| then sections + [Section(e.section, "", [e.item])]
    else sections[i := sections[i].(items := sections[i].items + [e.item])]
  }

  /** One more setting extends the grouping by one turn of the loop. */
  lemma {:induction false} GroupByAdd(settings: seq<Setting>, e: Setting)
    ensures GroupBy(settings + [e]) == AddSetting(GroupBy(settings), e)
  {
    var more := settings + [e];
    assert more[..|more| - 1] == settings;
    var names := Names(settings);
    var i := Find(GroupBy(settings), e.section);
    if i == |names| {
      assert e.section !in names by {
        assert forall k :: 0 <= k < |names| ==> GroupBy(settings)[k].name == names[k];
      }
      NoItems(settings, e.section);
      assert [] + [e.item] == [e.item];
    } else {
      assert GroupBy(settings)[i].name == names[i];
    }
  }

  lemma {:induction false} NoItems(settings: seq<Setting>, name: string)
    ensures ItemsOf(settings, name) == [] <==> forall e :: e in settings ==> e.section != name
  {
    if settings != [] {
      NoItems(settings[..|settings| - 1], name);
      assert settings == settings[..|settings| - 1] + [settings[|settings| - 1]];
    }
  }

  /** Creates the section of CreateConf when it is missing. */
  method EnsureSection(conf: Config, name: string)
    modifies conf
    ensures conf.sections == old(conf.sections) + if Find(old(conf.sections), name) < |old(conf.sections)| then []
                                                  else [Section(name, "", [])]
  {
    var section := conf.SectionGet(name);
    if section == None {
      conf.CreateSection(name, "");
    }
  }

  /**
   * Builds the configuration file. The parameters of the inventory are looked up by vars.
   */
  method CreateConf(argv: seq<string>, vars: string -> string) returns (rc: Errno, file: Option<string>)
    ensures var strs := OptsWith(argv, CONFIG_PREFIX);
            if strs == [] then rc == EFAIL && file == None
            else match Settings(strs, vars)
                 case Err(e) => rc == e && file == None
                 case Ok(settings) => rc == OK && file == Some(Print(GroupBy(settings)))
  {
    file := None;
    var vec;
    rc, vec := OptsRead(argv, CONFIG_PREFIX);
    if rc != OK {
      return;
    }
    var conf := new Config();
    ghost var done: seq<Setting> := [];
    var i := 0;
    NoneDone(vec, vars);
    while i < |vec|
      invariant 0 <= i <= |vec|
      invariant fresh(conf) && conf.sections == GroupBy(done)
      invariant Settings(vec, vars) == After(done, Settings(vec[i..], vars))
    {
      Next(done, vec, i, vars);
      var parsed := ParseString(vec[i]);
      if parsed.Err? {
        return parsed.error, None;
      }
      var (name, kv) := parsed.value;
      if kv.value != "none" {
        EnsureSection(conf, name);
        var value := kv.value;
        if HasHash(kv.value) {
          var expanded := ExpandSectionVal(kv.value, vars);
          if expanded.Err? {
            return expanded.error, None;
          }
          value := expanded.value;
        }
        ghost var setting := Setting(name, Item(kv.key, value));
        AppendAdds(GroupBy(done), setting);
        rc := conf.Append(name, kv.key, value);
        GroupByAdd(done, setting);
        done := done + [setting];
      }
      i := i + 1;
    }
    var text := conf.FlushToStr();
    assert Settings(vec[i..], vars) == Ok([]) && done + [] == done;
    return OK, Some(text);
  }

  function After(done: seq<Setting>, rest: Result<seq<Setting>>): Result<seq<Setting>> {
    match rest
    case Err(e) => Err(e)
    case Ok(settings) => Ok(done + settings)
  }

  lemma {:induction false} NoneDone(strs: seq<string>, vars: string -> string)
    ensures Settings(strs, vars) == After([], Settings(strs[0..], vars))
  {
    assert strs[0..] == strs;
    assert Settings(strs, vars).Ok? ==> [] + Settings(strs, vars).value == Settings(strs, vars).value;
  }

  /** What one argument does to the settings that are done. */
  lemma {:induction false} Next(done: seq<Setting>, strs: seq<string>, i: nat, vars: string -> string)
    requires i < |strs|
    ensures ReadArg(strs[i], vars).Err? ==> Settings(strs[i..], vars) == Err(ReadArg(strs[i], vars).error)
    ensures ReadArg(strs[i], vars) == Ok(None) ==>
              After(done, Settings(strs[i..], vars)) == After(done, Settings(strs[i + 1..], vars))
    ensures ReadArg(strs[i], vars).Ok? && ReadArg(strs[i], vars).value.Some? ==>
              After(done, Settings(strs[i..], vars))
              == After(done + [ReadArg(strs[i], vars).value.value], Settings(strs[i + 1..], vars))
  {
    assert strs[i..][1..] == strs[i + 1..];
    var first, rest := ReadArg(strs[i], vars), Settings(strs[i + 1..], vars);
    if first.Ok? && rest.Ok? {
      if first.value.Some? {
        assert done + [first.value.value] + rest.value == done + ([first.value.value] + rest.value);
      } else {
        assert [] + rest.value == rest.value;
      }
    }
  }

  /** Creating the section when it is missing and appending to it adds the setting. */
  lemma {:induction false} AppendAdds(sections: seq<Section>, e: Setting)
    ensures var there := sections + if Find(sections, e.section) < |sections| then []
                                    else [Section(e.section, "", [])];
            AppendItem(there, e.section, e.item) == Ok(AddSetting(sections, e))
  {
    if Find(sections, e.section) == |sections| {
      var there := sections + [Section(e.section, "", [])];
      assert forall i :: 0 <= i < |sections| ==> there[i] == sections[i];
      assert there[|sections|].name == e.section;
      assert [] + [e.item] == [e.item];
      assert there[|sections| := Section(e.section, "", [] + [e.item])] == AddSetting(sections, e);
    } else {
      assert sections + [] == sections;
    }
  }

  // ---- What one argument asks for ----

  predicate HashAt(s: string, i: nat) {
    i + 1 < |s| && s[i] == '#' && s[i + 1] == '{'
  }

  /** A value is expanded exactly when a '#' with a '{' right behind it occurs in it. */
  lemma {:induction false} HasHashIff(s: string)
    ensures HasHash(s) <==> exists i: nat :: HashAt(s, i)
  {
    if |s| >= 2 {
      HasHashIff(s[1..]);
      assert "#{" <= s <==> HashAt(s, 0);
      if i: nat :| HashAt(s[1..], i) {
        assert HashAt(s, i + 1);
      }
      if i: nat :| HashAt(s, i) && i > 0 {
        assert HashAt(s[1..], i - 1);
      }
    }
  }

  /** "Section-Key=Value" asks for that item, unless the value is "none". */
  lemma {:induction false} PlainArgument(name: string, item: Item, vars: string -> string)
    requires '-' !in name && '=' !in item.key && !HasHash(item.value)
    ensures ReadArg(Joined(name, item), vars) == Ok(if item.value == "none" then None else Some(Setting(name, item)))
  {
    ParseJoined(name, item);
  }

  /** A setting that an argument can ask for as it stands. */
  predicate PlainSetting(e: Setting) {
    '-' !in e.section && '=' !in e.item.key && !HasHash(e.item.value)
  }

  /** An argument of a command line: one for a setting, or any other. */
  datatype Arg = Own(setting: Setting) | Other(text: string)

  /** "bp-Section-Key=Value" for a setting. */
  function ArgText(arg: Arg): string {
    match arg
    case Own(e) => "bp-" + Joined(e.section, e.item)
    case Other(text) => text
  }

  function CommandLine(args: seq<Arg>): seq<string> {
    if args == [] then [] else [ArgText(args[0])] + CommandLine(args[1..])
  }

  /** A setting that can be written out, or another argument that does not start like one. */
  predicate WellFormed(arg: Arg) {
    match arg
    case Own(e) => PlainSetting(e)
    case Other(text) => !("bp" <= text)
  }

  /** The setting of an argument, unless its value is "none". */
  function UsedOf(arg: Arg): seq<Setting> {
    if arg.Own? && arg.setting.item.value != "none" then [arg.setting] else []
  }

  /** The settings among the arguments whose value is not "none". */
  function Used(args: seq<Arg>): seq<Setting> {
    if args == [] then [] else UsedOf(args[0]) + Used(args[1..])
  }

  lemma {:induction false} SettingsAppend(a: seq<string>, b: seq<string>, vars: string -> string)
    requires Settings(a, vars).Ok?
    ensures Settings(a + b, vars) == After(Settings(a, vars).value, Settings(b, vars))
  {
    if a == [] {
      assert a + b == b;
      assert Settings(b, vars).Ok? ==> [] + Settings(b, vars).value == Settings(b, vars).value;
    } else {
      assert (a + b)[0] == a[0] && (a + b)[1..] == a[1..] + b;
      SettingsAppend(a[1..], b, vars);
      var first, rest := ReadArg(a[0], vars).value, Settings(a[1..], vars).value;
      AfterBoth(if first.Some? then [first.value] else [], rest, Settings(b, vars));
    }
  }

  lemma {:induction false} AfterBoth(a: seq<Setting>, b: seq<Setting>, rest: Result<seq<Setting>>)
    ensures After(a + b, rest) == After(a, After(b, rest))
  {
    if rest.Ok? {
      Regroup(a, b, rest.value);
    }
  }

  /** The first configuration string that is wrong decides the error. */
  lemma {:induction false} FirstWrongString(a: seq<string>, str: string, b: seq<string>, vars: string -> string)
    requires Settings(a, vars).Ok? && ReadArg(str, vars).Err?
    ensures Settings(a + ([str] + b), vars) == Err(ReadArg(str, vars).error)
  {
    SettingsAppend(a, [str] + b, vars);
  }

  lemma {:induction false} OneString(str: string, vars: string -> string, used: seq<Setting>)
    requires ReadArg(str, vars).Ok?
    requires used == if ReadArg(str, vars).value.Some? then [ReadArg(str, vars).value.value] else []
    ensures Settings([str], vars) == Ok(used)
  {
    var strs := [str];
    assert strs[1..] == [] && Settings(strs[1..], vars) == Ok([]);
    assert used + [] == used;
  }

  lemma {:induction false} OneArg(arg: Arg, vars: string -> string)
    requires WellFormed(arg)
    ensures var strs := OptsWith([ArgText(arg)], CONFIG_PREFIX);
            && (arg.Own? <==> strs != [])
            && Settings(strs, vars) == Ok(UsedOf(arg))
  {
    if arg.Own? {
      var e := arg.setting;
      var str := Joined(e.section, e.item);
      assert ArgText(arg) == CONFIG_PREFIX + ['-'] + str;
      OwnOpt(CONFIG_PREFIX, '-', str);
      PlainArgument(e.section, e.item, vars);
      assert Setting(e.section, e.item) == e;
      OneString(str, vars, UsedOf(arg));
    } else {
      OtherOpt(arg.text, CONFIG_PREFIX);
    }
  }

  predicate HasOwn(args: seq<Arg>) {
    exists arg :: arg in args && arg.Own?
  }

  /**
   * A command line asks for exactly the settings that its "bp-Section-Key=Value" arguments are
   * written from, in order and without those that are "none"; other arguments do not matter.
   */
  lemma {:induction false} ArgumentsAskFor(args: seq<Arg>, vars: string -> string)
    requires forall arg :: arg in args ==> WellFormed(arg)
    ensures OptsWith(CommandLine(args), CONFIG_PREFIX) != [] <==> HasOwn(args)
    ensures Settings(OptsWith(CommandLine(args), CONFIG_PREFIX), vars) == Ok(Used(args))
  {
    if args != [] {
      var arg, rest := args[0], args[1..];
      assert args == [arg] + rest;
      assert forall a :: a in args <==> a == arg || a in rest;
      assert WellFormed(arg);
      ArgumentsAskFor(rest, vars);
      OneArg(arg, vars);
      JoinOpts(ArgText(arg), CommandLine(rest), UsedOf(arg), Used(rest), vars);
    }
  }

  lemma {:induction false} JoinOpts(text: string, others: seq<string>, first: seq<Setting>, later: seq<Setting>,
                                    vars: string -> string)
    requires Settings(OptsWith([text], CONFIG_PREFIX), vars) == Ok(first)
    requires Settings(OptsWith(others, CONFIG_PREFIX), vars) == Ok(later)
    ensures var strs := OptsWith([text] + others, CONFIG_PREFIX);
            && strs == OptsWith([text], CONFIG_PREFIX) + OptsWith(others, CONFIG_PREFIX)
            && Settings(strs, vars) == Ok(first + later)
  {
    OptsAppend([text], others, CONFIG_PREFIX);
    SettingsAppend(OptsWith([text], CONFIG_PREFIX), OptsWith(others, CONFIG_PREFIX), vars);
  }

  // ---- Parameters in values ----

  /** A value is made of characters that stand for themselves and of #{NAME} and ${NAME}. */
  datatype Piece = Plain(c: char) | Reference(hash: bool, name: string)

  function Opening(hash: bool): string {
    if hash then "#{" else "${"
  }

  function PieceText(piece: Piece): string {
    match piece
    case Plain(c) => [c]
    case Reference(hash, name) => Opening(hash) + (name + "}")
  }

  function Render(pieces: seq<Piece>): string {
    if pieces == [] then "" else PieceText(pieces[0]) + Render(pieces[1..])
  }

  /** The piece does not reach into the text behind it. */
  predicate Ends(piece: Piece, behind: string) {
    match piece
    case Plain(c) => c == '#' || c == '$' ==> behind == "" || behind[0] != '{'
    case Reference(_, name) => Lacks(name, '}')
  }

  /** Names end at the first '}', and no plain character opens a reference with the next one. */
  predicate WellCut(pieces: seq<Piece>, open: string) {
    pieces == [] || (Ends(pieces[0], Render(pieces[1..]) + open) && WellCut(pieces[1..], open))
  }

  /** A reference that is not closed, or nothing. */
  predicate IsOpen(open: string) {
    open == "" || ((Opening(true) <= open || Opening(false) <= open) && Lacks(open[2..], '}'))
  }

  /** The reference with "${", and with the name that is then looked up. */
  function Dollar(piece: Piece): Piece {
    match piece
    case Plain(c) => piece
    case Reference(_, name) => Reference(false, HashToDollar(name))
  }

  function PieceValue(piece: Piece, vars: string -> string): string {
    match piece
    case Plain(c) => [c]
    case Reference(_, name) => vars(HashToDollar(name))
  }

  /** Every reference replaced by its parameter and everything else kept. */
  function Replaced(pieces: seq<Piece>, vars: string -> string): string {
    if pieces == [] then "" else PieceValue(pieces[0], vars) + Replaced(pieces[1..], vars)
  }

  /** Every value is pieces, with an open reference behind them if a brace is not closed. */
  lemma {:induction false} EveryValueCuts(s: string) returns (pieces: seq<Piece>, open: string)
    ensures WellCut(pieces, open) && IsOpen(open) && s == Render(pieces) + open
    decreases |s|
  {
    if s == "" {
      return [], "";
    }
    if Opening(true) <= s || Opening(false) <= s {
      var end := 2 + IndexOf(s[2..], '}');
      if end == |s| {
        assert "" + s == s;
        return [], s;
      }
      var piece := CutReference(s, end);
      pieces, open := EveryValueCuts(s[end + 1..]);
      CutCons(piece, pieces, open);
      pieces := [piece] + pieces;
    } else {
      pieces, open := EveryValueCuts(s[1..]);
      assert s == PieceText(Plain(s[0])) + s[1..];
      assert |s| >= 2 ==> s[..2] == [s[0], s[1]];
      CutCons(Plain(s[0]), pieces, open);
      pieces := [Plain(s[0])] + pieces;
    }
  }

  lemma {:induction false} CutReference(s: string, end: nat) returns (piece: Piece)
    requires Opening(true) <= s || Opening(false) <= s
    requires end == 2 + IndexOf(s[2..], '}') < |s|
    ensures s == PieceText(piece) + s[end + 1..]
    ensures forall behind :: Ends(piece, behind)
  {
    var name := s[2..end];
    piece := Reference(s[0] == '#', name);
    assert forall i :: 0 <= i < |name| ==> name[i] == s[2..][i];
    assert s[..2] == Opening(s[0] == '#') && s[end] == '}';
    assert s == s[..2] + (name + "}") + s[end + 1..];
  }

  lemma {:induction false} CutCons(piece: Piece, pieces: seq<Piece>, open: string)
    requires WellCut(pieces, open) && Ends(piece, Render(pieces) + open)
    ensures WellCut([piece] + pieces, open)
    ensures Render([piece] + pieces) + open == PieceText(piece) + (Render(pieces) + open)
  {
    assert ([piece] + pieces)[1..] == pieces;
    Regroup(PieceText(piece), Render(pieces), open);
  }

  // How a value is prepared.

  lemma {:induction false} HashToDollarOne(c: char, rest: string)
    requires c != '#' || rest == "" || rest[0] != '{'
    ensures HashToDollar([c] + rest) == [c] + HashToDollar(rest)
  {
    var s := [c] + rest;
    assert s[1..] == rest;
    assert rest != "" ==> s[1] == rest[0];
    assert [c] + "" == [c];
  }

  lemma {:induction false} HashToDollarTwo(rest: string)
    ensures HashToDollar("#{" + rest) == "${" + HashToDollar(rest)
  {
    assert ("#{" + rest)[2..] == rest;
  }

  lemma {:induction false} AppendOne(c: char, rest: string, b: string)
    requires c != '#' || rest + b == "" || (rest + b)[0] != '{'
    requires HashToDollar(rest + b) == HashToDollar(rest) + HashToDollar(b)
    ensures HashToDollar([c] + rest + b) == HashToDollar([c] + rest) + HashToDollar(b)
  {
    Regroup([c], rest, b);
    assert rest != "" ==> (rest + b)[0] == rest[0];
    HashToDollarOne(c, rest);
    HashToDollarOne(c, rest + b);
    Regroup([c], HashToDollar(rest), HashToDollar(b));
  }

  lemma {:induction false} AppendTwo(rest: string, b: string)
    requires HashToDollar(rest + b) == HashToDollar(rest) + HashToDollar(b)
    ensures HashToDollar("#{" + rest + b) == HashToDollar("#{" + rest) + HashToDollar(b)
  {
    Regroup("#{", rest, b);
    HashToDollarTwo(rest);
    HashToDollarTwo(rest + b);
    Regroup("${", HashToDollar(rest), HashToDollar(b));
  }

  /** Preparing works on two sides separately unless they meet in a "#{". */
  lemma {:induction false} HashToDollarAppend(a: string, b: string)
    requires b == "" || b[0] != '{'
    ensures HashToDollar(a + b) == HashToDollar(a) + HashToDollar(b)
    decreases |a|
  {
    if a == "" {
      assert a + b == b;
    } else if "#{" <= a {
      HashToDollarAppend(a[2..], b);
      AppendTwo(a[2..], b);
      assert a == "#{" + a[2..];
    } else {
      assert |a| >= 2 ==> a[..2] == [a[0], a[1]];
      HashToDollarAppend(a[1..], b);
      AppendOne(a[0], a[1..], b);
      assert a == [a[0]] + a[1..];
    }
  }

  lemma {:induction false} PreparedLacks(s: string)
    requires Lacks(s, '}')
    ensures Lacks(HashToDollar(s), '}')
    decreases |s|
  {
    if "#{" <= s {
      PreparedLacks(s[2..]);
    } else if |s| >= 2 {
      PreparedLacks(s[1..]);
    }
  }

  lemma {:induction false} PreparedOpening(hash: bool, rest: string)
    ensures HashToDollar(Opening(hash) + rest) == "${" + HashToDollar(rest)
  {
    if hash {
      HashToDollarTwo(rest);
    } else {
      assert "${" + rest == ['$'] + (['{'] + rest);
      HashToDollarOne('$', ['{'] + rest);
      HashToDollarOne('{', rest);
      assert ['$'] + (['{'] + HashToDollar(rest)) == "${" + HashToDollar(rest);
    }
  }

  lemma {:induction false} PreparedReference(hash: bool, name: string, behind: string)
    ensures HashToDollar(Opening(hash) + (name + ("}" + behind)))
         == "${" + (HashToDollar(name) + ("}" + HashToDollar(behind)))
  {
    PreparedOpening(hash, name + ("}" + behind));
    HashToDollarAppend(name, "}" + behind);
    HashToDollarOne('}', behind);
  }

  lemma {:induction false} Regroup4(a: string, b: string, c: string, d: string)
    ensures a + (b + c) + d == a + (b + (c + d))
  {
    Regroup(a, b + c, d);
    Regroup(b, c, d);
  }

  lemma {:induction false} PreparedPiece(piece: Piece, behind: string)
    requires Ends(piece, behind)
    ensures HashToDollar(PieceText(piece) + behind) == PieceText(Dollar(piece)) + HashToDollar(behind)
  {
    if piece.Plain? {
      HashToDollarOne(piece.c, behind);
    } else {
      PreparedReference(piece.hash, piece.name, behind);
      Regroup4(Opening(piece.hash), piece.name, "}", behind);
      Regroup4("${", HashToDollar(piece.name), "}", HashToDollar(behind));
    }
  }

  // How a prepared value is expanded.

  function Behind(text: string, rest: Result<string>): Result<string> {
    match rest
    case Err(e) => Err(e)
    case Ok(more) => Ok(text + more)
  }

  lemma {:induction false} BehindBoth(a: string, b: string, rest: Result<string>)
    ensures Behind(a + b, rest) == Behind(a, Behind(b, rest))
  {
    assert rest.Ok? ==> (a + b) + rest.value == a + (b + rest.value);
  }

  lemma {:induction false} ExpandReference(name: string, rest: string, vars: string -> string)
    requires Lacks(name, '}')
    ensures ExpandVars("${" + (name + "}") + rest, vars) == Behind(vars(name), ExpandVars(rest, vars))
  {
    var s, end := "${" + (name + "}") + rest, 2 + |name|;
    assert forall i :: 2 <= i < end ==> s[i] == name[i - 2];
    ReferenceEndIs(s, end);
    assert s[2..end] == name && s[end + 1..] == rest;
  }

  lemma {:induction false} ExpandPlain(c: char, rest: string, vars: string -> string)
    requires c != '$' || rest == "" || rest[0] != '{'
    ensures ExpandVars([c] + rest, vars) == Behind([c], ExpandVars(rest, vars))
  {
    var s := [c] + rest;
    assert s[0] == c && s[1..] == rest;
    assert rest != "" ==> s[1] == rest[0];
  }

  /** A prepared text does not start with a brace unless the text did. */
  lemma {:induction false} PreparedStart(s: string)
    ensures HashToDollar(s) == "" <==> s == ""
    ensures s != "" && s[0] != '{' ==> HashToDollar(s)[0] != '{'
  {
  }

  lemma {:induction false} ExpandedPiece(piece: Piece, behind: string, prepared: string, vars: string -> string)
    requires Ends(piece, behind) && prepared == HashToDollar(behind)
    ensures ExpandVars(PieceText(Dollar(piece)) + prepared, vars)
         == Behind(PieceValue(piece, vars), ExpandVars(prepared, vars))
  {
    match piece
    case Plain(c) =>
      PreparedStart(behind);
      ExpandPlain(c, prepared, vars);
    case Reference(_, name) =>
      PreparedLacks(name);
      ExpandReference(HashToDollar(name), prepared, vars);
  }

  /** Preparing and expanding pieces replaces each reference and keeps the rest. */
  lemma {:induction false} ExpandedPieces(pieces: seq<Piece>, open: string, vars: string -> string)
    requires WellCut(pieces, open)
    ensures ExpandSectionVal(Render(pieces) + open, vars)
         == Behind(Replaced(pieces, vars), ExpandSectionVal(open, vars))
  {
    if pieces == [] {
      assert "" + open == open;
      var end := ExpandSectionVal(open, vars);
      assert end.Ok? ==> "" + end.value == end.value;
    } else {
      var piece, rest := pieces[0], pieces[1..];
      var behind := Render(rest) + open;
      ExpandedPieces(rest, open, vars);
      PreparedPiece(piece, behind);
      ExpandedPiece(piece, behind, HashToDollar(behind), vars);
      Regroup(PieceText(piece), Render(rest), open);
      BehindBoth(PieceValue(piece, vars), Replaced(rest, vars), ExpandSectionVal(open, vars));
    }
  }

  /** A reference that is not closed is refused. */
  lemma {:induction false} OpenRefused(open: string, vars: string -> string)
    requires IsOpen(open) && open != ""
    ensures ExpandSectionVal(open, vars) == Err(EINVAL)
  {
    var tail, hash := open[2..], open[0] == '#';
    assert open == Opening(hash) + tail;
    PreparedOpening(hash, tail);
    PreparedLacks(tail);
    var s := HashToDollar(open);
    assert s[2..] == HashToDollar(tail);
    assert IndexOf(s[2..], '}') == |s[2..]|;
  }

  lemma {:induction false} NoHash(s: string)
    requires Lacks(s, '#')
    ensures !HasHash(s)
  {
    if |s| >= 2 {
      assert s[0] != "#{"[0];
      NoHash(s[1..]);
    }
  }

  /**
   * A value with a "#{" in it gets each #{NAME} and ${NAME} replaced by its parameter and
   * keeps every other character; with a brace that is not closed it is refused.
   */
  lemma {:induction false} ParameterArgument(section: string, item: Item, pieces: seq<Piece>, open: string,
                                             vars: string -> string)
    requires '-' !in section && '=' !in item.key
    requires HasHash(item.value) && item.value == Render(pieces) + open && WellCut(pieces, open) && IsOpen(open)
    ensures ReadArg(Joined(section, item), vars)
         == if open != "" then Err(EINVAL) else Ok(Some(Setting(section, Item(item.key, Replaced(pieces, vars)))))
  {
    ParseJoined(section, item);
    NoHash("none");
    ExpandedPieces(pieces, open, vars);
    var expanded := ExpandSectionVal(item.value, vars);
    if open != "" {
      OpenRefused(open, vars);
      assert expanded == Err(EINVAL);
    } else {
      assert HashToDollar("") == "" && ExpandVars("", vars) == Ok("");
      assert Replaced(pieces, vars) + "" == Replaced(pieces, vars);
      assert expanded == Ok(Replaced(pieces, vars));
    }
  }

  // ---- Nothing is lost, duplicated or reordered ----

  /** All items of a configuration, each with the name of its section. */
  function Flatten(sections: seq<Section>): multiset<Setting> {
    if sections == [] then multiset{}
    else Placed(sections[0].name, sections[0].items) + Flatten(sections[1..])
  }

  function Placed(name: string, items: seq<Item>): multiset<Setting> {
    if items == [] then multiset{}
    else Placed(name, items[..|items| - 1]) + multiset{Setting(name, items[|items| - 1])}
  }

  lemma {:induction false} PlacedAdd(name: string, items: seq<Item>, item: Item)
    ensures Placed(name, items + [item]) == Placed(name, items) + multiset{Setting(name, item)}
  {
    assert (items + [item])[..|items|] == items;
  }

  lemma {:induction false} FlattenAdd(sections: seq<Section>, e: Setting)
    ensures Flatten(AddSetting(sections, e)) == Flatten(sections) + multiset{e}
  {
    var after := AddSetting(sections, e);
    if sections == [] {
      PlacedAdd(e.section, [], e.item);
      assert [] + [e.item] == [e.item];
      assert Flatten(after) == Placed(e.section, [e.item]) + Flatten([]);
    } else if sections[0].name == e.section {
      PlacedAdd(e.section, sections[0].items, e.item);
      assert after[1..] == sections[1..];
    } else {
      FlattenAdd(sections[1..], e);
      AddLater(sections, e);
    }
  }

  lemma {:induction false} AddLater(sections: seq<Section>, e: Setting)
    requires sections != [] && sections[0].name != e.section
    ensures AddSetting(sections, e)[0] == sections[0]
    ensures AddSetting(sections, e)[1..] == AddSetting(sections[1..], e)
  {
  }

  /** Every setting lands in exactly one item, and there are no other items. */
  lemma {:induction false} NothingLost(settings: seq<Setting>)
    ensures Flatten(GroupBy(settings)) == multiset(settings)
  {
    if settings == [] {
    } else {
      var before, last := settings[..|settings| - 1], settings[|settings| - 1];
      assert settings == before + [last];
      NothingLost(before);
      GroupByAdd(before, last);
      FlattenAdd(GroupBy(before), last);
    }
  }

  /** Position of the first setting for a section, or |settings|. */
  function FirstUse(settings: seq<Setting>, name: string): (r: nat)
    ensures r <= |settings|
    ensures r < |settings| ==> settings[r].section == name
    ensures forall i :: 0 <= i < r ==> settings[i].section != name
  {
    if settings == [] then 0
    else if settings[0].section == name then 0
    else 1 + FirstUse(settings[1..], name)
  }

  lemma {:induction false} FirstUseAdd(settings: seq<Setting>, last: Setting, name: string)
    ensures FirstUse(settings + [last], name)
         == if FirstUse(settings, name) < |settings| then FirstUse(settings, name)
            else if last.section == name then |settings| else |settings| + 1
  {
    var more := settings + [last];
    assert forall i :: 0 <= i < |settings| ==> more[i] == settings[i];
    assert more[|settings|] == last;
  }

  lemma {:induction false} UsedBefore(settings: seq<Setting>, name: string)
    ensures name in Names(settings) <==> FirstUse(settings, name) < |settings|
  {
    if name in Names(settings) {
      var e :| e in settings && e.section == name;
      var k :| 0 <= k < |settings| && settings[k] == e;
    }
  }

  predicate InFirstUseOrder(settings: seq<Setting>, names: seq<string>) {
    forall i, j :: 0 <= i < j < |names| ==> FirstUse(settings, names[i]) < FirstUse(settings, names[j])
  }

  lemma {:induction false} NamesInOrder(settings: seq<Setting>)
    ensures InFirstUseOrder(settings, Names(settings))
  {
    if settings != [] {
      var before, last := settings[..|settings| - 1], settings[|settings| - 1];
      assert settings == before + [last];
      var earlier, names := Names(before), Names(settings);
      NamesInOrder(before);
      forall i, j | 0 <= i < j < |names|
        ensures FirstUse(settings, names[i]) < FirstUse(settings, names[j])
      {
        assert names[i] == earlier[i];
        assert j < |earlier| ==> names[j] == earlier[j];
        FirstUseAdd(before, last, names[i]);
        FirstUseAdd(before, last, names[j]);
        UsedBefore(before, names[i]);
        UsedBefore(before, names[j]);
      }
    }
  }

  /** The items of a section stand in the order of the settings. */
  lemma {:induction false} ItemsInOrder(a: seq<Setting>, b: seq<Setting>, name: string)
    ensures ItemsOf(a + b, name) == ItemsOf(a, name) + ItemsOf(b, name)
  {
    if b == [] {
      assert a + b == a;
      assert ItemsOf(a, name) + [] == ItemsOf(a, name);
    } else {
      var before, last := b[..|b| - 1], b[|b| - 1];
      assert (a + b)[..|a + b| - 1] == a + before;
      ItemsInOrder(a, before, name);
      if last.section == name {
        Regroup(ItemsOf(a, name), ItemsOf(before, name), [last.item]);
      }
    }
  }

  /** One setting gives one item to its section and none to others. */
  lemma {:induction false} OneItem(e: Setting, name: string)
    ensures ItemsOf([e], name) == if e.section == name then [e.item] else []
  {
    assert [e][..0] == [] && ItemsOf([], name) == [];
    assert [] + [e.item] == [e.item];
  }

  /** The sections stand in order of first use, with distinct names, and none is empty. */
  lemma {:induction false} SectionsInOrder(settings: seq<Setting>)
    ensures InFirstUseOrder(settings, Names(settings))
    ensures forall i, j :: 0 <= i < j < |GroupBy(settings)| ==>
              GroupBy(settings)[i].name != GroupBy(settings)[j].name
    ensures forall i :: 0 <= i < |GroupBy(settings)| ==>
              GroupBy(settings)[i].name == Names(settings)[i] && GroupBy(settings)[i].items != []
  {
    NamesInOrder(settings);
    forall i | 0 <= i < |GroupBy(settings)| ensures GroupBy(settings)[i].items != [] {
      NoItems(settings, Names(settings)[i]);
      assert Names(settings)[i] in Names(settings);
    }
  }
}
