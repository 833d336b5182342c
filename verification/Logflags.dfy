/** The --logflag options of blk-proxy (block-ts/lib/tsapi-blkproxy.c, create_optional_logflags). */
module Logflags {
  import opened Text
  import opened Strtok

  /** One option and its argument a token. */
  function Options(tokens: seq<string>): seq<string> {
    if tokens == [] then [] else ["--logflag", tokens[0]] + Options(tokens[1..])
  }

  /** Appends the options for a comma-separated list of flags; no list means no options. */
  method CreateOptionalLogflags(str: Option<string>, args: seq<string>) returns (args': seq<string>)
    ensures args' == args + (if str == None then [] else Options(Tokens(str.value, ',')))
  {
    args' := args;
    if str == None {
      return;
    }
    var scanner := new Scanner(str.value);
    var tmp := scanner.Next(',');
    ghost var all := Options(Tokens(str.value, ','));
    while tmp.Some?
      invariant args + all
             == args' + Options((if tmp.Some? then [tmp.value] else []) + Tokens(scanner.rest, ','))
      invariant tmp == None ==> Tokens(scanner.rest, ',') == []
      decreases tmp.Some?, |scanner.rest|
    {
      ghost var tokens := [tmp.value] + Tokens(scanner.rest, ',');
      assert tokens[1..] == Tokens(scanner.rest, ',');
      args' := args' + ["--logflag"];
      args' := args' + [tmp.value];
      tmp := scanner.Next(',');
    }
  }

  /** The arguments of the options: every second element. */
  function OddElements(s: seq<string>): seq<string> {
    if |s| < 2 then [] else [s[1]] + OddElements(s[2..])
  }

  lemma {:induction false} OptionsOf(tokens: seq<string>)
    ensures |Options(tokens)| == 2 * |tokens|
    ensures forall i :: 0 <= i < |tokens| ==> Options(tokens)[2 * i] == "--logflag"
    ensures OddElements(Options(tokens)) == tokens
  {
    if tokens != [] {
      var rest := Options(tokens[1..]);
      OptionsOf(tokens[1..]);
      assert Options(tokens)[2..] == rest;
      forall i | 0 <= i < |tokens| ensures Options(tokens)[2 * i] == "--logflag" {
        if i > 0 {
          assert Options(tokens)[2 * i] == rest[2 * (i - 1)];
        }
      }
    }
  }

  /**
   * The options come in pairs. When the list is any fields joined by commas, the flags are
   * those of the fields that are not empty, in order: a flag reaches from comma to comma.
   */
  lemma {:induction false} LogflagsOfFields(fields: seq<string>)
    requires forall i :: 0 <= i < |fields| ==> Lacks(fields[i], ',')
    ensures var options := Options(Tokens(Join(fields, ','), ','));
            && |options| % 2 == 0
            && (forall i :: 0 <= i < |options| / 2 ==> options[2 * i] == "--logflag")
            && OddElements(options) == NonEmpty(fields)
  {
    OptionsOf(Tokens(Join(fields, ','), ','));
    JoinedFields(fields, ',');
  }

  /**
   * Every list is its fields joined by commas; the flags are the non-empty fields and keep
   * all characters but the commas, and joining the flags again asks for the same options.
   */
  lemma {:induction false} LogflagsRoundTrip(str: string)
    ensures var options := Options(Tokens(str, ',')); var fields := Fields(str, ',');
            && |options| % 2 == 0
            && (forall i :: 0 <= i < |options| / 2 ==> options[2 * i] == "--logflag")
            && fields != [] && Join(fields, ',') == str
            && (forall i :: 0 <= i < |fields| ==> Lacks(fields[i], ','))
            && OddElements(options) == NonEmpty(fields)
            && (forall i :: 0 <= i < |OddElements(options)| ==> IsToken(OddElements(options)[i], ','))
            && Concat(OddElements(options)) == Undelimited(str, ',')
            && Options(Tokens(Join(OddElements(options), ','), ',')) == options
  {
    OptionsOf(Tokens(str, ','));
    FieldsExact(str, ',');
    FieldsLack(str, ',');
    TokensAreFields(str, ',');
    TokensAreTokens(str, ',');
    TokensKeepText(str, ',');
    JoinTokens(Tokens(str, ','), ',');
  }
}
