/** The command line of the publishing tool (`parseArgs` in src/index.js):
    the tokens after the interpreter and script path are read left to right;
    switches set fields, `--build-command` takes the token after it, and
    anything else is passed over. */
module CliArgs {
  import opened Text

  /** The record `parseArgs` fills in. `incrementVersion` is tri-state:
      None stands for JavaScript `null` (neither flag given). */
  datatype Args = Args(
    autoPublish: bool,
    incrementVersion: Option<bool>,
    buildCommand: Option<string>,
    help: bool,
    init: bool)

  const Defaults: Args := Args(false, None, None, false, false)

  const BuildCommandFlag: string := "--build-command"

  predicate IsIncrementFlag(t: string) {
    t == "--increment-version" || t == "--no-increment-version"
  }

  predicate IsYes(t: string) { t == "-y" || t == "--yes" }

  predicate IsHelp(t: string) { t == "-h" || t == "--help" }

  /** A token one of the `case` labels of the switch matches. */
  predicate IsKnown(t: string) {
    IsYes(t) || IsIncrementFlag(t) || IsHelp(t) || t == "--init" || t == BuildCommandFlag
  }

  /** The switch cases that take no argument; an unmatched token changes nothing. */
  function ApplySwitch(t: string, a: Args): (b: Args)
    requires t != BuildCommandFlag
    ensures !IsKnown(t) ==> b == a
    ensures b.buildCommand == a.buildCommand
  {
    if IsYes(t) then a.(autoPublish := true)
    else if t == "--increment-version" then a.(incrementVersion := Some(true))
    else if t == "--no-increment-version" then a.(incrementVersion := Some(false))
    else if IsHelp(t) then a.(help := true)
    else if t == "--init" then a.(init := true)
    else a
  }

  /** The loop of `parseArgs` over the remaining tokens `ts`, starting from
      the record `a`. A `--build-command` with a token after it stores that
      token verbatim and skips it; a trailing one ends the scan unchanged. */
  function Scan(ts: seq<string>, a: Args): Args
    decreases |ts|
  {
    if ts == [] then a
    else if ts[0] == BuildCommandFlag then
      if |ts| > 1 then Scan(ts[2..], a.(buildCommand := Some(ts[1]))) else a
    else Scan(ts[1..], ApplySwitch(ts[0], a))
  }

  /** The record for the tokens `ts`, starting from the initial record. */
  function ParseTokens(ts: seq<string>): Args {
    Scan(ts, Defaults)
  }

  /** The tokens from index `i` on, none once `i` is past the end. */
  function TokensFrom(argv: seq<string>, i: nat): seq<string> {
    if i < |argv| then argv[i..] else []
  }

  /** `parseArgs()`, with `process.argv` passed in. */
  method ParseArgs(argv: seq<string>) returns (args: Args)
    ensures args == ParseTokens(TokensFrom(argv, 2))
    ensures |argv| <= 2 ==> args == Defaults
  {
    args := Defaults;
    var i := 2;
    while i < |argv|
      invariant 2 <= i
      invariant Scan(TokensFrom(argv, i), args) == ParseTokens(TokensFrom(argv, 2))
      decreases |argv| - i
    {
      var arg := argv[i];
      assert argv[i..][1..] == argv[i + 1..];
      if arg == BuildCommandFlag {
        if i + 1 < |argv| {
          assert argv[i..][2..] == argv[i + 2..];
          i := i + 1;
          args := args.(buildCommand := Some(argv[i]));
        }
      } else {
        args := ApplySwitch(arg, args);
      }
      i := i + 1;
    }
  }

  /** True of a token sequence whose every `--build-command` has its argument
      inside the sequence, so that tokens appended afterwards are read as
      options of their own. */
  predicate Complete(ts: seq<string>)
    decreases |ts|
  {
    if ts == [] then true
    else if ts[0] == BuildCommandFlag then |ts| > 1 && Complete(ts[2..])
    else Complete(ts[1..])
  }

  /** Scanning a complete prefix and then the rest is scanning the whole. */
  lemma {:induction false} ScanConcat(pre: seq<string>, post: seq<string>, a: Args)
    requires Complete(pre)
    ensures Scan(pre + post, a) == Scan(post, Scan(pre, a))
    decreases |pre|
  {
    if pre != [] {
      var ts := pre + post;
      if pre[0] == BuildCommandFlag {
        assert ts[2..] == pre[2..] + post;
        ScanConcat(pre[2..], post, a.(buildCommand := Some(pre[1])));
      } else {
        assert ts[1..] == pre[1..] + post;
        ScanConcat(pre[1..], post, ApplySwitch(pre[0], a));
      }
    } else {
      assert pre + post == post;
    }
  }

  /** Tokens without either increment flag leave the tri-state as it was. */
  lemma {:induction false} ScanKeepsIncrement(ts: seq<string>, a: Args)
    requires forall i :: 0 <= i < |ts| ==> !IsIncrementFlag(ts[i])
    ensures Scan(ts, a).incrementVersion == a.incrementVersion
    decreases |ts|
  {
    if ts != [] {
      if ts[0] == BuildCommandFlag {
        if |ts| > 1 { ScanKeepsIncrement(ts[2..], a.(buildCommand := Some(ts[1]))); }
      } else {
        ScanKeepsIncrement(ts[1..], ApplySwitch(ts[0], a));
      }
    }
  }

  /** Tokens without `--build-command` leave the build command as it was. */
  lemma {:induction false} ScanKeepsBuildCommand(ts: seq<string>, a: Args)
    requires forall i :: 0 <= i < |ts| ==> ts[i] != BuildCommandFlag
    ensures Scan(ts, a).buildCommand == a.buildCommand
    decreases |ts|
  {
    if ts != [] {
      ScanKeepsBuildCommand(ts[1..], ApplySwitch(ts[0], a));
    }
  }

  /** The three switches are only ever turned on, and a switch none of whose
      spellings occurs keeps its value. */
  lemma {:induction false} SwitchesOnlyTurnOn(ts: seq<string>, a: Args)
    ensures a.autoPublish ==> Scan(ts, a).autoPublish
    ensures a.help ==> Scan(ts, a).help
    ensures a.init ==> Scan(ts, a).init
    ensures (forall i :: 0 <= i < |ts| ==> !IsYes(ts[i])) ==> Scan(ts, a).autoPublish == a.autoPublish
    ensures (forall i :: 0 <= i < |ts| ==> !IsHelp(ts[i])) ==> Scan(ts, a).help == a.help
    ensures (forall i :: 0 <= i < |ts| ==> ts[i] != "--init") ==> Scan(ts, a).init == a.init
    decreases |ts|
  {
    if ts != [] {
      if ts[0] == BuildCommandFlag {
        if |ts| > 1 { SwitchesOnlyTurnOn(ts[2..], a.(buildCommand := Some(ts[1]))); }
      } else {
        SwitchesOnlyTurnOn(ts[1..], ApplySwitch(ts[0], a));
      }
    }
  }

  /** A switch read as an option sets its field for good. */
  lemma SwitchTakesEffect(pre: seq<string>, t: string, post: seq<string>, a: Args)
    requires Complete(pre)
    ensures IsYes(t) ==> Scan(pre + [t] + post, a).autoPublish
    ensures IsHelp(t) ==> Scan(pre + [t] + post, a).help
    ensures t == "--init" ==> Scan(pre + [t] + post, a).init
  {
    ScanConcat(pre, [t] + post, a);
    assert pre + [t] + post == pre + ([t] + post);
    if t != BuildCommandFlag {
      var b := ApplySwitch(t, Scan(pre, a));
      assert ([t] + post)[1..] == post;
      SwitchesOnlyTurnOn(post, b);
    }
  }

  /** The last increment flag read as an option decides the tri-state, whatever came before it. */
  lemma LastIncrementFlagWins(pre: seq<string>, f: string, post: seq<string>, a: Args)
    requires Complete(pre) && IsIncrementFlag(f)
    requires forall i :: 0 <= i < |post| ==> !IsIncrementFlag(post[i])
    ensures Scan(pre + [f] + post, a).incrementVersion == Some(f == "--increment-version")
  {
    ScanConcat(pre, [f] + post, a);
    assert pre + [f] + post == pre + ([f] + post);
    assert ([f] + post)[1..] == post;
    ScanKeepsIncrement(post, ApplySwitch(f, Scan(pre, a)));
  }

  /** `--build-command` takes the very next token as the command, even one
      that looks like a flag, and reading resumes after it. */
  lemma BuildCommandTakesNextToken(pre: seq<string>, c: string, post: seq<string>, a: Args)
    requires Complete(pre)
    ensures Scan(pre + [BuildCommandFlag, c] + post, a)
         == Scan(post, Scan(pre, a).(buildCommand := Some(c)))
    ensures (forall i :: 0 <= i < |post| ==> post[i] != BuildCommandFlag) ==>
              Scan(pre + [BuildCommandFlag, c] + post, a).buildCommand == Some(c)
  {
    var tail := [BuildCommandFlag, c] + post;
    ScanConcat(pre, tail, a);
    assert pre + [BuildCommandFlag, c] + post == pre + tail;
    assert tail[2..] == post;
    if forall i :: 0 <= i < |post| ==> post[i] != BuildCommandFlag {
      ScanKeepsBuildCommand(post, Scan(pre, a).(buildCommand := Some(c)));
    }
  }

  /** A `--build-command` with nothing after it is ignored. */
  lemma TrailingBuildCommandIgnored(pre: seq<string>, a: Args)
    requires Complete(pre)
    ensures Scan(pre + [BuildCommandFlag], a) == Scan(pre, a)
  {
    ScanConcat(pre, [BuildCommandFlag], a);
  }

  /** A token no `case` matches changes nothing. */
  lemma UnknownTokenIgnored(pre: seq<string>, t: string, post: seq<string>, a: Args)
    requires Complete(pre) && !IsKnown(t)
    ensures Scan(pre + [t] + post, a) == Scan(pre + post, a)
  {
    ScanConcat(pre, [t] + post, a);
    ScanConcat(pre, post, a);
    assert pre + [t] + post == pre + ([t] + post);
    assert ([t] + post)[1..] == post;
  }

  /** Without tokens after the script path every field keeps its initial value. */
  lemma NoTokensGiveDefaults(argv: seq<string>)
    requires |argv| <= 2
    ensures ParseTokens(TokensFrom(argv, 2)).autoPublish == false
    ensures ParseTokens(TokensFrom(argv, 2)).incrementVersion == None
    ensures ParseTokens(TokensFrom(argv, 2)).buildCommand == None
    ensures !ParseTokens(TokensFrom(argv, 2)).help && !ParseTokens(TokensFrom(argv, 2)).init
  {
  }

  /** An example: the later `--no-increment-version` overrides the earlier
      flag, `-y` is set, and the command after `--build-command` is taken
      verbatim although it starts with dashes. */
  lemma ParseExample()
    ensures ParseTokens(["--increment-version", "-y", "--build-command", "--init", "--no-increment-version"])
         == Args(true, Some(false), Some("--init"), false, false)
  {
  }
}
