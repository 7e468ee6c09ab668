/** The publish run of `main` (src/index.js, lines 250-380) with its file
    system and subprocess effects passed in as an environment: the command
    line is parsed, help or `--init` end the run early, the configuration is
    merged, the build runs, the copy rules run, the new version is decided
    and `updatePackageJson` writes the manifests; with `-y` the publish
    directory is then packed and published. */
module Release {
  import opened Text
  import opened Version
  import opened CliArgs
  import opened Manifest
  import opened CopyFiles
  import opened Config

  /** Lines 334-344: an explicit increment flag decides; otherwise `-y`
      means increment; otherwise no increment. */
  function ShouldIncrement(args: Args): bool {
    if args.incrementVersion.Some? then args.incrementVersion.value
    else args.autoPublish
  }

  /** The value `newVersion` ends up holding at line 349, or how computing it
      fails: `incrementVersion` of a value that is not a string throws a
      TypeError (it has no `split`), and a string outside the modelled shape
      would give a NaN-laden string this model does not describe. */
  datatype NewVersionResult = Chosen(value: Value) | Throws | Unmodelled

  /** Lines 346-349. */
  function NewVersion(shouldIncrement: bool, current: Value): (r: NewVersionResult)
    ensures !shouldIncrement ==> r == Chosen(current)
    ensures shouldIncrement && r.Chosen? ==>
              current.Str? && r.value.Str?
              && Parse(current.s).Some?
              && Parse(r.value.s) == Some(NextPatch(Parse(current.s).value))
    ensures shouldIncrement ==> (r.Throws? <==> !current.Str?)
  {
    if !shouldIncrement then Chosen(current)
    else if !current.Str? then Throws
    else match Increment(current.s)
      case Some(next) => Chosen(Str(next))
      case None => Unmodelled
  }

  /** The `let` variables `shouldIncrementVersion` and `newVersion` of
      `main`, assigned step by step. */
  method DecideVersion(args: Args, current: Value)
    returns (shouldIncrementVersion: bool, newVersion: NewVersionResult)
    ensures shouldIncrementVersion == ShouldIncrement(args)
    ensures newVersion == NewVersion(shouldIncrementVersion, current)
  {
    shouldIncrementVersion := false;
    if args.incrementVersion.Some? {
      shouldIncrementVersion := args.incrementVersion.value;
    } else if args.autoPublish {
      shouldIncrementVersion := true;
    } else {
      shouldIncrementVersion := false;
    }
    newVersion := Chosen(current);
    if shouldIncrementVersion {
      if !current.Str? {
        newVersion := Throws;
        return;
      }
      var bumped := Increment(current.s);
      if bumped.None? {
        newVersion := Unmodelled;
      } else {
        newVersion := Chosen(Str(bumped.value));
      }
    }
  }

  /** The file system and subprocesses the run meets: whether
      publish.config.js exists and whether writing it throws (for `--init`),
      the user configuration it exports, whether the build command fails,
      the parsed package.json, which copy sources exist, and which copy rules
      throw. */
  datatype Env = Env(
    configExists: bool,
    initWriteThrows: bool,
    user: UserConfig,
    buildThrows: bool,
    manifest: Object,
    present: set<string>,
    broken: set<CopyRule>)

  /** How the run ends. Every outcome but `Prepared` ends before
      `updatePackageJson`, so it writes no manifest. */
  datatype PublishOutcome =
    | ShowedHelp
    | RanInit(init: InitOutcome, exitCode: int)
    | ConfigRejected(reason: MergeResult)
    | BuildFailed(target: PublishPath, cleaned: bool)
    | CopyFailed(target: PublishPath, copied: seq<CopyAction>, rule: CopyRule)
    | VersionThrows
    | VersionOutsideModel
    | Prepared(target: PublishPath, cleaned: bool, copied: seq<CopyAction>, writes: Writes, publishes: bool)

  /** The whole run, step by step. */
  function Run(argv: seq<string>, env: Env): PublishOutcome
  {
    var args := ParseTokens(TokensFrom(argv, 2));
    if args.help then ShowedHelp
    else if args.init then
      var init := CreateInitialConfig(env.configExists, env.initWriteThrows);
      RanInit(init, InitExitCode(init))
    else
      var merged := Merge(args.buildCommand, env.user);
      if !merged.Merged? then ConfigRejected(merged)
      else
        var c := merged.config;
        var target := PublishTarget(c);
        if env.buildThrows then BuildFailed(target, CleansPublishDir(c))
        else
          match PlanCopies(c.copyConfig, env.present, env.broken)
          case Failed(done, rule) => CopyFailed(target, done, rule)
          case Copied(done) =>
            var should := ShouldIncrement(args);
            match NewVersion(should, Get(env.manifest, "version"))
            case Throws => VersionThrows
            case Unmodelled => VersionOutsideModel
            case Chosen(nv) =>
              Prepared(target, CleansPublishDir(c), done,
                       PackageJsonWrites(env.manifest, nv, c.filteredConfig, should),
                       args.autoPublish)
  }

  /** `main()`, with its environment passed in. */
  method PublishProcess(argv: seq<string>, env: Env) returns (outcome: PublishOutcome)
    ensures outcome == Run(argv, env)
  {
    var args := ParseArgs(argv);
    if args.help {
      return ShowedHelp;
    }
    if args.init {
      var init := CreateInitialConfig(env.configExists, env.initWriteThrows);
      return RanInit(init, InitExitCode(init));
    }
    var merged := Merge(args.buildCommand, env.user);
    if !merged.Merged? {
      return ConfigRejected(merged);
    }
    var finalConfig := merged.config;
    var target := PublishTarget(finalConfig);
    var cleaned := CleansPublishDir(finalConfig);
    if env.buildThrows {
      return BuildFailed(target, cleaned);
    }
    var pkg := new PackageJson(env.manifest);
    var copies := CopyFiles.CopyFiles(finalConfig.copyConfig, env.present, env.broken);
    if copies.Failed? {
      return CopyFailed(target, copies.done, copies.rule);
    }
    var shouldIncrementVersion, newVersion := DecideVersion(args, Get(pkg.fields, "version"));
    if newVersion.Throws? {
      return VersionThrows;
    }
    if newVersion.Unmodelled? {
      return VersionOutsideModel;
    }
    var writes := UpdatePackageJson(pkg, newVersion.value, finalConfig.filteredConfig, shouldIncrementVersion);
    outcome := Prepared(target, cleaned, copies.done, writes, args.autoPublish);
  }

  /** The manifest in the directory `npm pack` and `npm publish` run in
      (lines 358 and 363). When that directory is the project root, both
      writes of `updatePackageJson` go to the same package.json and the
      second one, if made, wins. */
  function PackedManifest(target: PublishPath, w: Writes): Object
  {
    if target.ProjectRoot? && w.source.Some? then w.source.value else w.publish
  }

  /** The project's own package.json after `updatePackageJson`: None when it
      is not written. */
  function SourceFileAfter(target: PublishPath, w: Writes): Option<Object>
  {
    if w.source.Some? then w.source else if target.ProjectRoot? then Some(w.publish) else None
  }

  // ---------------------------------------------------------------------
  // Properties

  /** The last increment flag read as an option decides, even when `-y` is
      also given. */
  lemma DecisionFollowsLastIncrementFlag(pre: seq<string>, f: string, post: seq<string>)
    requires Complete(pre) && IsIncrementFlag(f)
    requires forall i :: 0 <= i < |post| ==> !IsIncrementFlag(post[i])
    ensures ShouldIncrement(ParseTokens(pre + [f] + post)) == (f == "--increment-version")
  {
    LastIncrementFlagWins(pre, f, post, Defaults);
  }

  /** Without either increment flag the decision is `-y`: incrementing
      exactly when publishing, and never when no `-y`/`--yes` token occurs. */
  lemma DecisionWithoutIncrementFlags(ts: seq<string>)
    requires forall i :: 0 <= i < |ts| ==> !IsIncrementFlag(ts[i])
    ensures ShouldIncrement(ParseTokens(ts)) == ParseTokens(ts).autoPublish
    ensures (forall i :: 0 <= i < |ts| ==> !IsYes(ts[i])) ==> !ShouldIncrement(ParseTokens(ts))
  {
    ScanKeepsIncrement(ts, Defaults);
    SwitchesOnlyTurnOn(ts, Defaults);
  }

  /** Without an increment the version stays what the manifest holds, and
      the source manifest is not rewritten. */
  lemma NoIncrementKeepsVersion(args: Args, m: Object, filters: FilterMap)
    requires !ShouldIncrement(args)
    ensures NewVersion(ShouldIncrement(args), Get(m, "version")) == Chosen(Get(m, "version"))
    ensures PackageJsonWrites(m, Get(m, "version"), filters, ShouldIncrement(args)).source == None
  {
  }

  /** For a manifest with a well-formed version string, the source manifest
      is rewritten exactly when the decision is to increment, and then
      holds the bumped version with everything else unchanged. */
  lemma RewriteExactlyWhenIncrementing(args: Args, m: Object, filters: FilterMap)
    requires JsonObject(m) && Get(m, "version").Str? && Increment(Get(m, "version").s).Some?
    ensures NewVersion(ShouldIncrement(args), Get(m, "version")).Chosen?
    ensures var nv := NewVersion(ShouldIncrement(args), Get(m, "version")).value;
            var w := PackageJsonWrites(m, nv, filters, ShouldIncrement(args));
            (w.source.Some? <==> ShouldIncrement(args))
            && (w.source.Some? ==>
                  Get(w.source.value, "version") == Str(Increment(Get(m, "version").s).value)
                  && Keys(w.source.value) == Keys(m)
                  && forall k :: k != "version" ==> Get(w.source.value, k) == Get(m, k))
  {
    var s := Get(m, "version").s;
    var nv := NewVersion(ShouldIncrement(args), Get(m, "version")).value;
    if ShouldIncrement(args) {
      IncrementChangesVersion(s);
      assert nv == Str(Increment(s).value);
      assert "version" in Keys(m);
      SourceRewrite(m, nv);
    }
  }

  /** `--no-increment-version` as the last increment flag means the source
      manifest is never rewritten, whatever else the command line holds,
      `-y` included. */
  lemma NoIncrementVersionNeverRewrites(pre: seq<string>, post: seq<string>, m: Object, filters: FilterMap)
    requires Complete(pre)
    requires forall i :: 0 <= i < |post| ==> !IsIncrementFlag(post[i])
    ensures var args := ParseTokens(pre + ["--no-increment-version"] + post);
            NewVersion(ShouldIncrement(args), Get(m, "version")) == Chosen(Get(m, "version"))
            && PackageJsonWrites(m, Get(m, "version"), filters, ShouldIncrement(args)).source == None
  {
    DecisionFollowsLastIncrementFlag(pre, "--no-increment-version", post);
  }

  /** With `-y` alone and a manifest at a well-formed version, the source
      manifest is bumped but the publish manifest carries the OLD version. */
  lemma YesPublishesOldVersion(m: Object, filters: FilterMap)
    requires JsonObject(m) && Get(m, "version").Str? && Increment(Get(m, "version").s).Some?
    ensures var args := ParseTokens(["-y"]);
            ShouldIncrement(args) && args.autoPublish
            && var nv := NewVersion(true, Get(m, "version")).value;
               var w := PackageJsonWrites(m, nv, filters, true);
               Get(w.publish, "version") == Get(m, "version")
               && w.source.Some?
               && Get(w.source.value, "version") == Str(Increment(Get(m, "version").s).value)
  {
    var s := Get(m, "version").s;
    var nv := Str(Increment(s).value);
    assert "version" in Keys(m);
    PublishedVersion(m, nv, filters);
    IncrementChangesVersion(s);
    SourceRewrite(m, nv);
  }

  /** Publishing in the project root: without a rewrite the project's own
      package.json is replaced by the filtered publish manifest, and with
      one the directory published from holds the unfiltered source
      manifest. In a separate publish directory the published manifest is
      the filtered one and the project's file changes only by the rewrite. */
  lemma PackedManifestByTarget(target: PublishPath, m: Object, nv: Value, filters: FilterMap, should: bool)
    ensures var w := PackageJsonWrites(m, nv, filters, should);
            (target.ProjectRoot? && !RewritesSource(m, nv, should) ==>
               SourceFileAfter(target, w) == Some(PublishManifest(m, nv, filters))
               && PackedManifest(target, w) == PublishManifest(m, nv, filters))
            && (target.ProjectRoot? && RewritesSource(m, nv, should) ==>
               PackedManifest(target, w) == RewrittenSource(m, nv)
               && SourceFileAfter(target, w) == Some(RewrittenSource(m, nv)))
            && (target.PublishDir? ==>
               PackedManifest(target, w) == PublishManifest(m, nv, filters)
               && (SourceFileAfter(target, w).Some? <==> RewritesSource(m, nv, should)))
  {
  }

  /** `--help` read as an option ends the run before anything else, even
      before `--init` and the configuration check. */
  lemma HelpComesFirst(pre: seq<string>, t: string, post: seq<string>, env: Env)
    requires Complete(pre) && IsHelp(t)
    ensures Run(["node", "publish"] + pre + [t] + post, env) == ShowedHelp
  {
    var argv := ["node", "publish"] + pre + [t] + post;
    assert TokensFrom(argv, 2) == pre + [t] + post;
    SwitchTakesEffect(pre, t, post, Defaults);
  }

  /** When the run stops, before `updatePackageJson`, at a refused
      configuration, a failed build or a failed copy, the version decision
      plays no part: the outcome is the same for every manifest. */
  lemma EarlyStopIgnoresManifest(argv: seq<string>, env: Env, other: Object)
    requires Run(argv, env).ConfigRejected? || Run(argv, env).BuildFailed? || Run(argv, env).CopyFailed?
    ensures Run(argv, env.(manifest := other)) == Run(argv, env)
  {
  }

  /** A `-y` run with the template configuration: it cleans and fills the
      default "publish" directory, copies nothing, publishes, rewrites the
      source manifest to the bumped version, and packs a manifest that still
      carries the old one. */
  lemma YesRunWithTemplate(m: Object, present: set<string>, broken: set<CopyRule>)
    requires JsonObject(m) && Get(m, "version").Str? && Increment(Get(m, "version").s).Some?
    ensures var o := Run(["node", "publish", "-y"], Env(true, false, TemplateConfig, false, m, present, broken));
            o.Prepared? && o.target == PublishDir("publish") && o.cleaned && o.publishes
            && o.copied == []
            && Get(PackedManifest(o.target, o.writes), "version") == Get(m, "version")
            && o.writes.source.Some?
            && Get(o.writes.source.value, "version") == Str(Increment(Get(m, "version").s).value)
  {
    var env := Env(true, false, TemplateConfig, false, m, present, broken);
    var args := ParseTokens(TokensFrom(["node", "publish", "-y"], 2));
    assert TokensFrom(["node", "publish", "-y"], 2) == ["-y"];
    assert args == Args(true, None, None, false, false);
    TemplateConfigMerges(None);
    var c := Merge(None, TemplateConfig).config;
    var nv := Str(Increment(Get(m, "version").s).value);
    var w := PackageJsonWrites(m, nv, c.filteredConfig, true);
    assert Run(["node", "publish", "-y"], env) == Prepared(PublishDir("publish"), true, [], w, true);
    YesPublishesOldVersion(m, c.filteredConfig);
  }
}
