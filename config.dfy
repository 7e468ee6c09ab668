/** The configuration side of `main` (src/index.js): the user configuration
    loaded from publish.config.js is checked and merged with the command-line
    build command into the final configuration, which decides where the
    package is assembled and whether that directory is cleaned first; and
    `createInitialConfig`, which writes the template configuration. */
module Config {
  import opened Text
  import opened Manifest
  import opened CopyFiles

  /** The object `loadUserConfig` returns: its own keys and the four settings
      it may hold. A setting that is None reads as `undefined`. */
  datatype UserConfig = UserConfig(
    keys: set<string>,
    buildCommand: Option<string>,
    publishDir: Option<string>,
    copyConfig: Option<seq<CopyRule>>,
    filteredConfig: Option<FilterMap>)

  /** A configuration object whose defined settings are among its keys. */
  predicate WellFormed(u: UserConfig) {
    (u.buildCommand.Some? ==> "buildCommand" in u.keys)
    && (u.publishDir.Some? ==> "publishDir" in u.keys)
    && (u.copyConfig.Some? ==> "copyConfig" in u.keys)
    && (u.filteredConfig.Some? ==> "filteredConfig" in u.keys)
  }

  /** JavaScript truthiness of an optional string: defined and not empty. */
  predicate Truthy(s: Option<string>) { s.Some? && s.value != "" }

  /** `finalConfig` of lines 281-286. */
  datatype FinalConfig = FinalConfig(
    buildCommand: string,
    publishDir: string,
    copyConfig: seq<CopyRule>,
    filteredConfig: FilterMap)

  /** The merge either yields the final configuration or stops the process
      with exit code 1 (lines 273-278 and 289-294). */
  datatype MergeResult =
    | Merged(config: FinalConfig)
    | MissingConfig
    | MissingBuildCommand

  /** Lines 273-294: an empty configuration is refused, the command-line
      build command is used when it is truthy and the configured one
      otherwise, a build command that is still falsy is refused, `publishDir`
      falls back to "publish" only when it is undefined, and the lists fall
      back to empty. */
  function Merge(cliBuildCommand: Option<string>, user: UserConfig): (r: MergeResult)
    ensures r.MissingConfig? <==> user.keys == {}
    ensures r.MissingBuildCommand? <==>
              user.keys != {} && !Truthy(cliBuildCommand) && !Truthy(user.buildCommand)
    ensures r.Merged? ==> r.config.buildCommand != ""
    ensures r.Merged? && Truthy(cliBuildCommand) ==> r.config.buildCommand == cliBuildCommand.value
    ensures r.Merged? && !Truthy(cliBuildCommand) ==> Some(r.config.buildCommand) == user.buildCommand
    ensures r.Merged? ==> r.config.publishDir == if user.publishDir.Some? then user.publishDir.value else "publish"
  {
    if user.keys == {} then MissingConfig
    else
      var build := if Truthy(cliBuildCommand) then cliBuildCommand else user.buildCommand;
      if !Truthy(build) then MissingBuildCommand
      else
        Merged(FinalConfig(
          build.value,
          if user.publishDir.Some? then user.publishDir.value else "publish",
          if user.copyConfig.Some? then user.copyConfig.value else [],
          if user.filteredConfig.Some? then user.filteredConfig.value else []))
  }

  /** Where the publish files go: the project root itself, or a directory
      under it. */
  datatype PublishPath = ProjectRoot | PublishDir(dir: string)

  /** `PUBLISH_PATH` of line 297: an empty `publishDir` means the project root. */
  function PublishTarget(c: FinalConfig): PublishPath
  {
    if c.publishDir != "" then PublishDir(c.publishDir) else ProjectRoot
  }

  /** The guard of line 307: the publish directory is removed and created
      afresh only when `publishDir` is not empty. */
  predicate CleansPublishDir(c: FinalConfig) {
    c.publishDir != ""
  }

  /** Cleaning happens exactly when the files do not go to the project root
      as named by an empty `publishDir`. A `publishDir` such as "." that
      resolves to the root is still cleaned (paths are not normalised here). */
  lemma CleanOnlyOutsideRoot(c: FinalConfig)
    ensures CleansPublishDir(c) <==> PublishTarget(c).PublishDir?
    ensures CleansPublishDir(c) ==> PublishTarget(c) == PublishDir(c.publishDir)
  {
  }

  /** For a merged configuration the choice goes back to the user's
      setting: the project root exactly when `publishDir` was set to the
      empty string, and "publish" (cleaned) when it was not set at all. */
  lemma PublishTargetFromUserConfig(cli: Option<string>, user: UserConfig)
    requires Merge(cli, user).Merged?
    ensures PublishTarget(Merge(cli, user).config).ProjectRoot? <==> user.publishDir == Some("")
    ensures !CleansPublishDir(Merge(cli, user).config) <==> user.publishDir == Some("")
    ensures user.publishDir.None? ==>
              PublishTarget(Merge(cli, user).config) == PublishDir("publish")
              && CleansPublishDir(Merge(cli, user).config)
  {
    var c := Merge(cli, user).config;
    CleanOnlyOutsideRoot(c);
  }

  /** A truthy command-line build command wins over the configured one, and
      an empty one (`--build-command ""`) is the same as none. */
  lemma CliBuildCommandOverrides(cli: string, user: UserConfig)
    requires user.keys != {}
    ensures cli != "" ==> Merge(Some(cli), user).Merged?
                          && Merge(Some(cli), user).config.buildCommand == cli
    ensures Merge(Some(""), user) == Merge(None, user)
  {
  }

  /** A configuration object with no keys is refused whatever the command
      line says, even when it gives a build command. */
  lemma EmptyConfigRefused(cli: Option<string>)
    ensures Merge(cli, UserConfig({}, None, None, None, None)) == MissingConfig
  {
  }

  /** The settings that are not given fall back to their defaults: no copy
      rules and no filters. */
  lemma DefaultsWhenUnset(cli: Option<string>, user: UserConfig)
    requires Merge(cli, user).Merged?
    ensures user.copyConfig.None? ==> Merge(cli, user).config.copyConfig == []
    ensures user.filteredConfig.None? ==> Merge(cli, user).config.filteredConfig == []
    ensures user.copyConfig.Some? ==> Merge(cli, user).config.copyConfig == user.copyConfig.value
    ensures user.filteredConfig.Some? ==> Merge(cli, user).config.filteredConfig == user.filteredConfig.value
  {
  }

  /** The configuration `createInitialConfig` writes (lines 13-57), whose
      copy rules are all commented out and whose filter lists are empty. */
  const TemplateConfig: UserConfig := UserConfig(
    {"buildCommand", "publishDir", "copyConfig", "filteredConfig"},
    Some("rollup -c"),
    Some("publish"),
    Some([]),
    Some([FilterRule("scripts", []), FilterRule("devDependencies", [])]))

  /** The template configuration is accepted as it stands: it builds with
      "rollup -c" into a cleaned "publish" directory and copies nothing, and
      its empty filter lists leave every value that is not an array as it
      was (an array under "scripts" or "devDependencies" would still be
      turned into an index-keyed object). */
  lemma TemplateConfigMerges(cli: Option<string>)
    ensures WellFormed(TemplateConfig)
    ensures Merge(cli, TemplateConfig).Merged?
    ensures !Truthy(cli) ==> Merge(cli, TemplateConfig).config.buildCommand == "rollup -c"
    ensures PublishTarget(Merge(cli, TemplateConfig).config) == PublishDir("publish")
    ensures CleansPublishDir(Merge(cli, TemplateConfig).config)
    ensures Merge(cli, TemplateConfig).config.copyConfig == []
    ensures forall k: string, v: Value :: !v.Arr? ==> FilterValue(k, v, Merge(cli, TemplateConfig).config.filteredConfig) == v
  {
    var filters := Merge(cli, TemplateConfig).config.filteredConfig;
    forall k: string, v: Value | !v.Arr? ensures FilterValue(k, v, filters) == v {
      if DropList(filters, k).Some? && v.Obj? {
        assert DropList(filters, k).value == [];
        KeepFieldsNothingDropped(v.fields);
      }
    }
  }

  /** What `createInitialConfig` does: nothing when the file exists already,
      otherwise a write that succeeds or throws. */
  datatype InitOutcome = AlreadyExists | Created | WriteFailed

  /** `createInitialConfig()` (lines 59-75), with the existence check and the
      outcome of the write passed in. An existing configuration is never
      overwritten. */
  function CreateInitialConfig(configExists: bool, writeThrows: bool): (r: InitOutcome)
    ensures configExists ==> r == AlreadyExists
    ensures !configExists ==> (r == Created <==> !writeThrows)
  {
    if configExists then AlreadyExists
    else if writeThrows then WriteFailed
    else Created
  }

  /** `process.exit(success ? 0 : 1)` of line 264. */
  function InitExitCode(r: InitOutcome): int
  {
    if r == Created then 0 else 1
  }

  /** `--init` succeeds exactly when it writes a configuration that did not exist. */
  lemma InitSucceedsOnlyOnFreshWrite(configExists: bool, writeThrows: bool)
    ensures InitExitCode(CreateInitialConfig(configExists, writeThrows)) == 0
        <==> !configExists && !writeThrows
  {
  }
}
