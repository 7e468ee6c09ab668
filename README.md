# npm-publish-easier, modelled in Dafny

npm-publish-easier is a command-line helper that prepares an npm package for
publishing. A run reads its command line and merges its configuration
(publish.config.js) with it. It then cleans the publish directory, runs the
build command, reads package.json and copies the configured files. Last, it
decides whether to bump the patch version, writes a filtered package.json
into the publish directory, writes the bumped version back into the source
package.json, and with `-y` packs and publishes.

This project models the decision and transformation logic of that run
(src/index.js) and proves properties of it. The modules are:

- `Text`: what the run needs of JavaScript strings. That is `split` on one
  character, `Number` of a decimal digit string, and `${n}` of a natural
  number.
- `Version`: `incrementVersion`, as a parser and printer of
  `major.minor.patch`, with the round trip proved.
- `CliArgs`: `parseArgs`. It is a method with the source's loop, including
  the index the loop advances by hand at `--build-command`. The method is
  proved equal to a recursive scan, and the scan's properties are proved as
  lemmas: last increment flag wins, the next token is taken verbatim, a
  trailing flag is ignored, unknown tokens are ignored.
- `Config`: the configuration checks and merge of `main`, the choice of
  publish path, the cleaning guard, and `createInitialConfig`.
- `CopyFiles`: the copy loop of `copyFiles`. It is a method proved equal to
  a rule-by-rule specification.
- `Manifest`: the manifest operations of `updatePackageJson`. These are the
  JSON object as a list of properties in insertion order, property reads and
  assignment, object spread, `Object.entries` and the sub-key filter, and
  `JSON.stringify`'s dropping of `undefined`. The source manifest is changed
  in place: a `PackageJson` object whose `version` the method sets.
- `Release`: the increment decision and the `newVersion` variable of
  `main`. It also holds the whole run as a method (`PublishProcess`),
  proved equal to a step-by-step function (`Run`). The run's file system
  and subprocess results are passed in.

The model follows the code as it is written. Two consequences are proved
about it:

- The publish manifest is built as `{ ...packageJson, version: newVersion,
  ...mapped }`. The mapped entries come after the `version` property and
  carry the manifest's own `version` back. So whenever the manifest has a
  `version`, the published manifest keeps the OLD value, while the source
  manifest receives the bumped one. `Manifest.PublishedVersion` states this
  in general, and `Release.YesPublishesOldVersion` and
  `Release.YesRunWithTemplate` state it for a `-y` run.
- When `publishDir` is the empty string, both writes go to the project's own
  package.json. Without a version bump the source manifest is replaced by
  the filtered one. With a bump, the directory that is published holds the
  unfiltered source manifest (`Release.PackedManifestByTarget`).

The tool has no `--clean` flag: `parseArgs` has no such case and the help
text lists none. The model follows the code, so `--clean` is treated like any
unknown token, and the publish directory is cleaned whenever `publishDir` is
not empty.

## Model

| member | source | states |
|---|---|---|
| Text.Split | src/index.js:178 | `split(".")` yields at least one piece and no piece holds the separator |
| Text.JoinSplit | src/index.js:178 | joining the pieces of a split with the separator gives back the string |
| Text.SplitJoin | src/index.js:178 | splitting a join of separator-free pieces gives back the pieces |
| Text.NatToDecimal | src/index.js:179 | `${n}` is a digit string whose decimal value is n and which has no leading zero |
| Version.Parse | src/index.js:178 | a version reads as three numbers exactly when it has at least three pieces and the first three are digit strings |
| Version.ParseFormat | src/index.js:178-179 | reading back `${major}.${minor}.${patch}` gives the same three numbers |
| Version.Increment | src/index.js:177-180 | the result is defined exactly when the input parses, and it reads back as the same major and minor with patch + 1 |
| Version.IncrementChangesVersion | src/index.js:177-180 | a bumped version string always differs from its input |
| Version.IncrementFormatted | src/index.js:177-180 | bumping a canonical version gives the canonical form of the next patch |
| Version.IncrementExampleOneTwoThree | src/index.js:177-180 | "1.2.3" becomes "1.2.4" |
| Version.IncrementExampleCarriesIntoNewDigit | src/index.js:177-180 | "0.0.9" becomes "0.0.10" |
| Version.IncrementDropsLeadingZeros | src/index.js:178-179 | "01.02.03" becomes "1.2.4", as `Number` drops leading zeros |
| Version.IncrementIgnoresExtraPieces | src/index.js:178 | "1.2.3.4" becomes "1.2.4": pieces after the third are ignored |
| Version.IncrementReadsEmptyPieceAsZero | src/index.js:178 | "1..3" becomes "1.0.4", as `Number("")` is 0 |
| Version.IncrementRejectsTwoPieces | src/index.js:178-179 | "1.2" is outside the modelled shape |
| CliArgs.ApplySwitch | src/index.js:117-140 | a token no `case` matches leaves the record unchanged, and no switch touches the build command |
| CliArgs.ParseArgs | src/index.js:106-144 | the loop from index 2, with its in-loop `++i`, computes the recursive scan of the tokens after argv[1]; with no such tokens it returns the initial record |
| CliArgs.ScanConcat | src/index.js:115-141 | scanning a prefix whose every `--build-command` has its argument, then the rest, is scanning the whole |
| CliArgs.ScanKeepsIncrement | src/index.js:122-127 | tokens without an increment flag leave the tri-state unchanged |
| CliArgs.ScanKeepsBuildCommand | src/index.js:128-132 | tokens without `--build-command` leave the build command unchanged |
| CliArgs.SwitchesOnlyTurnOn | src/index.js:118-139 | `-y`, `--help` and `--init` are only ever switched on, and a switch none of whose spellings occurs keeps its value |
| CliArgs.SwitchTakesEffect | src/index.js:118-139 | a `-y`/`--yes`, `-h`/`--help` or `--init` token read as an option sets its field for good |
| CliArgs.LastIncrementFlagWins | src/index.js:122-127 | the last increment flag read as an option decides the tri-state |
| CliArgs.BuildCommandTakesNextToken | src/index.js:128-132 | `--build-command` stores the next token verbatim, even one that looks like a flag, and reading resumes after it |
| CliArgs.TrailingBuildCommandIgnored | src/index.js:128-132 | a `--build-command` with nothing after it changes nothing |
| CliArgs.UnknownTokenIgnored | src/index.js:117-140 | removing a token no `case` matches does not change the result |
| CliArgs.NoTokensGiveDefaults | src/index.js:107-113 | with no tokens after argv[1], every field keeps its initial value (false, null, null, false, false) |
| CliArgs.ParseExample | src/index.js:106-144 | a concrete command line: the later `--no-increment-version` wins and `--init` after `--build-command` is taken as the command |
| Manifest.Get | src/index.js:220 | reading a key the object lacks gives `undefined` |
| Manifest.AssignFacts | src/index.js:244 | after `obj[key] = v`, `key` reads v and every other key reads as before; an existing key keeps its place and a new key goes last |
| Manifest.Stringify | src/index.js:239 | `JSON.stringify` changes nothing in an object without `undefined` values |
| Manifest.IndexEntries | src/index.js:231 | `Object.entries` of an array gives the items keyed by their decimal indices |
| Manifest.KeepFields | src/index.js:231 | the filtered entries are a subsequence of the entries, and an entry is kept exactly when its key is not on the drop list |
| Manifest.KeepFieldsNothingDropped | src/index.js:231 | an empty drop list keeps every entry |
| Manifest.FilterFields | src/index.js:228-235 | the mapped entries are the manifest's keys in order, each with its filtered value |
| Manifest.GetFilterFields | src/index.js:229-234 | reading a key of the mapped entries gives the filtered value of that key |
| Manifest.SpreadAppends | src/index.js:224 | spreading properties with new keys appends them in order |
| Manifest.SpreadCopies | src/index.js:224 | the rest copy `{ ...packageJson }` reproduces the manifest |
| Manifest.SpreadOverSameKeys | src/index.js:225-236 | spreading entries over an object part with the same keys in the same order overwrites that part in place |
| Manifest.PublishObjectWithVersion | src/index.js:225-236 | with a `version` key, the publish object is exactly the mapped entries, whatever `newVersion` is |
| Manifest.PublishObjectWithoutVersion | src/index.js:225-236 | without a `version` key, the publish object is the mapped entries followed by `version: newVersion` |
| Manifest.PublishManifestIsFilteredCopy | src/index.js:224-239 | the written publish manifest is the mapped entries, plus `version` last only when the manifest lacked it and `newVersion` is defined |
| Manifest.PublishManifestFields | src/index.js:228-235 | the publish manifest keeps the manifest's keys in order; a listed property holding an object or array keeps exactly its unlisted sub-keys; every other property is unchanged |
| Manifest.PublishedVersion | src/index.js:224-236 | with an existing `version`, the published version is the original value (filtered like any property, so a string is unchanged); without one it is `newVersion` |
| Manifest.PublishedVersionIsStale | src/index.js:219-248 | a manifest at 1.2.3 bumped to 1.2.4 is published as 1.2.3 while the source is rewritten to 1.2.4 |
| Manifest.SourceRewrite | src/index.js:243-245 | the written-back source manifest has `version` set to the new string, the same keys in the same order, and every other property unchanged |
| Manifest.UpdatePackageJson | src/index.js:219-248 | the method writes the publish manifest, and sets `version` on the object in place and writes it back exactly when the guard of line 243 holds; otherwise the object is untouched |
| CopyFiles.CopyFiles | src/index.js:193-216 | the copy loop, with its `continue` and the rethrow that ends it, performs exactly the rule-by-rule specification |
| CopyFiles.PlanConcat | src/index.js:194-215 | running a concatenation of rules runs the first part and then, unless a copy threw, the second |
| CopyFiles.CopiesComeFromRules | src/index.js:200-214 | every copy comes from a "file" or "dir" rule whose source exists and copies cleanly, and a reported failure is such a rule whose copy throws |
| CopyFiles.MissingSourceSkipped | src/index.js:200-204 | a rule whose source does not exist is skipped |
| CopyFiles.OtherTypeDoesNothing | src/index.js:206-210 | a rule of any type other than "file" or "dir" does nothing |
| CopyFiles.FailureStopsLaterRules | src/index.js:211-214 | the first copy that throws ends the run, and later rules are never looked at |
| CopyFiles.CopyFollowsEarlierCopies | src/index.js:205-210 | a clean copy is performed right after the copies of the rules before it |
| Config.Merge | src/index.js:273-294 | an empty configuration is refused exactly when it has no keys; a missing build command exactly when neither the command-line nor the configured one is truthy; the build command is the command-line one when truthy, else the configured one, and never empty; `publishDir` is the configured value whenever defined, else "publish" |
| Config.CleanOnlyOutsideRoot | src/index.js:297-318 | the directory is cleaned exactly when the publish path is not the project root |
| Config.PublishTargetFromUserConfig | src/index.js:283-318 | after a merge, the root is used, and nothing cleaned, exactly when the user set `publishDir` to ""; an unset `publishDir` publishes into a cleaned "publish" |
| Config.CliBuildCommandOverrides | src/index.js:282 | a non-empty command-line build command wins, and `--build-command ""` is the same as none |
| Config.EmptyConfigRefused | src/index.js:273-278 | a configuration with no keys is refused whatever the command line says |
| Config.DefaultsWhenUnset | src/index.js:284-285 | unset copy rules and filters default to empty, and set ones are used as given |
| Config.TemplateConfigMerges | src/index.js:13-57 | the template configuration is accepted: "rollup -c", a cleaned "publish" directory, no copies, and filters that leave every non-array value unchanged |
| Config.CreateInitialConfig | src/index.js:59-75 | an existing configuration file is never overwritten; otherwise the file is created exactly when the write does not throw |
| Config.InitSucceedsOnlyOnFreshWrite | src/index.js:59-75 | `--init` succeeds exactly when the file did not exist and the write succeeded |
| Release.NewVersion | src/index.js:346-349 | without an increment `newVersion` is the manifest's version; with one, a non-string version throws, and a chosen value reads back as the next patch |
| Release.DecideVersion | src/index.js:334-349 | the step-by-step assignments compute the decision and `newVersion` |
| Release.PublishProcess | src/index.js:250-352 | `main` as a method computes the step-by-step run: help, init, config checks, build, copy, version decision, manifest writes |
| Release.DecisionFollowsLastIncrementFlag | src/index.js:334-337 | the last increment flag decides whether to increment, even with `-y` |
| Release.DecisionWithoutIncrementFlags | src/index.js:338-344 | without increment flags the decision is `-y`, and it is false when no `-y`/`--yes` token occurs |
| Release.NoIncrementKeepsVersion | src/index.js:346-349 | when the decision is false, `newVersion` is the original version and the source manifest is not rewritten |
| Release.RewriteExactlyWhenIncrementing | src/index.js:243-247 | for a well-formed version, the source manifest is rewritten exactly when the decision is to increment, and then holds the bumped version with every other key unchanged |
| Release.NoIncrementVersionNeverRewrites | src/index.js:334-352 | with `--no-increment-version` as the last increment flag the source manifest is never rewritten, even with `-y` |
| Release.YesPublishesOldVersion | src/index.js:224-247 | with `-y`, the source manifest is bumped but the publish manifest keeps the old version |
| Release.PackedManifestByTarget | src/index.js:239-245 | at the project root the second write wins: without a rewrite the source file becomes the filtered manifest, with one the published directory holds the unfiltered rewrite; in a publish directory the filtered manifest is published |
| Release.HelpComesFirst | src/index.js:256-259 | a help flag read as an option ends the run before init and the configuration checks |
| Release.EarlyStopIgnoresManifest | src/index.js:273-331 | a run that stops at the configuration, the build or a copy does not depend on the manifest |
| Release.YesRunWithTemplate | src/index.js:338-363 | a `-y` run with the template configuration cleans "publish", copies nothing, publishes, rewrites the source to the bumped version, and packs a manifest with the old version |

## Left out

- Subprocesses are reduced to outcomes. The build command, `npm pack`, `npm publish` and `rm *.tgz` (src/index.js:183-190, 322, 355-373) are external. The build's failure is an input of the run (`Env.buildThrows`), and publishing is recorded only as a flag of the outcome.
- File system effects are reduced to inputs and returned values. `rmSync`, `mkdirSync`, `copyFileSync`, `cp`, `writeFileSync`, `readFileSync` and `existsSync` are replaced by:
  - the set of copy sources that exist and the set of copy rules whose copy throws, for a reason of the source or the target;
  - the parsed package.json;
  - the configuration file's existence and whether writing it throws;
  - the outcome's record of what would be written.
- Paths are plain strings. `join` and `resolve` normalisation is not modelled, so a `publishDir` such as "." that resolves to the project root is not recognised as the root. The source cleans such a directory at line 309 and so removes the project root; the model records only that "." is cleaned.
- `loadUserConfig` (src/index.js:79-103) is not modelled. The dynamic `import()` of publish.config.js is host behaviour, so the configuration object is an input. A missing or unloadable file yields `{}`, which is the configuration with no keys.
- Configuration values of other types are out of scope: only strings for `buildCommand` and `publishDir`, arrays of rules for `copyConfig`, and arrays of sub-keys for `filteredConfig`. So `publishDir: null`, which JavaScript treats like "", is not modelled. Filter lists that are not arrays, and filter keys inherited from `Object.prototype`, are not modelled either.
- JSON parsing and `JSON.stringify`'s formatting are not modelled. Manifests are values, and numbers and booleans are kept as literal text. Only `JSON.stringify`'s dropping of `undefined` properties is modelled.
- Objects hold their keys in insertion order. JavaScript lists integer-like keys first in ascending order, which the model does not do. Such keys do not occur among a package.json's top-level keys.
- Version.Parse: only pieces made of decimal digits are read; every other piece is left out by choice. JavaScript's `Number` reads some of them as numbers: surrounding whitespace and a leading "+" are accepted (`Number(" 1")` and `Number("+1")` are 1, so `incrementVersion(" 1.2.3")` gives "1.2.4"), as are hexadecimal and exponent forms, while others give NaN. Precision loss beyond 2^53 is not modelled either. Such strings, and versions with fewer than three pieces, are outside the model.
- Version.Increment: returns None for those strings instead of the "NaN" or "undefined" text JavaScript would print.
- Release.NewVersion: reports those strings as `Unmodelled` rather than giving the resulting string.
- Help text, console logging and the `process.exit` plumbing (src/index.js:147-174, 256-278) appear only as outcomes of the run: `ShowedHelp`, `RanInit`, `ConfigRejected`.
- The top-level `catch` that exits with code 1 (src/index.js:376-379) is modelled only as the failing outcomes `BuildFailed`, `CopyFailed` and `VersionThrows`. These other failures that reach it are not modelled, and a run that gets past the copy and version steps always ends in `Prepared`:
  - `mkdirSync` failing while the publish directory is created (line 313);
  - reading or parsing package.json failing (line 327);
  - `join` throwing on a copy rule whose `source` or `target` is not a string (lines 197-198), which ends the run even when the source is missing;
  - `writeFileSync` failing for the publish manifest or the source manifest (lines 239, 245);
  - `npm pack` or `npm publish` failing (lines 358, 363).
- Manifest.PublishManifestIsFilteredCopy and the lemmas built on it assume the manifest came from `JSON.parse`: distinct keys and no `undefined` values.
- rollup.config.js is not part of this model. It is static bundler configuration with no logic.
