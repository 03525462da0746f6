# expo-detach, modelled in Dafny

`expo-detach` is a Bitrise step that ejects an Expo (React Native) project.
Its inputs are a working directory, the Expo CLI version to install, an
optional Expo account (user name and password), whether to publish, and an
optional React Native version to force. It runs in this order:

1. It checks the inputs.
2. It installs `expo-cli` with npm.
3. It logs in to Expo when an account is given, which selects the `expoKit` eject method instead of `plain`.
4. It defers a logout.
5. It ejects the project, publishes it if asked, and optionally rewrites `dependencies["react-native"]` in `package.json`.

Any fatal error is reported and ends the process with exit code 1.

The model covers all of `main.go`:

- **Expo toolchain client** (module `Expo`):
  - the eject method and the command each client operation runs;
  - the line each operation logs before it runs: the command as the command library prints it (`PrintableCommandArgs`, each argument quoted by `strconv.Quote`, module `Quoting`), in one of three `LogStyle`s that `LoggedLine` turns into text;
  - for the login, the logged line after `strings.Replace` has redacted the password (module `Text` models `strings.Replace` with count -1).
- **Input checks** (module `Validation`).
- **`package.json` patch** (module `Manifest`, over the JSON value type of module `Json`).
- **`main` itself** (module `Orchestrator`):
  - The outside world is an oracle `World`: the answer of every external call, fixed in advance.
  - `Execute` is the imperative `main`. It is proved equal to `Semantics`, a step-list reference semantics.
  - A run is recorded as its trace of external calls, its exit status, and whether the logout failure was warned about.
  - `ExitMode` chooses how a fatal error exits. `OsExit` is the code as written: `os.Exit(1)` skips deferred functions. `RunDeferred` is the evident intent: the deferred logout runs on the way out too.
- **Whole-run properties** (module `RunProperties`).
- **Which calls a run can make at all** (module `CallProperties`).
- **Concrete runs** (module `Scenarios`).

The logout's middle branch at main.go:215 repeats the condition of the first branch. `Orchestrator.Logout` keeps it and proves it dead with `assert false`.

## Model

| member | source | states |
|---|---|---|
| Validation.ValidateCredentials | main.go:121-130 | the pair is rejected exactly when one of user name and password is empty; a user name alone is a missing password, a password alone a missing user name |
| Validation.ValidateWorkdir | main.go:132-142 | an empty workdir is always accepted; otherwise it is accepted exactly when the path exists, and a failed existence check and a missing path are distinct errors |
| Expo.MethodFor | main.go:160-172 | the eject method is expoKit exactly when a user name is given, plain exactly when it is not |
| Expo.WorkingDir | main.go:93-95 | a command gets a working directory exactly when one is configured, and it is that directory |
| Expo.InstallCommand | main.go:45-51 | `npm install -g <package>` with no working directory; the package is plain `expo-cli` exactly when the version is "latest" |
| Expo.InstallArgs | main.go:45-51 | appending the package to `install -g` yields the install command's arguments; off "latest" the package is `expo-cli@<version>` |
| Expo.InstallRoundTrip | main.go:45-51 | the version can be read back from the install command: the install command loses nothing |
| Expo.EjectCommand | main.go:87-95 | `expo` with four arguments, the first two `eject --non-interactive`, run in the configured working directory, if any |
| Expo.EjectRoundTrip | main.go:87-89 | the eject method can be read back from the eject command's arguments |
| Expo.PublishCommand | main.go:101-109 | exactly `expo publish --non-interactive`, run in the configured working directory, if any |
| Expo.LoginCommand | main.go:62-65 | `expo` with six arguments and no working directory; the fourth is the user name and the sixth the password, as given |
| Expo.LogoutCommand | main.go:76-78 | `expo logout --non-interactive` with no working directory |
| Expo.PrintableRoundTrip | main.go:57 | the printed command starts with the program, and the arguments can be read back from the rest of it: printing a command loses nothing |
| Expo.ReadArgsRoundTrip | main.go:57 | reading the quoted arguments back gives exactly the arguments printed |
| Expo.QuotedArgsAppend | main.go:69 | printing two argument lists one after the other is printing their concatenation |
| Quoting.Escaped | main.go:69 | a character is written as itself exactly when it is printable and neither a quote nor a backslash; otherwise it becomes an escape of two or more characters |
| Quoting.EscapeIsIdentityIff | main.go:69 | quoting leaves an argument's text unchanged exactly when no character of it needs escaping |
| Quoting.ReadQuotedRoundTrip | main.go:69 | an argument as quoting writes it reads back as that argument, and reading resumes right after its closing quote |
| Quoting.EscapeLacks | main.go:69 | a character that escaping never writes appears in a quoted argument only where it is in the argument |
| Expo.LoginLogLine | main.go:69-71 | every character of the logged login line comes from the printed command or from the marker `[REDACTED]` |
| Expo.LoginLineLayout | main.go:62-69 | the printed login command is the fixed text and user name, then the password as quoting escapes it, in quotes at the very end |
| Expo.LoginLinePrefixLacks | main.go:62-69 | a character that is not in the fixed arguments, not in the user name, and not written by escaping is not in the printed command before the password |
| Expo.LoginLogLineRedactsArgument | main.go:62-71 | when the password needs no escaping and does not occur in the printed command before its own argument, the logged line is the command with that argument replaced by `[REDACTED]` |
| Expo.LoginLogLineOfFreshPassword | main.go:62-71 | the same conclusion for a password that needs no escaping and whose first character does not occur before the argument |
| Expo.LoginLogLineHidesPassword | main.go:69-71 | a non-empty password sharing no character with `[REDACTED]` never appears verbatim in the logged line, wherever else it occurs (it may still appear escaped, see Findings) |
| Expo.LoginLogLineCanShowPassword | main.go:69-71 | redaction does not hide every password: the password "D" still shows in the logged line, because the marker itself contains it |
| Expo.LoginLogLineLeaksEscapedPassword | main.go:62-71 | as written, the password `z"z` is printed as `z\"z`, the replacement finds nothing, and the logged line is the whole unredacted command |
| Expo.RedactedLoginLogLineHidesPassword | main.go:62-71 | printing the command with the marker in place of the password gives the fixed text, the user name and the quoted marker, the same line for every password |
| Expo.RedactionsAgreeOnPlainPasswords | main.go:62-71 | for a password that needs no escaping and does not occur earlier, the line as written and the corrected line are the same |
| Text.ReplaceAll | main.go:70 | a replacement as long as the pattern keeps the length of the text |
| Text.ReplaceAllDrawsFrom | main.go:70 | every character of the result is a character of the text or of the replacement |
| Text.ReplaceAllWithoutOccurrence | main.go:70 | replacing a non-empty pattern that does not occur leaves the text unchanged |
| Text.ReplaceAllEmptyPattern | main.go:70 | replacing an empty pattern gives one more copy of the replacement than the text has characters, with the characters of the text, in order, one between each two copies |
| Text.ReplaceAllSkipsPrefix | main.go:70 | a prefix where no match starts is copied unchanged and the rest is replaced on its own |
| Text.ReplaceAllAtStart | main.go:70 | a match at the start is replaced and the scan resumes after it |
| Text.ReplaceAllRemovesPattern | main.go:70 | when the replacement is non-empty and shares no character with the pattern, no occurrence of the pattern is left |
| Manifest.DecodeObject | main.go:246-249 | decoding into a generic object succeeds exactly for an object or `null`; an object yields its fields and `null` yields no fields |
| Manifest.PatchDependencies | main.go:251-257 | the patch fails exactly when `dependencies` is missing or not an object; otherwise the result keeps every top-level key and value except `dependencies`, and in it sets `react-native` to the version and keeps every other entry |
| Manifest.PatchedAsIsUnique | main.go:251-257 | that description of the patched document admits exactly one document |
| Manifest.PatchIsIdempotent | main.go:256-257 | patching a patched document again changes nothing |
| Orchestrator.Status.ExitCode | main.go:115-119 | the exit code is 0 exactly for a successful run |
| Orchestrator.RunSteps | main.go:180-267 | running the steps ends without failure exactly when every step on its own succeeds |
| Orchestrator.RunStepsAppend | main.go:180-267 | running two step lists one after the other is running their concatenation |
| Orchestrator.Logout | main.go:205-221 | the deferred function logs out exactly for an expoKit session, and warns exactly when that logout fails |
| Orchestrator.PatchManifestFile | main.go:240-267 | the in-place update of `dependencies` makes the calls, and fails in the way, the patch step of the reference semantics prescribes |
| Orchestrator.EjectPublishPatch | main.go:223-267 | eject, then publish if asked, then the patch if asked, stopping at the first failure, as the step list prescribes |
| Orchestrator.RunSession | main.go:174-221 | install, login for expoKit, the deferred logout and the rest of the session, with the logout on a fatal error only when deferred functions run |
| Orchestrator.Execute | main.go:144-271 | the whole run makes exactly the calls, ends with exactly the status, and warns exactly when the reference semantics says so |
| RunProperties.BeforeDeferCalls | main.go:180-203 | install, then login for expoKit: the calls made and the failure, in closed form |
| RunProperties.AfterDeferCalls | main.go:223-267 | eject, publish and patch: the calls made and the first failure, in closed form |
| RunProperties.ExitsCleanlyIff | main.go:144-271 | the step exits with 0 exactly when every check and step its inputs call for succeeds; neither the logout nor the exit mode affects the status |
| RunProperties.PatchAttemptSucceeds | main.go:240-267 | a patch that succeeds reads the manifest and writes the patched document back to the same path |
| RunProperties.SuccessfulRunTrace | main.go:144-271 | a fully successful run makes exactly these calls, in order: workdir check, install, login, eject, publish, manifest read and write, logout |
| RunProperties.SuccessfulSession | main.go:174-267 | the session part of that successful trace, and a warning exactly when an expoKit logout fails |
| RunProperties.AsWrittenLogoutOnlyOnSuccess | main.go:115-119 | as written, the logout is in the trace exactly when the run succeeded with an account |
| RunProperties.DeferredLogoutAfterLogin | main.go:205-221 | when deferred functions run, the session is logged out exactly when a login succeeded, and the logout is then the last call |
| RunProperties.LogoutFailureOnlyWarns | main.go:211-214 | a failing logout changes neither the calls nor the exit status, and it is warned about exactly when a logout was attempted and failed |
| RunProperties.ValidationFailsAtLastCall | main.go:153-158 | failed input checks make no call, except a failed workdir check, which ends after checking that path |
| RunProperties.StepsFailAtLastCall | main.go:180-267 | a failing list of steps ends with the call of the step that failed |
| RunProperties.AsWrittenFailureEndsTheRun | main.go:115-119 | as written, a fatal error ends the run at the call that failed; the trace is empty only for a missing input or incomplete credentials |
| CallProperties.TraceCallsExpected | main.go:144-271 | every call a run makes is one of the calls its inputs allow |
| CallProperties.ExpoCommandsAreNonInteractive | main.go:62-113 | every expo command passes `--non-interactive` right after the subcommand |
| CallProperties.OnlyEjectAndPublishUseWorkdir | main.go:87-113 | only eject and publish run in a directory of their own, only when a workdir is configured, and it is that workdir |
| CallProperties.LoginUsesConfiguredCredentials | main.go:194-199 | a login runs only with both credentials given; the CLI gets the real password, and the line logged is the printed command after replacing the password with `[REDACTED]` |
| CallProperties.ManifestTouchedOnlyWhenForced | main.go:240-267 | `package.json` is read or written only when a React Native version is forced; what is written is exactly the patched manifest |
| Scenarios.PlainEjectWithDefaults | main.go:144-271 | without credentials and with "latest", the run installs `expo-cli` and ejects plain in the current directory, and nothing else |
| Scenarios.UserNameWithoutPassword | main.go:153-155 | a user name without a password is rejected before any call |
| Scenarios.AsWrittenSkipsLogoutOnFailure | main.go:228-230 | as written, a failing eject after a login ends the run with no logout |
| Scenarios.DeferredLogoutOnFailure | main.go:205-221 | with deferred functions run, the same run logs out after the failing eject |
| Scenarios.SecretPasswordIsRedacted | main.go:62-71 | for any non-empty user name without an `s`, the password "s3cret" reaches the CLI unchanged, and the login is logged as the fixed text and user name followed by `"[REDACTED]"` |
| Scenarios.ForcedReactNativeVersion | main.go:251-257 | forcing 0.66.0 on a manifest with react-native 0.64.0 and lodash rewrites only react-native |
| Scenarios.ManifestWithoutDependencies | main.go:251-254 | a manifest whose `dependencies` is not an object cannot be patched |

## Left out

- Process I/O is not modelled. Command output goes to stdout and stderr, and external tools and the file system answer through the `World` oracle. The run is recorded as the trace of calls made.
- Log messages other than the command lines are not modelled. This covers `log.Infof`/`Printf`/`Warnf` text, `fmt.Println`, the error text passed to `failf`, and `stepconf.Print`. Only the warning on a failed logout is recorded, as a flag.
- Input parsing (`stepconf.Parse`) is not modelled beyond the `required` tag on `expo_cli_verson`. That tag becomes the `MissingInput` failure. The other inputs are taken as given strings.
- The command library's `PrintableCommandArgs` and Go's `strconv.Quote` are not part of this model's sources. They are modelled from their documented behaviour: the program, then for each argument a space and the argument in double quotes, with `"` and `\` behind a backslash, the seven control characters with a letter escape as that escape, and the other ASCII control characters as `\x` and two hexadecimal digits.
- Quoting.Escaped, Quoting.PrintedAsIs: every character beyond ASCII is treated as printed unchanged. Go writes `\u` escapes for non-ASCII characters that `unicode.IsPrint` rejects (U+0085, U+00A0 and others); Unicode's table of printable characters is not modelled.
- Expo.LoginLogLineRedactsArgument, Expo.LoginLogLineOfFreshPassword, Expo.RedactionsAgreeOnPlainPasswords: these hold only for passwords that need no escaping. A password with a quote, a backslash or a control character is logged escaped and unredacted (see Findings).
- Expo.LoggedLine: the line is passed to `log.Printf` or `log.Donef` as the format string (main.go:57, 71, 82, 97, 111). A `%` directive in a user name, password or version is interpreted by the logger (`%d` prints `%!d(MISSING)`); this formatting is not modelled, and neither is the logger's timestamp or colour.
- Manifest.ManifestPath: models `filepath.Join(workdir, "package.json")` as plain concatenation with "/". Path cleaning (trailing slashes, `.` and `..`) is not modelled.
- Json.Number: numbers are kept as uninterpreted literals. The program decodes them to float64 and writes them back in Go's format, so `1.0` becomes `1`, `1e3` becomes `1000`, and integers beyond 2^53 are rounded. Every "unchanged" in the manifest properties holds for the decoded value, not for the text of `package.json`.
- JSON text is not modelled. Reading yields a document or a parse failure from the oracle. Serialisation (`json.MarshalIndent`, key order, indentation) is not modelled. Marshalling a decoded document cannot fail, so that failure path is not modelled either.
- Concurrency and timing are not part of the step. The deferred logout is modelled by its position in the trace.

## Findings

| source | as written | input that shows it | evidently intended | confidence | as-written member | corrected member |
|---|---|---|---|---|---|---|
| main.go:62-71 | `strings.Replace` looks for the raw password in the line `PrintableCommandArgs` produced, where `strconv.Quote` has already escaped it | a user name without `z` and the password `z"z`: the line holds `z\"z`, the password is not found, and the whole command with the password is logged | the password argument is redacted whatever it holds | not executed | Expo.LoginLogLineLeaksEscapedPassword | Expo.RedactedLoginLogLineHidesPassword |
| main.go:115-119 | `failf` calls `os.Exit(1)`. This skips the deferred logout at main.go:207-221, despite the comment at main.go:206 that it runs "even if it fails" | a user name and password given, install and login succeed, and eject fails: the run ends after the eject with the account still logged in | every fatal error after the login logs out before exiting | not executed | Scenarios.AsWrittenSkipsLogoutOnFailure | RunProperties.DeferredLogoutAfterLogin |

For the first row, the trace records the login in the style as written (`PrintfRedacting`); `Expo.RedactedLoginLogLine` is the corrected line, and `Expo.RedactionsAgreeOnPlainPasswords` shows that the two agree on passwords that need no escaping.

For the second row, the corrected behaviour is `Orchestrator.Execute` run with `RunDeferred`. `Scenarios.DeferredLogoutOnFailure` shows the same input logging out. Every other property holds in both modes, or is stated for the mode it concerns.
