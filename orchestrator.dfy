/**
 * The step's `main`: validate the inputs, choose the eject method, install the
 * CLI, log in, eject, publish, patch the manifest, and log out in a deferred
 * function. External tools and the file system are an oracle (`World`) whose
 * answers are fixed in advance; the run produces the trace of external calls
 * and the final status.
 */
module Orchestrator {
  import opened Wrappers
  import opened Json
  import opened Expo
  import opened Validation
  import opened Manifest

  /** The step inputs, as read from the environment. */
  datatype Config = Config(
    workdir: string,
    expoCLIVersion: string,
    userName: string,
    password: string,
    runPublish: string,
    forceReactNativeVersion: string)

  /** What reading and decoding the manifest file yields. */
  datatype ReadOutcome = ReadFailed | NotJson | Parsed(doc: Json)

  /** The answers of the outside world: each external call's success, fixed in advance. */
  datatype World = World(
    workdirStat: PathStat,
    installOk: bool,
    loginOk: bool,
    ejectOk: bool,
    publishOk: bool,
    logoutOk: bool,
    manifest: ReadOutcome,
    writeOk: bool)

  /** The manifest document the world holds decodes to an object with a `dependencies` object. */
  predicate PatchableManifest(world: World) {
    && world.manifest.Parsed?
    && DecodeObject(world.manifest.doc).Some?
    && HasDependencyObject(DecodeObject(world.manifest.doc).value)
  }

  /**
   * An external invocation, as it appears in the trace. A command is recorded
   * with the way its line is logged before it runs; `LoggedLine` gives the text.
   */
  datatype Call =
    | StatPath(path: string)
    | Exec(command: Command, logged: LogStyle)
    | ReadFile(path: string)
    | WriteFile(path: string, doc: Json)

  /** Why a run failed; each one ends the process with exit code 1. */
  datatype Failure =
    | MissingInput
    | InvalidInput(error: ValidationError)
    | InstallFailed
    | LoginFailed
    | EjectFailed
    | PublishFailed
    | ManifestUnreadable
    | ManifestUnparsable
    | DependenciesInvalid
    | ManifestUnwritable

  datatype Status = Succeeded | Failed(failure: Failure) {
    function ExitCode(): (code: nat)
      ensures code == 0 <==> Succeeded?
    {
      if Succeeded? then 0 else 1
    }
  }

  /**
   * How a fatal error leaves `main`. `OsExit` is the program as written: the
   * error path calls `os.Exit(1)`, which skips deferred functions.
   * `RunDeferred` is the evident intent: deferred functions run first.
   */
  datatype ExitMode = OsExit | RunDeferred

  /** The calls made so far and the failure that stopped the run, if any. */
  datatype Progress = Progress(calls: seq<Call>, failure: Option<Failure>)

  /** A whole run: its trace, its status, and whether the logout failure was reported as a warning. */
  datatype Outcome = Outcome(trace: seq<Call>, status: Status, warned: bool)

  function SessionFor(cfg: Config): Session {
    Session(cfg.expoCLIVersion, MethodFor(cfg.userName), cfg.workdir)
  }

  function InstallCall(s: Session): Call {
    Exec(InstallCommand(s.version), Printf)
  }

  function LoginCall(userName: string, password: string): Call {
    Exec(LoginCommand(userName, password), PrintfRedacting(password))
  }

  function EjectCall(s: Session): Call {
    Exec(EjectCommand(s), Donef)
  }

  function PublishCall(s: Session): Call {
    Exec(PublishCommand(s), Donef)
  }

  const LogoutCall := Exec(LogoutCommand(), Printf)

  /** Reference semantics: the input checks, in the order `main` makes them. */
  function Validate(cfg: Config, world: World): Progress {
    if cfg.expoCLIVersion == "" then Progress([], Some(MissingInput))
    else match ValidateCredentials(cfg.userName, cfg.password)
      case Some(e) => Progress([], Some(InvalidInput(e)))
      case None =>
        var calls := if cfg.workdir == "" then [] else [StatPath(cfg.workdir)];
        match ValidateWorkdir(cfg.workdir, world.workdirStat)
        case Some(e) => Progress(calls, Some(InvalidInput(e)))
        case None => Progress(calls, None)
  }

  /** The fatal steps after validation. */
  datatype Step = Install | Login | Eject | Publish | PatchManifest

  /** The steps before the logout is deferred: install, then login for ExpoKit. */
  function BeforeDefer(cfg: Config): seq<Step> {
    [Install] + (if MethodFor(cfg.userName) == ExpoKit then [Login] else [])
  }

  /** The steps the deferred logout covers: eject, then publish and the patch when asked for. */
  function AfterDefer(cfg: Config): seq<Step> {
    [Eject]
    + (if cfg.runPublish == "yes" then [Publish] else [])
    + (if cfg.forceReactNativeVersion != "" then [PatchManifest] else [])
  }

  /** The manifest patch as one step: read, decode, patch, write. */
  function PatchAttempt(cfg: Config, world: World): Progress {
    var path := ManifestPath(cfg.workdir);
    match world.manifest
    case ReadFailed => Progress([ReadFile(path)], Some(ManifestUnreadable))
    case NotJson => Progress([ReadFile(path)], Some(ManifestUnparsable))
    case Parsed(doc) =>
      match DecodeObject(doc)
      case None => Progress([ReadFile(path)], Some(ManifestUnparsable))
      case Some(packages) =>
        match PatchDependencies(packages, cfg.forceReactNativeVersion)
        case None => Progress([ReadFile(path)], Some(DependenciesInvalid))
        case Some(patched) =>
          Progress([ReadFile(path), WriteFile(path, Object(patched))],
                   if world.writeOk then None else Some(ManifestUnwritable))
  }

  /** One step on its own: the calls it makes and whether it fails. */
  function Attempt(step: Step, cfg: Config, world: World): Progress {
    var s := SessionFor(cfg);
    match step
    case Install => Progress([InstallCall(s)], if world.installOk then None else Some(InstallFailed))
    case Login => Progress([LoginCall(cfg.userName, cfg.password)], if world.loginOk then None else Some(LoginFailed))
    case Eject => Progress([EjectCall(s)], if world.ejectOk then None else Some(EjectFailed))
    case Publish => Progress([PublishCall(s)], if world.publishOk then None else Some(PublishFailed))
    case PatchManifest => PatchAttempt(cfg, world)
  }

  /** Runs the steps in order and stops at the first one that fails. */
  function RunSteps(steps: seq<Step>, cfg: Config, world: World): (p: Progress)
    ensures p.failure.None? <==> forall i :: 0 <= i < |steps| ==> Attempt(steps[i], cfg, world).failure.None?
  {
    if steps == [] then Progress([], None)
    else
      var first := Attempt(steps[0], cfg, world);
      if first.failure.Some? then first
      else
        var rest := RunSteps(steps[1..], cfg, world);
        Progress(first.calls + rest.calls, rest.failure)
  }

  /** Running two step lists in a row is running their concatenation. */
  lemma {:induction false} RunStepsAppend(a: seq<Step>, b: seq<Step>, cfg: Config, world: World)
    ensures RunSteps(a + b, cfg, world) ==
              var first := RunSteps(a, cfg, world);
              if first.failure.Some? then first
              else var rest := RunSteps(b, cfg, world); Progress(first.calls + rest.calls, rest.failure)
    decreases |a|
  {
    if a == [] {
      assert a + b == b;
    } else {
      var ab := a + b;
      assert ab[0] == a[0] && ab[1..] == a[1..] + b;
      RunStepsAppend(a[1..], b, cfg, world);
      var head := Attempt(a[0], cfg, world);
      var tail, rest := RunSteps(a[1..], cfg, world), RunSteps(b, cfg, world);
      if head.failure.None? && tail.failure.None? {
        assert head.calls + tail.calls + rest.calls == head.calls + (tail.calls + rest.calls);
      }
    }
  }

  /** The calls of the deferred logout: only an ExpoKit session has logged in. */
  function DeferredCalls(s: Session): seq<Call> {
    if s.ejectMethod == ExpoKit then [LogoutCall] else []
  }

  /** Reference semantics of a run once the inputs are accepted: the steps before and after the deferral. */
  function SessionSemantics(cfg: Config, world: World, mode: ExitMode): Outcome {
    var before := RunSteps(BeforeDefer(cfg), cfg, world);
    if before.failure.Some? then Outcome(before.calls, Failed(before.failure.value), false)
    else
      var after := RunSteps(AfterDefer(cfg), cfg, world);
      var cleanup := DeferredCalls(SessionFor(cfg));
      var warned := cleanup != [] && !world.logoutOk;
      if after.failure.None? then
        Outcome(before.calls + after.calls + cleanup, Succeeded, warned)
      else if mode == RunDeferred then
        Outcome(before.calls + after.calls + cleanup, Failed(after.failure.value), warned)
      else
        Outcome(before.calls + after.calls, Failed(after.failure.value), false)
  }

  /** Reference semantics of a whole run. */
  function Semantics(cfg: Config, world: World, mode: ExitMode): Outcome {
    var v := Validate(cfg, world);
    if v.failure.Some? then Outcome(v.calls, Failed(v.failure.value), false)
    else
      var s := SessionSemantics(cfg, world, mode);
      Outcome(v.calls + s.trace, s.status, s.warned)
  }

  /**
   * The deferred function: logs out of an ExpoKit session and only warns when
   * that fails. Its middle branch repeats the first condition and is dead.
   */
  method Logout(e: Session, world: World) returns (calls: seq<Call>, warned: bool)
    ensures calls == DeferredCalls(e)
    ensures warned <==> e.ejectMethod == ExpoKit && !world.logoutOk
  {
    calls, warned := [], false;
    if e.ejectMethod == ExpoKit {
      calls := [LogoutCall];
      if !world.logoutOk {
        warned := true;
      }
    } else if e.ejectMethod == ExpoKit {
      assert false;
    } else {
      // not logged in: nothing to do
    }
  }

  /**
   * Pins `react-native` in the manifest: read the file, decode it, update the
   * `dependencies` object in place and write the document back.
   */
  method PatchManifestFile(cfg: Config, world: World) returns (calls: seq<Call>, failure: Option<Failure>)
    ensures Progress(calls, failure) == PatchAttempt(cfg, world)
  {
    var path := ManifestPath(cfg.workdir);
    calls := [ReadFile(path)];
    if world.manifest.ReadFailed? {
      return calls, Some(ManifestUnreadable);
    }
    if world.manifest.NotJson? {
      return calls, Some(ManifestUnparsable);
    }
    var decoded := DecodeObject(world.manifest.doc);
    if decoded.None? {
      return calls, Some(ManifestUnparsable);
    }
    var packages := decoded.value;
    if Dependencies !in packages || !packages[Dependencies].Object? {
      return calls, Some(DependenciesInvalid);
    }
    var deps := packages[Dependencies].fields;
    deps := deps[ReactNative := String(cfg.forceReactNativeVersion)];
    packages := packages[Dependencies := Object(deps)];
    calls := calls + [WriteFile(path, Object(packages))];
    failure := if world.writeOk then None else Some(ManifestUnwritable);
  }

  /** Eject, publish and the manifest patch: the region the deferred logout covers. */
  method EjectPublishPatch(e: Session, cfg: Config, world: World) returns (calls: seq<Call>, failure: Option<Failure>)
    requires e == SessionFor(cfg)
    ensures Progress(calls, failure) == RunSteps(AfterDefer(cfg), cfg, world)
  {
    var publish := if cfg.runPublish == "yes" then [Publish] else [];
    var patch := if cfg.forceReactNativeVersion != "" then [PatchManifest] else [];
    assert AfterDefer(cfg) == ([Eject] + publish) + patch;
    RunStepsAppend([Eject] + publish, patch, cfg, world);
    RunStepsAppend([Eject], publish, cfg, world);
    ghost var head := RunSteps([Eject] + publish, cfg, world);
    assert RunSteps([Eject], cfg, world) == Attempt(Eject, cfg, world);
    assert RunSteps([Publish], cfg, world) == Attempt(Publish, cfg, world);
    assert RunSteps([PatchManifest], cfg, world) == Attempt(PatchManifest, cfg, world);

    calls := [EjectCall(e)];
    if !world.ejectOk {
      assert head == Progress(calls, Some(EjectFailed));
      return calls, Some(EjectFailed);
    }
    if cfg.runPublish == "yes" {
      calls := calls + [PublishCall(e)];
      if !world.publishOk {
        assert head == Progress(calls, Some(PublishFailed));
        return calls, Some(PublishFailed);
      }
    }
    assert head == Progress(calls, None);
    if cfg.forceReactNativeVersion != "" {
      var patchCalls, patchFailure := PatchManifestFile(cfg, world);
      calls := calls + patchCalls;
      if patchFailure.Some? {
        return calls, patchFailure;
      }
    }
    failure := None;
  }

  /** `main`: the whole step, as a sequence of external calls with early exits. */
  method Execute(cfg: Config, world: World, mode: ExitMode) returns (trace: seq<Call>, status: Status, warned: bool)
    ensures Outcome(trace, status, warned) == Semantics(cfg, world, mode)
  {
    trace, warned := [], false;
    // expo_cli_verson is a required input
    if cfg.expoCLIVersion == "" {
      return trace, Failed(MissingInput), warned;
    }
    var credentialError := ValidateCredentials(cfg.userName, cfg.password);
    if credentialError.Some? {
      return trace, Failed(InvalidInput(credentialError.value)), warned;
    }
    if cfg.workdir != "" {
      trace := trace + [StatPath(cfg.workdir)];
    }
    var workdirError := ValidateWorkdir(cfg.workdir, world.workdirStat);
    if workdirError.Some? {
      return trace, Failed(InvalidInput(workdirError.value)), warned;
    }
    assert Validate(cfg, world) == Progress(trace, None);

    var ejectMethod := Plain;
    if cfg.userName != "" {
      ejectMethod := ExpoKit;
    }
    var e := Session(cfg.expoCLIVersion, ejectMethod, cfg.workdir);
    var calls;
    calls, status, warned := RunSession(e, cfg, world, mode);
    trace := trace + calls;
  }

  /** Install, login, then eject, publish and patch under the deferred logout. */
  method RunSession(e: Session, cfg: Config, world: World, mode: ExitMode) returns (trace: seq<Call>, status: Status, warned: bool)
    requires e == SessionFor(cfg)
    ensures Outcome(trace, status, warned) == SessionSemantics(cfg, world, mode)
  {
    ghost var before := RunSteps(BeforeDefer(cfg), cfg, world);
    var login := if e.ejectMethod == ExpoKit then [Login] else [];
    assert BeforeDefer(cfg) == [Install] + login;
    RunStepsAppend([Install], login, cfg, world);
    assert RunSteps([Install], cfg, world) == Attempt(Install, cfg, world);
    assert RunSteps([Login], cfg, world) == Attempt(Login, cfg, world);

    trace, warned := [InstallCall(e)], false;
    if !world.installOk {
      assert before == Progress(trace, Some(InstallFailed));
      return trace, Failed(InstallFailed), warned;
    }

    match e.ejectMethod {
      case ExpoKit =>
        trace := trace + [LoginCall(cfg.userName, cfg.password)];
        if !world.loginOk {
          assert before == Progress(trace, Some(LoginFailed));
          return trace, Failed(LoginFailed), warned;
        }
      case Plain =>
    }
    assert before == Progress(trace, None);

    // the logout is deferred from here on
    var calls, failure := EjectPublishPatch(e, cfg, world);
    trace := trace + calls;
    if failure.Some? {
      status := Failed(failure.value);
      if mode == RunDeferred {
        var cleanup;
        cleanup, warned := Logout(e, world);
        trace := trace + cleanup;
      }
      return;
    }
    var cleanup;
    cleanup, warned := Logout(e, world);
    trace := trace + cleanup;
    status := Succeeded;
  }
}
