/**
 * What a run of the step promises, proved about the reference semantics that
 * `Orchestrator.Execute` implements.
 */
module RunProperties {
  import opened Wrappers
  import opened Json
  import opened Expo
  import opened Validation
  import opened Manifest
  import opened Orchestrator

  /** The calls of the install and login steps, closed form. */
  lemma BeforeDeferCalls(cfg: Config, world: World)
    ensures var s := SessionFor(cfg);
            RunSteps(BeforeDefer(cfg), cfg, world) ==
              if !world.installOk then Progress([InstallCall(s)], Some(InstallFailed))
              else if cfg.userName == "" then Progress([InstallCall(s)], None)
              else Progress([InstallCall(s), LoginCall(cfg.userName, cfg.password)],
                            if world.loginOk then None else Some(LoginFailed))
  {
    var install := Attempt(Install, cfg, world);
    if cfg.userName == "" {
      assert BeforeDefer(cfg) == [Install];
      assert RunSteps([Install], cfg, world) == install by {
        assert RunSteps([Install][1..], cfg, world) == Progress([], None);
        assert install.calls + [] == install.calls;
      }
    } else {
      var login := Attempt(Login, cfg, world);
      assert BeforeDefer(cfg) == [Install, Login];
      assert RunSteps([Login], cfg, world) == login by {
        assert RunSteps([Login][1..], cfg, world) == Progress([], None);
        assert login.calls + [] == login.calls;
      }
      assert [Install, Login][1..] == [Login];
      assert install.failure.None? ==> RunSteps([Install, Login], cfg, world) == Progress(install.calls + login.calls, login.failure);
    }
  }

  /** The calls of the eject, publish and patch steps, closed form. */
  lemma AfterDeferCalls(cfg: Config, world: World)
    ensures var s := SessionFor(cfg);
            var eject := [EjectCall(s)];
            var publish := if cfg.runPublish == "yes" then [PublishCall(s)] else [];
            var patch := PatchAttempt(cfg, world);
            RunSteps(AfterDefer(cfg), cfg, world) ==
              if !world.ejectOk then Progress(eject, Some(EjectFailed))
              else if cfg.runPublish == "yes" && !world.publishOk then Progress(eject + publish, Some(PublishFailed))
              else if cfg.forceReactNativeVersion == "" then Progress(eject + publish, None)
              else Progress(eject + publish + patch.calls, patch.failure)
  {
    var publish := if cfg.runPublish == "yes" then [Publish] else [];
    var patch := if cfg.forceReactNativeVersion != "" then [PatchManifest] else [];
    assert AfterDefer(cfg) == ([Eject] + publish) + patch;
    RunStepsAppend([Eject] + publish, patch, cfg, world);
    RunStepsAppend([Eject], publish, cfg, world);
    assert RunSteps([Eject], cfg, world) == Attempt(Eject, cfg, world);
    assert RunSteps([Publish], cfg, world) == Attempt(Publish, cfg, world);
    assert RunSteps([PatchManifest], cfg, world) == Attempt(PatchManifest, cfg, world);
  }

  /** The manifest can be read, decoded, patched and written back. */
  predicate ManifestPatchSucceeds(cfg: Config, world: World) {
    PatchableManifest(world) && world.writeOk
  }

  /** Every fatal check and step the configuration calls for succeeds in this world. */
  predicate EveryStepSucceeds(cfg: Config, world: World) {
    && cfg.expoCLIVersion != ""
    && (cfg.userName == "") == (cfg.password == "")
    && (cfg.workdir == "" || world.workdirStat == PathExists)
    && world.installOk
    && (cfg.userName != "" ==> world.loginOk)
    && world.ejectOk
    && (cfg.runPublish == "yes" ==> world.publishOk)
    && (cfg.forceReactNativeVersion != "" ==> ManifestPatchSucceeds(cfg, world))
  }

  /**
   * The step exits with code 0 exactly when every check and step it calls for
   * succeeds; the logout and the way a fatal error exits play no part.
   */
  lemma ExitsCleanlyIff(cfg: Config, world: World, mode: ExitMode)
    ensures Semantics(cfg, world, mode).status.ExitCode() == 0 <==> EveryStepSucceeds(cfg, world)
    ensures Semantics(cfg, world, mode).status == Semantics(cfg, world, OsExit).status
  {
    BeforeDeferCalls(cfg, world);
    AfterDeferCalls(cfg, world);
  }

  /** The manifest read and the patched manifest written back, when patching succeeds. */
  function PatchedManifestCalls(cfg: Config, world: World): seq<Call>
    requires ManifestPatchSucceeds(cfg, world)
  {
    var path := ManifestPath(cfg.workdir);
    var packages := DecodeObject(world.manifest.doc).value;
    [ReadFile(path), WriteFile(path, Object(PatchDependencies(packages, cfg.forceReactNativeVersion).value))]
  }

  /** Patching that succeeds reads the manifest, then writes the patched document to the same path. */
  lemma PatchAttemptSucceeds(cfg: Config, world: World)
    requires ManifestPatchSucceeds(cfg, world)
    ensures PatchAttempt(cfg, world) == Progress(PatchedManifestCalls(cfg, world), None)
  {
  }

  /**
   * The calls a fully successful session makes, in order: install, login for
   * ExpoKit, eject, publish if asked, the manifest patch if asked, and the
   * deferred logout for ExpoKit.
   */
  function SuccessfulSessionTrace(cfg: Config, world: World): seq<Call>
    requires ManifestPatchSucceeds(cfg, world) || cfg.forceReactNativeVersion == ""
  {
    var s := SessionFor(cfg);
    ([InstallCall(s)] + (if cfg.userName != "" then [LoginCall(cfg.userName, cfg.password)] else []))
    + ([EjectCall(s)]
       + (if cfg.runPublish == "yes" then [PublishCall(s)] else [])
       + (if cfg.forceReactNativeVersion != "" then PatchedManifestCalls(cfg, world) else []))
    + (if cfg.userName != "" then [LogoutCall] else [])
  }

  /** The calls a fully successful run makes: the workdir check, then the session. */
  function SuccessfulTrace(cfg: Config, world: World): seq<Call>
    requires ManifestPatchSucceeds(cfg, world) || cfg.forceReactNativeVersion == ""
  {
    (if cfg.workdir != "" then [StatPath(cfg.workdir)] else []) + SuccessfulSessionTrace(cfg, world)
  }

  /** A call that no step makes is not among the calls of a list of steps. */
  lemma {:induction false} StepsAvoid(steps: seq<Step>, cfg: Config, world: World, c: Call)
    requires forall i :: 0 <= i < |steps| ==> c !in Attempt(steps[i], cfg, world).calls
    ensures c !in RunSteps(steps, cfg, world).calls
    decreases |steps|
  {
    if steps != [] {
      StepsAvoid(steps[1..], cfg, world, c);
    }
  }

  /** No step logs out: only the deferred function does. */
  lemma LogoutIsNoStep(steps: seq<Step>, cfg: Config, world: World)
    ensures LogoutCall !in RunSteps(steps, cfg, world).calls
  {
    forall i | 0 <= i < |steps| ensures LogoutCall !in Attempt(steps[i], cfg, world).calls {
      assert LogoutCommand().args[0] == "logout";
    }
    StepsAvoid(steps, cfg, world, LogoutCall);
  }

  /** Only the login step logs in, and it is not among the deferred region's steps. */
  lemma NoLoginAfterDefer(cfg: Config, world: World, userName: string, password: string)
    ensures LoginCall(userName, password) !in RunSteps(AfterDefer(cfg), cfg, world).calls
  {
    var steps := AfterDefer(cfg);
    forall i | 0 <= i < |steps| ensures LoginCall(userName, password) !in Attempt(steps[i], cfg, world).calls {
      assert steps[i] != Login;
    }
    StepsAvoid(steps, cfg, world, LoginCall(userName, password));
  }

  /** The workdir check makes no Expo call. */
  lemma ValidationCallsNoTool(cfg: Config, world: World)
    ensures forall c :: c in Validate(cfg, world).calls ==> c == StatPath(cfg.workdir)
  {
  }

  /**
   * A successful run checks the working directory, installs the CLI, logs in
   * for ExpoKit, ejects, publishes if asked, patches the manifest if asked and
   * finally logs out for ExpoKit, in that order and nothing else.
   */
  lemma SuccessfulRunTrace(cfg: Config, world: World, mode: ExitMode)
    requires EveryStepSucceeds(cfg, world)
    ensures Semantics(cfg, world, mode).status == Succeeded
    ensures Semantics(cfg, world, mode).trace == SuccessfulTrace(cfg, world)
  {
    SuccessfulSession(cfg, world, mode);
    assert Validate(cfg, world) == Progress(if cfg.workdir != "" then [StatPath(cfg.workdir)] else [], None);
  }

  /** The session part of a fully successful run. */
  lemma SuccessfulSession(cfg: Config, world: World, mode: ExitMode)
    requires EveryStepSucceeds(cfg, world)
    ensures SessionSemantics(cfg, world, mode) ==
              Outcome(SuccessfulSessionTrace(cfg, world), Succeeded, cfg.userName != "" && !world.logoutOk)
  {
    SuccessfulBefore(cfg, world);
    SuccessfulAfter(cfg, world);
  }

  /** With every step succeeding, the steps before the defer install and, for ExpoKit, log in. */
  lemma SuccessfulBefore(cfg: Config, world: World)
    requires EveryStepSucceeds(cfg, world)
    ensures RunSteps(BeforeDefer(cfg), cfg, world) ==
              Progress([InstallCall(SessionFor(cfg))]
                       + (if cfg.userName != "" then [LoginCall(cfg.userName, cfg.password)] else []), None)
  {
    BeforeDeferCalls(cfg, world);
  }

  /** With every step succeeding, the deferred region ejects, publishes if asked and patches if asked. */
  lemma SuccessfulAfter(cfg: Config, world: World)
    requires EveryStepSucceeds(cfg, world)
    ensures var s := SessionFor(cfg);
            RunSteps(AfterDefer(cfg), cfg, world) ==
              Progress([EjectCall(s)]
                       + (if cfg.runPublish == "yes" then [PublishCall(s)] else [])
                       + (if cfg.forceReactNativeVersion != "" then PatchedManifestCalls(cfg, world) else []), None)
  {
    AfterDeferCalls(cfg, world);
    if cfg.forceReactNativeVersion != "" {
      PatchAttemptSucceeds(cfg, world);
    }
  }

  /**
   * As written, the deferred logout runs only when `main` returns normally:
   * the logout is in the trace exactly when the run succeeded with ExpoKit.
   */
  lemma AsWrittenLogoutOnlyOnSuccess(cfg: Config, world: World)
    ensures var o := Semantics(cfg, world, OsExit);
            LogoutCall in o.trace <==> o.status == Succeeded && cfg.userName != ""
  {
    ValidationCallsNoTool(cfg, world);
    LogoutIsNoStep(BeforeDefer(cfg), cfg, world);
    LogoutIsNoStep(AfterDefer(cfg), cfg, world);
  }

  /**
   * With deferred functions run on the way out, every run that got past the
   * login logs out, and the logout is the last call; runs that never logged in
   * never log out.
   */
  lemma DeferredLogoutAfterLogin(cfg: Config, world: World)
    ensures var o := Semantics(cfg, world, RunDeferred);
            && (LogoutCall in o.trace <==> LoginCall(cfg.userName, cfg.password) in o.trace && world.loginOk)
            && (LogoutCall in o.trace ==> o.trace[|o.trace| - 1] == LogoutCall)
  {
    var v := Validate(cfg, world);
    var o := Semantics(cfg, world, RunDeferred);
    assert LogoutCall !in v.calls && LoginCall(cfg.userName, cfg.password) !in v.calls by {
      ValidationCallsNoTool(cfg, world);
    }
    if v.failure.None? {
      var session := SessionSemantics(cfg, world, RunDeferred);
      assert o.trace == v.calls + session.trace;
      DeferredSessionLogout(cfg, world);
      if LogoutCall in session.trace {
        LastOfAppend(v.calls, session.trace);
      }
    } else {
      assert o.trace == v.calls;
    }
  }

  /** The session part of DeferredLogoutAfterLogin. */
  lemma DeferredSessionLogout(cfg: Config, world: World)
    ensures var o := SessionSemantics(cfg, world, RunDeferred);
            && (LogoutCall in o.trace <==> LoginCall(cfg.userName, cfg.password) in o.trace && world.loginOk)
            && (LogoutCall in o.trace ==> o.trace != [] && o.trace[|o.trace| - 1] == LogoutCall)
  {
    var before := RunSteps(BeforeDefer(cfg), cfg, world);
    LogoutIsNoStep(BeforeDefer(cfg), cfg, world);
    LoginBeforeDefer(cfg, world);
    if before.failure.None? {
      var after := RunSteps(AfterDefer(cfg), cfg, world);
      LogoutIsNoStep(AfterDefer(cfg), cfg, world);
      NoLoginAfterDefer(cfg, world, cfg.userName, cfg.password);
      var cleanup := DeferredCalls(SessionFor(cfg));
      assert SessionSemantics(cfg, world, RunDeferred).trace == (before.calls + after.calls) + cleanup;
    }
  }

  /** The login is among the calls before the defer exactly when it is attempted, and then decides their success. */
  lemma LoginBeforeDefer(cfg: Config, world: World)
    ensures var before := RunSteps(BeforeDefer(cfg), cfg, world);
            && (LoginCall(cfg.userName, cfg.password) in before.calls <==> cfg.userName != "" && world.installOk)
            && (before.failure.None? <==> world.installOk && (cfg.userName != "" ==> world.loginOk))
  {
    BeforeDeferCalls(cfg, world);
    assert InstallCall(SessionFor(cfg)) != LoginCall(cfg.userName, cfg.password);
  }

  /** A failing logout is reported as a warning and changes neither the calls nor the status. */
  lemma LogoutFailureOnlyWarns(cfg: Config, world: World, mode: ExitMode)
    ensures var o, o' := Semantics(cfg, world, mode), Semantics(cfg, world.(logoutOk := true), mode);
            && o.trace == o'.trace && o.status == o'.status
            && (o.warned <==> LogoutCall in o.trace && !world.logoutOk)
  {
    var world' := world.(logoutOk := true);
    assert Validate(cfg, world) == Validate(cfg, world');
    forall steps: seq<Step> ensures RunSteps(steps, cfg, world) == RunSteps(steps, cfg, world') {
      LogoutOkIrrelevant(steps, cfg, world);
    }
    ValidationCallsNoTool(cfg, world);
    LogoutIsNoStep(BeforeDefer(cfg), cfg, world);
    LogoutIsNoStep(AfterDefer(cfg), cfg, world);
  }

  /** The steps never consult the logout's outcome. */
  lemma {:induction false} LogoutOkIrrelevant(steps: seq<Step>, cfg: Config, world: World)
    ensures RunSteps(steps, cfg, world) == RunSteps(steps, cfg, world.(logoutOk := true))
    decreases |steps|
  {
    if steps != [] {
      assert Attempt(steps[0], cfg, world) == Attempt(steps[0], cfg, world.(logoutOk := true));
      LogoutOkIrrelevant(steps[1..], cfg, world);
    }
  }

  /** The call a failure is reported after: the check or step that failed. */
  ghost predicate FailedAt(f: Failure, cfg: Config, c: Call) {
    var s := SessionFor(cfg);
    var path := ManifestPath(cfg.workdir);
    match f
    case MissingInput => false
    case InvalidInput(e) => c == StatPath(cfg.workdir) && (e == WorkdirNotFound || e == WorkdirNotChecked)
    case InstallFailed => c == InstallCall(s)
    case LoginFailed => c == LoginCall(cfg.userName, cfg.password)
    case EjectFailed => c == EjectCall(s)
    case PublishFailed => c == PublishCall(s)
    case ManifestUnreadable => c == ReadFile(path)
    case ManifestUnparsable => c == ReadFile(path)
    case DependenciesInvalid => c == ReadFile(path)
    case ManifestUnwritable => c.WriteFile? && c.path == path
  }

  /** A step that fails does so at its last call. */
  lemma AttemptFailsAtLastCall(step: Step, cfg: Config, world: World)
    requires Attempt(step, cfg, world).failure.Some?
    ensures var a := Attempt(step, cfg, world);
            a.calls != [] && FailedAt(a.failure.value, cfg, a.calls[|a.calls| - 1])
  {
  }

  /** A list of steps that fails ends with the failing step's last call. */
  lemma {:induction false} StepsFailAtLastCall(steps: seq<Step>, cfg: Config, world: World)
    requires RunSteps(steps, cfg, world).failure.Some?
    ensures var p := RunSteps(steps, cfg, world);
            p.calls != [] && FailedAt(p.failure.value, cfg, p.calls[|p.calls| - 1])
    decreases |steps|
  {
    if Attempt(steps[0], cfg, world).failure.Some? {
      FirstStepFails(steps, cfg, world);
    } else {
      StepsFailAtLastCall(steps[1..], cfg, world);
      FailureAfterFirstStep(steps, cfg, world);
      CarryFailedAt(RunSteps(steps, cfg, world), RunSteps(steps[1..], cfg, world), cfg);
    }
  }

  /** When the first step fails, the steps end where it failed. */
  lemma FirstStepFails(steps: seq<Step>, cfg: Config, world: World)
    requires steps != [] && Attempt(steps[0], cfg, world).failure.Some?
    ensures var p := RunSteps(steps, cfg, world);
            p.failure.Some? && p.calls != [] && FailedAt(p.failure.value, cfg, p.calls[|p.calls| - 1])
  {
    var first := Attempt(steps[0], cfg, world);
    AttemptFailsAtLastCall(steps[0], cfg, world);
    assert RunSteps(steps, cfg, world) == first;
    CarryFailedAt(RunSteps(steps, cfg, world), first, cfg);
  }

  /** Two runs that fail in the same way at the same last call agree on where they failed. */
  lemma CarryFailedAt(p: Progress, q: Progress, cfg: Config)
    requires q.failure.Some? && q.calls != [] && FailedAt(q.failure.value, cfg, q.calls[|q.calls| - 1])
    requires p.failure == q.failure && p.calls != [] && p.calls[|p.calls| - 1] == q.calls[|q.calls| - 1]
    ensures FailedAt(p.failure.value, cfg, p.calls[|p.calls| - 1])
  {
  }

  /** When the first step succeeds, the steps fail as the remaining ones do, ending with the same call. */
  lemma FailureAfterFirstStep(steps: seq<Step>, cfg: Config, world: World)
    requires steps != [] && Attempt(steps[0], cfg, world).failure.None?
    requires RunSteps(steps[1..], cfg, world).failure.Some?
    requires RunSteps(steps[1..], cfg, world).calls != []
    ensures var p, rest := RunSteps(steps, cfg, world), RunSteps(steps[1..], cfg, world);
            && p.failure == rest.failure && p.calls != []
            && p.calls[|p.calls| - 1] == rest.calls[|rest.calls| - 1]
  {
    var first, rest := Attempt(steps[0], cfg, world), RunSteps(steps[1..], cfg, world);
    assert RunSteps(steps, cfg, world) == Progress(first.calls + rest.calls, rest.failure);
    LastOfAppend(first.calls, rest.calls);
  }

  lemma LastOfAppend(a: seq<Call>, b: seq<Call>)
    requires b != []
    ensures (a + b)[|a + b| - 1] == b[|b| - 1]
  {
  }

  /** The failed input checks: their calls, which the failure ends. */
  lemma ValidationFailsAtLastCall(cfg: Config, world: World)
    requires Validate(cfg, world).failure.Some?
    ensures var v := Validate(cfg, world);
            && (v.calls == [] <==> v.failure.value.MissingInput? || v.failure.value.error.PasswordNotProvided?
                                   || v.failure.value.error.UserNameNotProvided?)
            && (v.calls != [] ==> v.calls == [StatPath(cfg.workdir)] && FailedAt(v.failure.value, cfg, v.calls[0]))
  {
  }

  /** As written, a failed session ends at the call that failed. */
  lemma SessionFailsAtLastCall(cfg: Config, world: World)
    requires SessionSemantics(cfg, world, OsExit).status.Failed?
    ensures var o := SessionSemantics(cfg, world, OsExit);
            o.trace != [] && FailedAt(o.status.failure, cfg, o.trace[|o.trace| - 1])
  {
    var before := RunSteps(BeforeDefer(cfg), cfg, world);
    if before.failure.Some? {
      StepsFailAtLastCall(BeforeDefer(cfg), cfg, world);
    } else {
      var after := RunSteps(AfterDefer(cfg), cfg, world);
      StepsFailAtLastCall(AfterDefer(cfg), cfg, world);
      LastOfAppend(before.calls, after.calls);
    }
  }

  /**
   * As written, a fatal error ends the process at once: the trace stops at the
   * call that failed, and it is empty only when an input was missing or the
   * credentials were incomplete.
   */
  lemma AsWrittenFailureEndsTheRun(cfg: Config, world: World)
    requires Semantics(cfg, world, OsExit).status.Failed?
    ensures var o := Semantics(cfg, world, OsExit);
            var f := o.status.failure;
            && (o.trace == [] <==> f.MissingInput? || f == InvalidInput(PasswordNotProvided) || f == InvalidInput(UserNameNotProvided))
            && (o.trace != [] ==> FailedAt(f, cfg, o.trace[|o.trace| - 1]))
  {
    var v := Validate(cfg, world);
    if v.failure.Some? {
      ValidationFailsAtLastCall(cfg, world);
    } else {
      var session := SessionSemantics(cfg, world, OsExit);
      SessionFailsAtLastCall(cfg, world);
      LastOfAppend(v.calls, session.trace);
    }
  }
}
