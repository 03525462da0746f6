/**
 * Which calls a run can make at all, whatever the outside world answers:
 * every Expo command is non-interactive, only eject and publish run in the
 * working directory, the login uses the configured credentials, the manifest
 * is touched only when a React Native version is forced, and what is written
 * back is the patched manifest.
 */
module CallProperties {
  import opened Wrappers
  import opened Json
  import opened Expo
  import opened Validation
  import opened Manifest
  import opened Orchestrator

  /** The calls a run with this configuration may make in this world. */
  ghost predicate MayCall(cfg: Config, world: World, c: Call) {
    var s := SessionFor(cfg);
    var path := ManifestPath(cfg.workdir);
    || (c == StatPath(cfg.workdir) && cfg.workdir != "")
    || c == InstallCall(s)
    || (c == LoginCall(cfg.userName, cfg.password) && cfg.userName != "" && cfg.password != "")
    || c == EjectCall(s)
    || (c == PublishCall(s) && cfg.runPublish == "yes")
    || (c == ReadFile(path) && cfg.forceReactNativeVersion != "")
    || (&& c.WriteFile? && c.path == path && cfg.forceReactNativeVersion != ""
        && PatchableManifest(world) && c.doc.Object?
        && PatchedAs(DecodeObject(world.manifest.doc).value, c.doc.fields, cfg.forceReactNativeVersion))
    || (c == LogoutCall && cfg.userName != "")
  }

  /** A step the configuration schedules. */
  predicate Scheduled(step: Step, cfg: Config) {
    step in BeforeDefer(cfg) || step in AfterDefer(cfg)
  }

  /** Once the inputs are valid, a scheduled step makes only calls the run may make. */
  lemma AttemptCallsExpected(step: Step, cfg: Config, world: World)
    requires Validate(cfg, world).failure.None?
    requires Scheduled(step, cfg)
    ensures forall c :: c in Attempt(step, cfg, world).calls ==> MayCall(cfg, world, c)
  {
    var s := SessionFor(cfg);
    match step
    case Install =>
      assert Attempt(step, cfg, world).calls == [InstallCall(s)];
    case Login =>
      assert cfg.userName != "" by {
        assert Login !in AfterDefer(cfg);
      }
      assert cfg.password != "" by {
        assert ValidateCredentials(cfg.userName, cfg.password).None?;
      }
      assert Attempt(step, cfg, world).calls == [LoginCall(cfg.userName, cfg.password)];
    case Eject =>
      assert Attempt(step, cfg, world).calls == [EjectCall(s)];
    case Publish =>
      assert cfg.runPublish == "yes" by {
        assert Publish !in BeforeDefer(cfg);
      }
      assert Attempt(step, cfg, world).calls == [PublishCall(s)];
    case PatchManifest =>
      assert cfg.forceReactNativeVersion != "" by {
        assert PatchManifest !in BeforeDefer(cfg);
      }
      PatchCallsExpected(cfg, world);
  }

  lemma PatchCallsExpected(cfg: Config, world: World)
    requires cfg.forceReactNativeVersion != ""
    ensures forall c :: c in PatchAttempt(cfg, world).calls ==> MayCall(cfg, world, c)
  {
    var path := ManifestPath(cfg.workdir);
    assert MayCall(cfg, world, ReadFile(path));
    if PatchableManifest(world) {
      var patched := PatchDependencies(DecodeObject(world.manifest.doc).value, cfg.forceReactNativeVersion).value;
      assert MayCall(cfg, world, WriteFile(path, Object(patched)));
    }
  }

  lemma {:induction false} StepCallsExpected(steps: seq<Step>, cfg: Config, world: World)
    requires Validate(cfg, world).failure.None?
    requires forall i :: 0 <= i < |steps| ==> Scheduled(steps[i], cfg)
    ensures forall c :: c in RunSteps(steps, cfg, world).calls ==> MayCall(cfg, world, c)
    decreases |steps|
  {
    if steps != [] {
      AttemptCallsExpected(steps[0], cfg, world);
      StepCallsExpected(steps[1..], cfg, world);
    }
  }

  /** Where the calls of a trace come from: validation, then the two step lists and the deferred logout. */
  lemma TraceFromParts(cfg: Config, world: World, mode: ExitMode)
    ensures var v := Validate(cfg, world);
            forall c :: c in Semantics(cfg, world, mode).trace ==>
              || c in v.calls
              || (&& v.failure.None?
                  && (|| c in RunSteps(BeforeDefer(cfg), cfg, world).calls
                      || c in RunSteps(AfterDefer(cfg), cfg, world).calls
                      || c in DeferredCalls(SessionFor(cfg))))
  {
  }

  /** Every call in the trace of a run is one the run may make. */
  lemma TraceCallsExpected(cfg: Config, world: World, mode: ExitMode)
    ensures forall c :: c in Semantics(cfg, world, mode).trace ==> MayCall(cfg, world, c)
  {
    TraceFromParts(cfg, world, mode);
    var v := Validate(cfg, world);
    assert forall c :: c in v.calls ==> c == StatPath(cfg.workdir) && cfg.workdir != "";
    if v.failure.None? {
      var before, after := BeforeDefer(cfg), AfterDefer(cfg);
      assert forall i :: 0 <= i < |before| ==> Scheduled(before[i], cfg);
      assert forall i :: 0 <= i < |after| ==> Scheduled(after[i], cfg);
      StepCallsExpected(before, cfg, world);
      StepCallsExpected(after, cfg, world);
      assert forall c :: c in DeferredCalls(SessionFor(cfg)) ==> c == LogoutCall && cfg.userName != "";
    }
  }

  /** Every Expo command the step runs passes `--non-interactive` right after the subcommand. */
  lemma ExpoCommandsAreNonInteractive(cfg: Config, world: World, mode: ExitMode)
    ensures forall c :: c in Semantics(cfg, world, mode).trace && c.Exec? && c.command.program == "expo" ==>
              |c.command.args| >= 2 && c.command.args[1] == "--non-interactive"
  {
    TraceCallsExpected(cfg, world, mode);
  }

  /**
   * Only eject and publish run in a directory of their own, and only when a
   * working directory is configured; it is then that directory.
   */
  lemma OnlyEjectAndPublishUseWorkdir(cfg: Config, world: World, mode: ExitMode)
    ensures forall c :: c in Semantics(cfg, world, mode).trace && c.Exec? && c.command.dir.Some? ==>
              && cfg.workdir != "" && |c.command.args| > 0
              && c.command.dir == Some(cfg.workdir)
              && (c.command.args[0] == "eject" || c.command.args[0] == "publish")
  {
    TraceCallsExpected(cfg, world, mode);
    forall c | c in Semantics(cfg, world, mode).trace && c.Exec? && c.command.dir.Some?
      ensures && cfg.workdir != "" && |c.command.args| > 0
              && c.command.dir == Some(cfg.workdir)
              && (c.command.args[0] == "eject" || c.command.args[0] == "publish")
    {
      CallWithDir(cfg, world, c);
    }
  }

  /** Of the calls a run may make, only eject and publish carry a directory. */
  lemma CallWithDir(cfg: Config, world: World, c: Call)
    requires MayCall(cfg, world, c) && c.Exec? && c.command.dir.Some?
    ensures c == EjectCall(SessionFor(cfg)) || c == PublishCall(SessionFor(cfg))
    ensures cfg.workdir != "" && c.command.dir == Some(cfg.workdir)
  {
    assert c != LogoutCall && c != InstallCall(SessionFor(cfg)) && c != LoginCall(cfg.userName, cfg.password);
  }

  /**
   * A login in the trace uses the configured user name and password, both
   * present; the process gets the real password while the logged line is the
   * redacted one.
   */
  lemma LoginUsesConfiguredCredentials(cfg: Config, world: World, mode: ExitMode)
    ensures forall c :: c in Semantics(cfg, world, mode).trace && c.Exec? && |c.command.args| > 0 && c.command.args[0] == "login" ==>
              && cfg.userName != "" && cfg.password != ""
              && c.command.args == ["login", "--non-interactive", "-u", cfg.userName, "-p", cfg.password]
              && c.logged == PrintfRedacting(cfg.password)
              && LoggedLine(c.command, c.logged) == LoginLogLine(cfg.userName, cfg.password)
  {
    TraceCallsExpected(cfg, world, mode);
  }

  /** A write the run may make holds exactly the patched manifest. */
  lemma WriteIsThePatch(cfg: Config, world: World, c: Call)
    requires MayCall(cfg, world, c) && c.WriteFile?
    ensures PatchableManifest(world) && c.doc.Object?
    ensures c.doc.fields == PatchDependencies(DecodeObject(world.manifest.doc).value, cfg.forceReactNativeVersion).value
  {
    var before := DecodeObject(world.manifest.doc).value;
    PatchedAsIsUnique(before, c.doc.fields, PatchDependencies(before, cfg.forceReactNativeVersion).value,
                      cfg.forceReactNativeVersion);
  }

  /**
   * The manifest at `<workdir>/package.json` is read and written only when a
   * React Native version is forced, and what is written is the manifest read
   * with `dependencies["react-native"]` set to that version and nothing else changed.
   */
  lemma ManifestTouchedOnlyWhenForced(cfg: Config, world: World, mode: ExitMode)
    ensures forall c :: c in Semantics(cfg, world, mode).trace && (c.ReadFile? || c.WriteFile?) ==>
              cfg.forceReactNativeVersion != "" && c.path == ManifestPath(cfg.workdir)
    ensures forall c :: c in Semantics(cfg, world, mode).trace && c.WriteFile? ==>
              && PatchableManifest(world) && c.doc.Object?
              && c.doc.fields == PatchDependencies(DecodeObject(world.manifest.doc).value, cfg.forceReactNativeVersion).value
  {
    TraceCallsExpected(cfg, world, mode);
    forall c | c in Semantics(cfg, world, mode).trace && c.WriteFile?
      ensures PatchableManifest(world) && c.doc.Object?
      ensures c.doc.fields == PatchDependencies(DecodeObject(world.manifest.doc).value, cfg.forceReactNativeVersion).value
    {
      WriteIsThePatch(cfg, world, c);
    }
  }
}
