/**
 * Concrete runs of the step: the configurations a user typically gives, and
 * what the run does with them in a given world.
 */
module Scenarios {
  import opened Wrappers
  import opened Json
  import opened Quoting
  import opened Expo
  import opened Validation
  import opened Manifest
  import opened Orchestrator
  import opened RunProperties

  /** A world in which every external call succeeds except the ones named. */
  function WorldWhere(ejectOk: bool, logoutOk: bool): World {
    World(PathExists, true, true, ejectOk, true, logoutOk, ReadFailed, true)
  }

  /**
   * Default inputs without credentials: the latest CLI is installed and the
   * project is ejected with the plain method, in the current directory.
   */
  lemma PlainEjectWithDefaults(mode: ExitMode)
    ensures var s := Session(Latest, Plain, "");
            && Semantics(Config("", Latest, "", "", "no", ""), WorldWhere(true, true), mode)
                 == Outcome([InstallCall(s), EjectCall(s)], Succeeded, false)
            && InstallCall(s).command.args == ["install", "-g", "expo-cli"]
            && EjectCall(s).command == Command("expo", ["eject", "--non-interactive", "--eject-method", "plain"], None)
  {
    var cfg := Config("", Latest, "", "", "no", "");
    SuccessfulRunTrace(cfg, WorldWhere(true, true), mode);
    ExitsCleanlyIff(cfg, WorldWhere(true, true), mode);
  }

  /** A user name without a password is rejected before anything runs. */
  lemma UserNameWithoutPassword(userName: string, world: World, mode: ExitMode)
    requires userName != ""
    ensures Semantics(Config("", "4.0.0", userName, "", "yes", ""), world, mode)
              == Outcome([], Failed(InvalidInput(PasswordNotProvided)), false)
  {
  }

  /**
   * With credentials, a failing eject as written ends the run after the
   * login: the session is never logged out.
   */
  lemma AsWrittenSkipsLogoutOnFailure(userName: string, password: string)
    requires userName != "" && password != ""
    ensures var cfg := Config("", Latest, userName, password, "no", "");
            var s := Session(Latest, ExpoKit, "");
            && Semantics(cfg, WorldWhere(false, true), OsExit)
                 == Outcome([InstallCall(s), LoginCall(userName, password), EjectCall(s)], Failed(EjectFailed), false)
            && LogoutCall !in Semantics(cfg, WorldWhere(false, true), OsExit).trace
  {
    var cfg := Config("", Latest, userName, password, "no", "");
    BeforeDeferCalls(cfg, WorldWhere(false, true));
    AfterDeferCalls(cfg, WorldWhere(false, true));
    assert LogoutCommand().args[0] == "logout";
  }

  /**
   * The same run with deferred functions honoured: the session is logged out
   * after the failing eject, and a failing logout only adds a warning.
   */
  lemma DeferredLogoutOnFailure(userName: string, password: string, logoutOk: bool)
    requires userName != "" && password != ""
    ensures var cfg := Config("", Latest, userName, password, "no", "");
            var s := Session(Latest, ExpoKit, "");
            Semantics(cfg, WorldWhere(false, logoutOk), RunDeferred)
              == Outcome([InstallCall(s), LoginCall(userName, password), EjectCall(s), LogoutCall],
                         Failed(EjectFailed), !logoutOk)
  {
    var cfg := Config("", Latest, userName, password, "no", "");
    BeforeDeferCalls(cfg, WorldWhere(false, logoutOk));
    AfterDeferCalls(cfg, WorldWhere(false, logoutOk));
  }

  /**
   * A password that needs no escaping and whose first character is not in the
   * printed command reaches the CLI unchanged but is logged as the redaction
   * marker.
   */
  lemma SecretPasswordIsRedacted(userName: string)
    requires userName != "" && 's' !in userName
    ensures LoginCall(userName, "s3cret").command.args[5] == "s3cret"
    ensures var c := LoginCall(userName, "s3cret");
            LoggedLine(c.command, c.logged) == LoginLinePrefix(userName) + "[REDACTED]" + "\""
  {
    LoginLinePrefixLacks(userName, 's');
    assert PrintsVerbatim("s3cret") by {
      forall j | 0 <= j < |"s3cret"| ensures PrintedAsIs("s3cret"[j]) {
        assert '3' <= "s3cret"[j] <= 't';
      }
    }
    LoginLogLineOfFreshPassword(userName, "s3cret");
  }

  /** Forcing React Native 0.66.0 rewrites only that dependency. */
  lemma ForcedReactNativeVersion()
    ensures var before := map["name" := String("app"),
                              "dependencies" := Object(map["react-native" := String("0.64.0"),
                                                           "lodash" := String("4.0.0")])];
            PatchDependencies(before, "0.66.0")
              == Some(map["name" := String("app"),
                          "dependencies" := Object(map["react-native" := String("0.66.0"),
                                                       "lodash" := String("4.0.0")])])
  {
    var deps := map["react-native" := String("0.64.0"), "lodash" := String("4.0.0")];
    var deps' := map["react-native" := String("0.66.0"), "lodash" := String("4.0.0")];
    assert "react-native" != "lodash" && "name" != "dependencies";
    assert deps[ReactNative := String("0.66.0")] == deps';
    var before := map["name" := String("app"), "dependencies" := Object(deps)];
    assert before[Dependencies := Object(deps')] == map["name" := String("app"), "dependencies" := Object(deps')];
  }

  /** A manifest without a `dependencies` object cannot be patched. */
  lemma ManifestWithoutDependencies()
    ensures PatchDependencies(map["name" := String("app"), "dependencies" := Array([])], "0.66.0") == None
  {
  }
}
