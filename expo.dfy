/**
 * The Expo toolchain client: the eject method, the command each operation
 * runs, and the line each operation writes to the log before running it.
 */
module Expo {
  import opened Wrappers
  import opened Text
  import opened Quoting

  /** The `--eject-method` value. */
  datatype EjectMethod = Plain | ExpoKit

  function MethodName(m: EjectMethod): string {
    match m
    case Plain => "plain"
    case ExpoKit => "expoKit"
  }

  /** Reads a method back from its command-line name. */
  function MethodNamed(name: string): Option<EjectMethod> {
    if name == "plain" then Some(Plain)
    else if name == "expoKit" then Some(ExpoKit)
    else None
  }

  /** Account credentials select ExpoKit; without a user name the project is ejected plain. */
  function MethodFor(userName: string): (m: EjectMethod)
    ensures m == ExpoKit <==> userName != ""
    ensures m == Plain <==> userName == ""
  {
    if userName != "" then ExpoKit else Plain
  }

  /** The parameters every toolchain call shares (the `Expo` value of the step). */
  datatype Session = Session(version: string, ejectMethod: EjectMethod, workdir: string)

  /** An external command: program, arguments, and the working directory if one is set. */
  datatype Command = Command(program: string, args: seq<string>, dir: Option<string>)

  const Latest := "latest"
  const Redacted := "[REDACTED]"

  /** The working directory is set on a command only when one is configured. */
  function WorkingDir(workdir: string): (dir: Option<string>)
    ensures dir.Some? <==> workdir != ""
    ensures dir.Some? ==> dir.value == workdir
  {
    if workdir != "" then Some(workdir) else None
  }

  /** `npm install -g expo-cli`, pinned to the version unless it is exactly "latest". */
  function InstallCommand(version: string): (c: Command)
    ensures c.program == "npm" && c.dir == None
    ensures |c.args| == 3 && c.args[..2] == ["install", "-g"]
    ensures c.args[2] == "expo-cli" <==> version == Latest
  {
    var package := if version != Latest then "expo-cli@" + version else "expo-cli";
    assert version != Latest ==> |package| > |"expo-cli"|;
    Command("npm", ["install", "-g", package], None)
  }

  /** The install arguments as `installExpoCLI` builds them, appending the package to `install -g`. */
  method InstallArgs(version: string) returns (args: seq<string>)
    ensures args == InstallCommand(version).args
    ensures version != Latest ==> args[2] == "expo-cli@" + version
  {
    args := ["install", "-g"];
    if version != Latest {
      args := args + ["expo-cli@" + version];
    } else {
      args := args + ["expo-cli"];
    }
  }

  /** The version an install command asks for: the inverse of InstallCommand. */
  function RequestedVersion(c: Command): Option<string> {
    if |c.args| != 3 then None
    else
      var package := c.args[2];
      if package == "expo-cli" then Some(Latest)
      else if |package| >= 9 && package[..9] == "expo-cli@" then Some(package[9..])
      else None
  }

  lemma InstallRoundTrip(version: string)
    ensures RequestedVersion(InstallCommand(version)) == Some(version)
  {
    if version != Latest {
      var package := "expo-cli@" + version;
      assert package[..9] == "expo-cli@" && package[9..] == version;
    }
  }

  /** `expo login --non-interactive -u <user> -p <password>`: the process gets the real password. */
  function LoginCommand(userName: string, password: string): (c: Command)
    ensures c.program == "expo" && c.dir == None
    ensures |c.args| == 6 && c.args[3] == userName && c.args[5] == password
  {
    Command("expo", ["login", "--non-interactive", "-u", userName, "-p", password], None)
  }

  /** `expo logout --non-interactive`, in the current directory. */
  function LogoutCommand(): (c: Command)
    ensures c.program == "expo" && c.dir == None
    ensures c.args == ["logout", "--non-interactive"]
  {
    Command("expo", ["logout", "--non-interactive"], None)
  }

  /** `expo eject --non-interactive --eject-method <method>`, in the working directory if one is set. */
  function EjectCommand(s: Session): (c: Command)
    ensures c.program == "expo" && |c.args| == 4 && c.args[..2] == ["eject", "--non-interactive"]
    ensures c.dir == WorkingDir(s.workdir)
  {
    Command("expo", ["eject", "--non-interactive", "--eject-method", MethodName(s.ejectMethod)], WorkingDir(s.workdir))
  }

  /** The method an eject command names: the inverse of EjectCommand on the method. */
  function EjectedWith(c: Command): Option<EjectMethod> {
    if |c.args| == 4 && c.args[2] == "--eject-method" then MethodNamed(c.args[3]) else None
  }

  lemma EjectRoundTrip(s: Session)
    ensures EjectedWith(EjectCommand(s)) == Some(s.ejectMethod)
  {
  }

  /** `expo publish --non-interactive`, in the working directory if one is set. */
  function PublishCommand(s: Session): (c: Command)
    ensures c.program == "expo" && c.args == ["publish", "--non-interactive"]
    ensures c.dir == WorkingDir(s.workdir)
  {
    Command("expo", ["publish", "--non-interactive"], WorkingDir(s.workdir))
  }


  /** The arguments as the command library prints them: each one after a space, as `strconv.Quote` writes it. */
  function QuotedArgs(args: seq<string>): string {
    if args == [] then "" else " " + Quote(args[0]) + QuotedArgs(args[1..])
  }

  /** The command as the command library prints it: the program as it is, then the quoted arguments. */
  function Printable(c: Command): string {
    c.program + QuotedArgs(c.args)
  }

  /** The line logged before install and logout. */
  function LogLine(c: Command): string {
    "$ " + Printable(c)
  }

  /** The line logged (as a success message, after a blank line) before eject and publish. */
  function DoneLogLine(c: Command): string {
    "\n$ " + Printable(c)
  }

  /** How a command line is written to the log before the command runs. */
  datatype LogStyle =
    | Printf                      // `log.Printf("$ " + printed command)`
    | Donef                       // `log.Donef("\n$ " + printed command)`
    | PrintfRedacting(secret: string) // `log.Printf` of the `$ ` line after replacing every occurrence of the secret

  /** The text a command is logged with, in the given style. */
  function LoggedLine(c: Command, style: LogStyle): string {
    match style
    case Printf => LogLine(c)
    case Donef => DoneLogLine(c)
    case PrintfRedacting(secret) => ReplaceAll(LogLine(c), secret, Redacted)
  }

  /**
   * The login line as logged: the printed command with every occurrence of
   * the password redacted. Every character of it comes from the printed
   * command or from the marker.
   */
  function LoginLogLine(userName: string, password: string): (r: string)
    ensures forall j :: 0 <= j < |r| ==> r[j] in LogLine(LoginCommand(userName, password)) || r[j] in Redacted
  {
    var line := LogLine(LoginCommand(userName, password));
    ReplaceAllDrawsFrom(line, password, Redacted);
    ReplaceAll(line, password, Redacted)
  }

  lemma {:induction false} QuotedArgsAppend(a: seq<string>, b: seq<string>)
    ensures QuotedArgs(a + b) == QuotedArgs(a) + QuotedArgs(b)
    decreases |a|
  {
    if a == [] {
      assert a + b == b;
    } else {
      assert (a + b)[1..] == a[1..] + b;
      QuotedArgsAppend(a[1..], b);
    }
  }

  /** Reads back the arguments from their printed form: the inverse of QuotedArgs. */
  function ReadArgs(t: string): Option<seq<string>>
    decreases |t|
  {
    if t == [] then Some([])
    else if |t| < 2 || t[..2] != " \"" then None
    else
      match ReadQuoted(t[2..])
      case None => None
      case Some((arg, rest)) =>
        match ReadArgs(rest)
        case None => None
        case Some(args) => Some([arg] + args)
  }

  lemma {:induction false} ReadArgsRoundTrip(args: seq<string>)
    ensures ReadArgs(QuotedArgs(args)) == Some(args)
    decreases |args|
  {
    if args != [] {
      var t, rest := QuotedArgs(args), QuotedArgs(args[1..]);
      QuotedArgsCons(args);
      ReadQuotedRoundTrip(args[0], rest);
      ReadArgsRoundTrip(args[1..]);
      assert [args[0]] + args[1..] == args;
    }
  }

  /** The printed arguments open with a space and a quote, then the first argument escaped, its closing quote and the rest. */
  lemma QuotedArgsCons(args: seq<string>)
    requires args != []
    ensures var t := QuotedArgs(args);
            |t| >= 2 && t[..2] == " \"" && t[2..] == Escape(args[0]) + "\"" + QuotedArgs(args[1..])
  {
    var e, rest := Escape(args[0]), QuotedArgs(args[1..]);
    var closed := e + "\"";
    Associative("\"", e, "\"");
    Associative(" ", "\"", closed);
    assert " " + "\"" == " \"";
    Associative(" \"", closed, rest);
  }

  /** The printed command loses nothing: its arguments read back from what follows the program. */
  lemma PrintableRoundTrip(c: Command)
    ensures |Printable(c)| >= |c.program| && Printable(c)[..|c.program|] == c.program
    ensures ReadArgs(Printable(c)[|c.program|..]) == Some(c.args)
  {
    assert Printable(c)[|c.program|..] == QuotedArgs(c.args);
    ReadArgsRoundTrip(c.args);
  }

  /** Quoting adds only spaces, quotes and escape sequences around the arguments' own characters. */
  lemma {:induction false} QuotedArgsLacks(args: seq<string>, c: char)
    requires c != ' ' && !EscapeSyntax(c)
    requires forall k :: 0 <= k < |args| ==> c !in args[k]
    ensures c !in QuotedArgs(args)
    decreases |args|
  {
    if args != [] {
      EscapeLacks(args[0], c);
      QuotedArgsLacks(args[1..], c);
    }
  }

  lemma Associative(a: string, b: string, c: string)
    ensures a + (b + c) == (a + b) + c
  {
  }

  /** The last argument is quoted at the very end of the printed arguments. */
  lemma QuotedLastArgument(head: seq<string>, last: string)
    ensures QuotedArgs(head + [last]) == (QuotedArgs(head) + " \"") + (Escape(last) + "\"")
  {
    var q, r := QuotedArgs(head), Escape(last) + "\"";
    assert QuotedArgs(head + [last]) == q + QuotedArgs([last]) by {
      QuotedArgsAppend(head, [last]);
    }
    assert QuotedArgs([last]) == " " + Quote(last) by {
      assert [last][1..] == [];
    }
    assert Quote(last) == "\"" + r by {
      Associative("\"", Escape(last), "\"");
    }
    Associative(" ", "\"", r);
    Associative(q, " \"", r);
  }

  /** The last argument is printed at the very end of the line, quoted, after the rest of the command. */
  lemma PrintedLastArgument(program: string, head: seq<string>, last: string, dir: Option<string>)
    ensures LogLine(Command(program, head + [last], dir))
              == (LogLine(Command(program, head, None)) + " \"") + (Escape(last) + "\"")
  {
    var q, r := QuotedArgs(head), Escape(last) + "\"";
    QuotedLastArgument(head, last);
    Associative(program, q + " \"", r);
    Associative(program, q, " \"");
    Associative("$ ", (program + q) + " \"", r);
    Associative("$ ", program + q, " \"");
  }

  /** Everything the printed login command holds before the password: the command without it, and the opening quote. */
  function LoginLinePrefix(userName: string): string {
    LogLine(Command("expo", ["login", "--non-interactive", "-u", userName, "-p"], None)) + " \""
  }

  /** The printed login command is the fixed text and the user name, then the password as quoting writes it, at the very end. */
  lemma LoginLineLayout(userName: string, password: string)
    ensures LogLine(LoginCommand(userName, password)) == LoginLinePrefix(userName) + (Escape(password) + "\"")
  {
    var head: seq<string> := ["login", "--non-interactive", "-u", userName, "-p"];
    assert LoginCommand(userName, password) == Command("expo", head + [password], None);
    PrintedLastArgument("expo", head, password, None);
  }

  /**
   * When the password needs no escaping and shows up in the printed command
   * only as the `-p` argument, the logged line is the command with that
   * argument replaced by the redaction marker.
   */
  lemma LoginLogLineRedactsArgument(userName: string, password: string)
    requires password != "" && PrintsVerbatim(password)
    requires forall i: nat :: i < |LoginLinePrefix(userName)| ==>
               !OccursAt(LogLine(LoginCommand(userName, password)), password, i)
    ensures LoginLogLine(userName, password) == LoginLinePrefix(userName) + Redacted + "\""
  {
    var prefix := LoginLinePrefix(userName);
    LoginLineLayout(userName, password);
    EscapeIsIdentityIff(password);
    assert prefix + password + "\"" == prefix + (password + "\"");
    ReplaceAllSkipsPrefix(prefix, password + "\"", password, Redacted);
    ReplaceAllAtStart(password, "\"", Redacted);
    assert !Contains("\"", password) by {
      assert PrintedAsIs(password[0]);
      forall i: nat ensures !OccursAt("\"", password, i) {
        if i + |password| <= 1 {
          assert "\""[i..i + |password|] == "\"";
        }
      }
    }
    ReplaceAllWithoutOccurrence("\"", password, Redacted);
  }

  /**
   * A password with no character in common with the marker never appears in
   * the logged login line, wherever else in the command it occurs.
   */
  lemma LoginLogLineHidesPassword(userName: string, password: string)
    requires password != ""
    requires forall j :: 0 <= j < |password| ==> password[j] !in Redacted
    ensures !Contains(LoginLogLine(userName, password), password)
  {
    ReplaceAllRemovesPattern(LogLine(LoginCommand(userName, password)), password, Redacted);
  }

  /**
   * The usual case: when the password needs no escaping and its first
   * character does not occur in the printed command before it, the logged
   * line is that command with the password argument replaced by the marker.
   */
  lemma LoginLogLineOfFreshPassword(userName: string, password: string)
    requires password != "" && PrintsVerbatim(password)
    requires password[0] !in LoginLinePrefix(userName)
    ensures LoginLogLine(userName, password) == LoginLinePrefix(userName) + Redacted + "\""
  {
    var prefix := LoginLinePrefix(userName);
    var line := LogLine(LoginCommand(userName, password));
    LoginLineLayout(userName, password);
    EscapeIsIdentityIff(password);
    forall i: nat | i < |prefix| ensures !OccursAt(line, password, i) {
      assert line[i] == prefix[i];
    }
    LoginLogLineRedactsArgument(userName, password);
  }

  /** A character that is not in the program or the arguments and that quoting does not write is not in the printed command. */
  lemma PrintedCommandLacks(c: Command, ch: char)
    requires ch != '$' && ch != ' ' && !EscapeSyntax(ch) && ch !in c.program
    requires forall k :: 0 <= k < |c.args| ==> ch !in c.args[k]
    ensures ch !in LogLine(c)
  {
    QuotedArgsLacks(c.args, ch);
  }

  /** The characters of the fixed arguments of the login command. */
  const LoginFlagChars: set<char> := {'-', 'a', 'c', 'e', 'g', 'i', 'l', 'n', 'o', 'p', 'r', 't', 'u', 'v', 'x'}

  lemma LoginFlagsLack(c: char)
    requires c !in LoginFlagChars
    ensures c !in "login" && c !in "--non-interactive" && c !in "-u" && c !in "-p" && c !in "expo"
  {
  }

  /** The printed login command before the password holds only the fixed text and the user name. */
  lemma LoginLinePrefixLacks(userName: string, c: char)
    requires c != '$' && c != ' ' && c !in LoginFlagChars && !EscapeSyntax(c)
    requires c !in userName
    ensures c !in LoginLinePrefix(userName)
  {
    var head: seq<string> := ["login", "--non-interactive", "-u", userName, "-p"];
    LoginFlagsLack(c);
    assert forall k :: 0 <= k < |head| ==> c !in head[k];
    PrintedCommandLacks(Command("expo", head, None), c);
  }

  /**
   * Redaction does not hide every password: the marker's own characters
   * survive, so the password "D" stays visible in the logged line of any user
   * whose name does not contain it.
   */
  lemma LoginLogLineCanShowPassword(userName: string)
    requires 'D' !in userName
    ensures LoginLogLine(userName, "D") == LoginLinePrefix(userName) + Redacted + "\""
    ensures Contains(LoginLogLine(userName, "D"), "D")
  {
    var prefix := LoginLinePrefix(userName);
    LoginLinePrefixLacks(userName, 'D');
    assert PrintedAsIs("D"[0]);
    LoginLogLineOfFreshPassword(userName, "D");
    var out := prefix + Redacted + "\"";
    var k := |prefix| + 3;
    assert out[k] == Redacted[3] == 'D';
    assert out[k..k + 1] == "D";
    assert OccursAt(out, "D", k);
  }

  /**
   * As written, the password is looked for in the printed command, where
   * quoting has escaped it: the password `z"z` is printed as `z\"z`, no
   * occurrence of it is found, and the logged line is the unredacted command.
   */
  lemma LoginLogLineLeaksEscapedPassword(userName: string)
    requires 'z' !in userName
    ensures LoginLogLine(userName, "z\"z") == LogLine(LoginCommand(userName, "z\"z"))
    ensures LoginLogLine(userName, "z\"z") == LoginLinePrefix(userName) + "z\\\"z\""
  {
    var password, printed := "z\"z", "z\\\"z\"";
    var prefix := LoginLinePrefix(userName);
    var line := LogLine(LoginCommand(userName, password));
    assert line == prefix + printed by {
      LoginLineLayout(userName, password);
      QuotePasswordEscapes();
    }
    LoginLinePrefixLacks(userName, 'z');
    assert !Contains(line, password) by {
      forall i: nat ensures !OccursAt(line, password, i) {
        EscapedPasswordNotFound(prefix, i);
      }
    }
    ReplaceAllWithoutOccurrence(line, password, Redacted);
  }

  /** `z"z` does not occur in a line that ends with `z\"z"` and has no `z` before. */
  lemma EscapedPasswordNotFound(prefix: string, i: nat)
    requires 'z' !in prefix
    ensures !OccursAt(prefix + "z\\\"z\"", "z\"z", i)
  {
    var line, printed, password := prefix + "z\\\"z\"", "z\\\"z\"", "z\"z";
    if i + 3 <= |line| {
      var w := line[i..i + 3];
      assert w[0] == line[i] && w[1] == line[i + 1];
      if i < |prefix| {
        assert line[i] == prefix[i] != 'z';
      } else {
        var k := i - |prefix|;
        assert line[i] == printed[k] && line[i + 1] == printed[k + 1];
        assert printed[k] != 'z' || printed[k + 1] != '"';
      }
      assert w[0] != password[0] || w[1] != password[1];
    }
  }

  /** Quoting writes the quote inside `z"z` behind a backslash. */
  lemma QuotePasswordEscapes()
    ensures Escape("z\"z") + "\"" == "z\\\"z\""
  {
    var password := "z\"z";
    assert password[1..][1..] == "z" && password[1..][1..][1..] == [];
  }

  /**
   * The evident intent of the redaction: the logged login line is the command
   * printed with the marker in place of the password.
   */
  function RedactedLoginLogLine(userName: string, password: string): string {
    LogLine(LoginCommand(userName, Redacted))
  }

  /**
   * Redacting the argument before printing hides every password, however it
   * is escaped: the line ends with the quoted marker and holds nothing of the
   * password.
   */
  lemma RedactedLoginLogLineHidesPassword(userName: string, password: string, other: string)
    ensures RedactedLoginLogLine(userName, password) == LoginLinePrefix(userName) + Redacted + "\""
    ensures RedactedLoginLogLine(userName, password) == RedactedLoginLogLine(userName, other)
  {
    LoginLineLayout(userName, Redacted);
    RedactedPrintsVerbatim();
    Associative(LoginLinePrefix(userName), Redacted, "\"");
  }

  /** The marker itself needs no escaping. */
  lemma RedactedPrintsVerbatim()
    ensures Escape(Redacted) == Redacted
  {
    RedactedIsPlain();
    EscapeIsIdentityIff(Redacted);
  }

  lemma RedactedIsPlain()
    ensures PrintsVerbatim(Redacted)
  {
    forall j | 0 <= j < |Redacted| ensures PrintedAsIs(Redacted[j]) {
      assert 'A' <= Redacted[j] <= ']' && Redacted[j] != '\\';
    }
  }

  /** For a password that needs no escaping and does not occur earlier, both redactions log the same line. */
  lemma RedactionsAgreeOnPlainPasswords(userName: string, password: string)
    requires password != "" && PrintsVerbatim(password)
    requires password[0] !in LoginLinePrefix(userName)
    ensures LoginLogLine(userName, password) == RedactedLoginLogLine(userName, password)
  {
    LoginLogLineOfFreshPassword(userName, password);
    RedactedLoginLogLineHidesPassword(userName, password, password);
  }
}
