/**
 * The launch driver (main): find the kafkacat binary, load the
 * credentials, hand each of them to a pipe, compose the arguments, start
 * kafkacat with the pipes as descriptors 3, 4 and 5, and pass its exit
 * status on. The file system check, the pipes and the child's run are
 * inputs: a set of existing paths, pipes that carry given bytes, and the
 * result cmd.Run reports.
 */
module Launcher {
  import opened Wrappers
  import opened GoBytes
  import opened GoStrings
  import opened Credentials
  import opened Arguments

  const DefaultKafkacatBin := "/usr/bin/kafkacat"
  const BinVar := "KAFKACAT_BIN"

  /** The status log.Fatal and log.Fatalf exit with. */
  const FatalExitCode := 1

  /** What main sees of its surroundings: environment, os.Args[1:], and the paths os.Stat finds. */
  datatype Host = Host(env: Env, userArgs: seq<string>, existing: set<string>)

  /** The binary to run: KAFKACAT_BIN, or the default when that is empty or unset. */
  function Executable(env: Env): (exe: string)
    ensures exe != ""
    ensures Getenv(env, BinVar) != "" ==> exe == Getenv(env, BinVar)
    ensures Getenv(env, BinVar) == "" ==> exe == DefaultKafkacatBin
  {
    var exe := Getenv(env, BinVar);
    if exe == "" then DefaultKafkacatBin else exe
  }

  /** The read end of a pipe whose writer delivers `content` and then closes. */
  datatype Pipe = Pipe(content: seq<byte>)

  /** Where a standard stream of the child goes; Unset is exec.Cmd's nil (the null device). */
  datatype Stdio = Unset | ParentStdin | ParentStdout | ParentStderr

  /** The launch specification: what exec.Cmd holds when Run is called. */
  datatype Command = Command(
    path: string, args: seq<string>,
    stdin: Stdio, stdout: Stdio, stderr: Stdio,
    extraFiles: seq<Pipe>)

  /** The descriptor a child finds ExtraFiles[i] at is 3 + i. */
  function ChildFd(cmd: Command, fd: nat): (f: Option<Pipe>)
    ensures f.Some? <==> 3 <= fd < 3 + |cmd.extraFiles|
  {
    if 3 <= fd < 3 + |cmd.extraFiles| then Some(cmd.extraFiles[fd - 3]) else None
  }

  /** The side effects main performs, in order. */
  datatype Effect = Stat(path: string) | OpenPipe(content: seq<byte>) | Start(cmd: Command)

  datatype Failure = BinaryNotFound | CredentialFailure(error: LoadError)

  /**
   * What main logs before it exits with FatalExitCode. A missing binary is
   * reported under the default path, whatever path was checked, with a hint
   * naming KAFKACAT_BIN; a credential failure under its own message.
   */
  function FailureMessage(f: Failure): (m: string)
    ensures f.BinaryNotFound? ==> HasPrefix(m, DefaultKafkacatBin) && OccursAt(m, BinVar, |DefaultKafkacatBin| + 28)
    ensures f.CredentialFailure? ==> m == LoadErrorMessage(f.error)
  {
    match f
    case BinaryNotFound =>
      var hint := " does not exist. Please set ";
      var m := DefaultKafkacatBin + hint + BinVar + " to the location of your kafkacat binary\n";
      assert |hint| == 28;
      assert m[..|DefaultKafkacatBin|] == DefaultKafkacatBin;
      assert m[|DefaultKafkacatBin| + 28..|DefaultKafkacatBin| + 28 + |BinVar|] == BinVar;
      m
    case CredentialFailure(e) => LoadErrorMessage(e)
  }

  datatype Outcome = Fatal(failure: Failure) | Spawned(cmd: Command)

  datatype Run = Run(effects: seq<Effect>, outcome: Outcome)

  /**
   * What main does, as a function of its surroundings. The binary check
   * always comes first; kafkacat is started exactly when the binary exists
   * and the credentials load, and then as the fifth and last effect;
   * otherwise main stops after the check.
   */
  function Launch(h: Host): (r: Run)
    ensures |r.effects| >= 1 && r.effects[0] == Stat(Executable(h.env))
    ensures r.outcome.Spawned? <==> Executable(h.env) in h.existing && LoadCerts(h.env).Ok?
    ensures r.outcome.Fatal? ==> |r.effects| == 1
    ensures r.outcome.Spawned? ==> |r.effects| == 5 && r.effects[4] == Start(r.outcome.cmd)
  {
    var exe := Executable(h.env);
    if exe !in h.existing then
      Run([Stat(exe)], Fatal(BinaryNotFound))
    else match LoadCerts(h.env)
      case Err(e) => Run([Stat(exe)], Fatal(CredentialFailure(e)))
      case Ok(c) => StartWith(h, exe, c)
  }

  /**
   * The part of main after the credentials loaded: three pipes, CA, cert,
   * key, then the start of kafkacat, which finds those three at descriptors
   * 3, 4 and 5 and nothing at any other descriptor past the standard ones.
   */
  function StartWith(h: Host, exe: string, c: CredentialSet): (r: Run)
    ensures r.outcome.Spawned? && r.outcome.cmd.path == exe
    ensures r.effects == [Stat(exe), OpenPipe(c.ca), OpenPipe(c.cert), OpenPipe(c.key), Start(r.outcome.cmd)]
    ensures forall fd: nat :: ChildFd(r.outcome.cmd, fd) == if 3 <= fd <= 5 then Some(Pipe(c.Of(RoleAt(fd - 3)))) else None
  {
    var cmd := Command(exe, ComposeArgs(h.env, h.userArgs), ParentStdin, ParentStdout, ParentStderr,
                       [Pipe(c.ca), Pipe(c.cert), Pipe(c.key)]);
    Run([Stat(exe), OpenPipe(c.ca), OpenPipe(c.cert), OpenPipe(c.key), Start(cmd)], Spawned(cmd))
  }

  /** What cmd.Run returns: nil, an *exec.ExitError (with its WaitStatus when Sys() is one), or another error. */
  datatype RunResult = Success | ExitError(waitStatus: Option<int>) | OtherError

  /**
   * The exit relay: only an ExitError that carries a WaitStatus sets the
   * status; in every other case main returns and the process exits with 0.
   */
  function RelayedExitCode(r: RunResult): (code: int)
    ensures r.ExitError? && r.waitStatus.Some? ==> code == r.waitStatus.value
    ensures r.Success? || r.OtherError? || r == ExitError(None) ==> code == 0
  {
    match r
    case ExitError(Some(status)) => status
    case _ => 0
  }

  /**
   * The status the wrapper's process ends with: 1 after a fatal log, and
   * otherwise the child's. It is 0, success, exactly when kafkacat was
   * started and did not report a non-zero wait status.
   */
  function ProcessExitCode(o: Outcome, child: RunResult): (code: int)
    ensures o.Fatal? ==> code == FatalExitCode
    ensures o.Spawned? ==> code == RelayedExitCode(child)
    ensures code == 0 <==> o.Spawned? && !(child.ExitError? && child.waitStatus.Some? && child.waitStatus.value != 0)
  {
    match o
    case Fatal(_) => FatalExitCode
    case Spawned(_) => RelayedExitCode(child)
  }

  /** exec.Cmd, the part of it main fills in. */
  class Cmd {
    var path: string
    var args: seq<string>
    var stdin: Stdio
    var stdout: Stdio
    var stderr: Stdio
    var extraFiles: seq<Pipe>

    /** exec.Command(name, arg...): a command with nothing attached yet. */
    constructor (name: string, arg: seq<string>)
      ensures path == name && args == arg
      ensures stdin == Unset && stdout == Unset && stderr == Unset && extraFiles == []
    {
      path, args := name, arg;
      stdin, stdout, stderr := Unset, Unset, Unset;
      extraFiles := [];
    }

    function Spec(): Command
      reads this
    {
      Command(path, args, stdin, stdout, stderr, extraFiles)
    }
  }

  /**
   * main, step by step: the argument vector is built by successive appends
   * and the command's fields are assigned one by one. `child` is what
   * cmd.Run reports once the child has been started.
   */
  method RunWrapper(h: Host, child: RunResult) returns (run: Run, code: int)
    ensures run == Launch(h)
    ensures code == ProcessExitCode(run.outcome, child)
  {
    var effects: seq<Effect> := [];
    var exe := Getenv(h.env, BinVar);
    if exe == "" {
      exe := DefaultKafkacatBin;
    }
    assert exe == Executable(h.env);
    effects := effects + [Stat(exe)];
    if exe !in h.existing {
      assert Launch(h) == Run(effects, Fatal(BinaryNotFound));
      run, code := Run(effects, Fatal(BinaryNotFound)), FatalExitCode;
      return;
    }

    var loaded := LoadCerts(h.env);
    if loaded.Err? {
      assert Launch(h) == Run(effects, Fatal(CredentialFailure(loaded.error)));
      run, code := Run(effects, Fatal(CredentialFailure(loaded.error))), FatalExitCode;
      return;
    }
    LoadedStart(h);
    run := StartKafkacat(h, exe, loaded.value, effects);
    code := RelayExit(child);
  }

  /**
   * The rest of main once both checks passed: a pipe per part, CA, cert,
   * key, the argument vector, the command, and its start.
   */
  method StartKafkacat(h: Host, exe: string, c: CredentialSet, effects0: seq<Effect>) returns (run: Run)
    requires effects0 == [Stat(exe)]
    ensures run == StartWith(h, exe, c)
  {
    var effects := effects0;
    var ca, crt, key := c.ca, c.cert, c.key;

    var caPipe := Pipe(ca);
    effects := effects + [OpenPipe(ca)];
    var crtPipe := Pipe(crt);
    effects := effects + [OpenPipe(crt)];
    var keyPipe := Pipe(key);
    effects := effects + [OpenPipe(key)];
    assert effects == [Stat(exe), OpenPipe(ca), OpenPipe(crt), OpenPipe(key)];

    var cmdFields := BuildCmdFields(h.env, h.userArgs);
    var spec := PrepareCommand(exe, cmdFields, [caPipe, crtPipe, keyPipe]);
    assert spec == Command(exe, ComposeArgs(h.env, h.userArgs), ParentStdin, ParentStdout, ParentStderr,
                           [Pipe(ca), Pipe(crt), Pipe(key)]);
    effects := effects + [Start(spec)];
    run := Run(effects, Spawned(spec));
  }

  /**
   * exec.Command, then the assignments main makes: the parent's standard
   * streams and the three pipes as ExtraFiles. The command holds exactly
   * that when it is run.
   */
  method PrepareCommand(exe: string, cmdFields: seq<string>, pipes: seq<Pipe>) returns (spec: Command)
    ensures spec.path == exe && spec.args == cmdFields && spec.extraFiles == pipes
    ensures spec.stdin == ParentStdin && spec.stdout == ParentStdout && spec.stderr == ParentStderr
  {
    var cmd := new Cmd(exe, cmdFields);
    cmd.stdout := ParentStdout;
    cmd.stderr := ParentStderr;
    cmd.stdin := ParentStdin;
    cmd.extraFiles := pipes;
    spec := cmd.Spec();
  }

  /** The argument vector, built as main builds cmdFields: sslArgs, then the broker list when set, then os.Args[1:]. */
  method BuildCmdFields(env: Env, userArgs: seq<string>) returns (cmdFields: seq<string>)
    ensures cmdFields == ComposeArgs(env, userArgs)
  {
    cmdFields := SslArgs();
    var url := Getenv(env, BrokerUrlVar);
    if url != "" {
      cmdFields := cmdFields + ["-b", StripScheme(url)];
    }
    cmdFields := cmdFields + userArgs;
  }

  /** The tail of main: the status is set only from an ExitError's WaitStatus, and is 0 otherwise. */
  method RelayExit(child: RunResult) returns (code: int)
    ensures code == RelayedExitCode(child)
  {
    code := 0;
    if child.ExitError? {
      if child.waitStatus.Some? {
        code := child.waitStatus.value;
      }
    }
  }

  /**
   * A missing binary stops main before any credential is read or any pipe
   * made, and the message names the default path whatever path was checked.
   */
  lemma MissingBinaryFirst(h: Host)
    requires Executable(h.env) !in h.existing
    ensures Launch(h) == Run([Stat(Executable(h.env))], Fatal(BinaryNotFound))
    ensures HasPrefix(FailureMessage(Launch(h).outcome.failure), DefaultKafkacatBin)
    ensures forall child :: ProcessExitCode(Launch(h).outcome, child) == FatalExitCode
  {
    assert Launch(h) == Run([Stat(Executable(h.env))], Fatal(BinaryNotFound));
  }

  /** A credential failure stops main after the binary check and before any pipe or start. */
  lemma CredentialFailureBeforePipes(h: Host)
    requires Executable(h.env) in h.existing && LoadCerts(h.env).Err?
    ensures Launch(h) == Run([Stat(Executable(h.env))], Fatal(CredentialFailure(LoadCerts(h.env).error)))
  {
  }

  /** kafkacat is started exactly when the binary exists and all three credentials loaded. */
  lemma SpawnedIff(h: Host)
    ensures Launch(h).outcome.Spawned? <==> Executable(h.env) in h.existing && LoadCerts(h.env).Ok?
    ensures !Launch(h).outcome.Spawned? ==> forall e :: e in Launch(h).effects ==> e.Stat?
  {
  }

  /**
   * When kafkacat is started, the pipes are made CA, cert, key, before the
   * start, and attached in that order; the command carries the composed
   * arguments and the parent's standard streams.
   */
  lemma SpawnShape(h: Host)
    requires Launch(h).outcome.Spawned?
    ensures var c := LoadCerts(h.env).value; var cmd := Launch(h).outcome.cmd;
      && Launch(h).effects == [Stat(cmd.path), OpenPipe(c.ca), OpenPipe(c.cert), OpenPipe(c.key), Start(cmd)]
      && cmd.path == Executable(h.env)
      && cmd.args == ComposeArgs(h.env, h.userArgs)
      && cmd.extraFiles == [Pipe(c.ca), Pipe(c.cert), Pipe(c.key)]
      && cmd.stdin == ParentStdin && cmd.stdout == ParentStdout && cmd.stderr == ParentStderr
  {
  }

  /** The file names kafkacat reads each part from, in the order sslArgs lists them. */
  function RoleAt(k: nat): Role
    requires k < 3
  {
    if k == 0 then CA else if k == 1 then Cert else Key
  }

  function LocationKey(role: Role): string {
    match role
    case CA => "ssl.ca.location"
    case Cert => "ssl.certificate.location"
    case Key => "ssl.key.location"
  }

  /** The `-X` value that points kafkacat's `role` file at descriptor `fd`. */
  function LocationSetting(role: Role, fd: nat): string {
    LocationKey(role) + "=/dev/fd/" + Decimal(fd)
  }

  /**
   * The descriptor contract between the arguments and the attached files:
   * for each part, the `-X` setting names descriptor 3 + k, and what the
   * child finds at that descriptor is a pipe carrying exactly that part.
   */
  lemma DescriptorsMatchRoles(h: Host)
    requires Launch(h).outcome.Spawned?
    ensures var c := LoadCerts(h.env).value; var cmd := Launch(h).outcome.cmd;
      && |cmd.extraFiles| == 3
      && forall k :: 0 <= k < 3 ==>
           && cmd.args[2 * k + 2] == "-X"
           && cmd.args[2 * k + 3] == LocationSetting(RoleAt(k), 3 + k)
           && ChildFd(cmd, 3 + k) == Some(Pipe(c.Of(RoleAt(k))))
  {
    SpawnShape(h);
    SslArgsLocations();
    var c := LoadCerts(h.env).value;
    var cmd := Launch(h).outcome.cmd;
    assert cmd.args[..8] == SslArgs();
    forall k | 0 <= k < 3
      ensures cmd.args[2 * k + 2] == "-X" && cmd.args[2 * k + 3] == LocationSetting(RoleAt(k), 3 + k)
      ensures ChildFd(cmd, 3 + k) == Some(Pipe(c.Of(RoleAt(k))))
    {
      assert cmd.args[2 * k + 2] == cmd.args[..8][2 * k + 2];
      assert cmd.args[2 * k + 3] == cmd.args[..8][2 * k + 3];
    }
  }

  /** sslArgs names descriptors 3, 4 and 5 for CA, cert and key, each after its own "-X". */
  lemma SslArgsLocations()
    ensures forall k :: 0 <= k < 3 ==>
      SslArgs()[2 * k + 2] == "-X" && SslArgs()[2 * k + 3] == LocationSetting(RoleAt(k), 3 + k)
  {
    assert Decimal(3) == "3" && Decimal(4) == "4" && Decimal(5) == "5";
    assert SslArgs()[3] == LocationSetting(CA, 3);
    assert SslArgs()[5] == LocationSetting(Cert, 4);
    assert SslArgs()[7] == LocationSetting(Key, 5);
  }

  /**
   * One end-to-end run: valid encoded credentials, no KAFKA_URL, user
   * arguments ["-L"]. kafkacat gets the TLS settings then -L, three pipes,
   * and its exit status 7 becomes the wrapper's.
   */
  lemma ListBrokersEndToEnd(h: Host)
    requires h.userArgs == ["-L"] && Getenv(h.env, BrokerUrlVar) == ""
    requires Executable(h.env) in h.existing
    requires !RawMode(h.env) && AllSet(h.env) && AllDecode(h.env)
    ensures Launch(h).outcome.Spawned?
    ensures Launch(h).outcome.cmd.args == [
      "-X", "security.protocol=ssl", "-X", "ssl.ca.location=/dev/fd/3",
      "-X", "ssl.certificate.location=/dev/fd/4", "-X", "ssl.key.location=/dev/fd/5", "-L"]
    ensures |Launch(h).outcome.cmd.extraFiles| == 3
    ensures ProcessExitCode(Launch(h).outcome, ExitError(Some(7))) == 7
  {
    EncodedLoad(h.env);
    LoadedStart(h);
    ListArgs(h.env);
  }

  /** Past both checks, main goes on to the pipes and the start. */
  lemma LoadedStart(h: Host)
    requires Executable(h.env) in h.existing && LoadCerts(h.env).Ok?
    ensures Launch(h) == StartWith(h, Executable(h.env), LoadCerts(h.env).value)
  {
  }

  /** Without KAFKA_URL the arguments are sslArgs followed by the user's own. */
  lemma ListArgs(env: Env)
    requires Getenv(env, BrokerUrlVar) == ""
    ensures ComposeArgs(env, ["-L"]) == [
      "-X", "security.protocol=ssl", "-X", "ssl.ca.location=/dev/fd/3",
      "-X", "ssl.certificate.location=/dev/fd/4", "-X", "ssl.key.location=/dev/fd/5", "-L"]
  {
    assert ComposeArgs(env, ["-L"]) == SslArgs() + ["-L"];
  }
}
