/**
 * TestSshCommandImpl: a test-framework entity that runs one shell command, or one
 * downloaded script, on its target's SSH machine and records the outcome in its
 * SERVICE_UP sensor and expected lifecycle state. The SSH calls, the machine
 * lookup, URL parsing, the random id and the assertion checks on the result are
 * outside this model and arrive as parameters.
 */
module SshCommand {
  import opened Outcomes
  import opened Text

  /** DEFAULT_NAME: the script name used when the URL path names no file. */
  const DEFAULT_NAME := "download.sh"

  /** The lifecycle states this entity sets as its expected state. */
  datatype Lifecycle = STARTING | RUNNING | ON_FIRE | STOPPED

  /** One assertion map (for example {equals: 0}) as given in the entity's configuration. */
  datatype Assertion = Assertion(conditions: map<string, string>)

  /** DEFAULT_ASSERTION, declared by the TestSshCommand interface: the exit code must be 0. */
  const DEFAULT_ASSERTION := Assertion(map["equals" := "0"])

  /** What execute() can throw. */
  datatype Failure =
    | IllegalArgument(message: string)  // from illegal(...)
    | NullPointer                       // Joiner.join on a null script directory
    | NoMachineLocation                 // the target has no unique SSH machine
    | RemoteFailure                     // download, command or assertion check failed on the machine

  /** The entity's configuration, as getConfig returns it (None for null). */
  datatype Config = Config(
    downloadUrl: Option<string>,
    command: Option<string>,
    runDir: Option<string>,
    scriptDir: Option<string>,
    shellEnvironment: Option<map<string, string>>,
    assertStatus: seq<Assertion>,
    assertOut: seq<Assertion>,
    assertErr: seq<Assertion>)

  /** A script to fetch before running: SshTasks.installFromUrl(url, scriptPath). */
  datatype Install = Install(url: string, scriptPath: string)

  /** Everything executeCommand hands to the machine: an optional install, the command list and the environment. */
  datatype CommandPlan = CommandPlan(install: Option<Install>, commands: seq<string>, env: map<string, string>)

  /** illegal(message, messages...): the entity's name and a colon, the message and the extra words, joined by spaces. */
  function Illegal(self: string, message: string, messages: seq<string>): (e: Failure)
    ensures e.IllegalArgument?
    ensures |e.message| >= |self| + 2 + |message|
    ensures e.message[..|self| + 2 + |message|] == self + ": " + message
  {
    var parts := [self + ":", message] + messages;
    JoinPrefix(parts, ' ');
    assert parts[1..][0] == message;
    JoinPrefix(parts[1..], ' ');
    IllegalArgument(Join(parts, ' '))
  }

  lemma JoinPrefix(parts: seq<string>, sep: char)
    requires |parts| > 0
    ensures |Join(parts, sep)| >= |parts[0]|
    ensures Join(parts, sep)[..|parts[0]|] == parts[0]
    ensures |parts| > 1 ==> Join(parts, sep) == parts[0] + [sep] + Join(parts[1..], sep)
  {
  }

  /** maybeCdToRunDirCmd: "cd <runDir>" when a run directory is set, nothing otherwise. */
  function MaybeCdToRunDirCmd(runDir: Option<string>): (cmds: seq<string>)
    ensures IsNonBlank(runDir) ==> cmds == ["cd " + runDir.value]
    ensures IsBlank(runDir) <==> cmds == []
  {
    if !IsBlank(runDir) then ["cd " + runDir.value] else []
  }

  /** The command list of executeShellCommand: the optional cd, then the command itself. */
  function ShellCommands(runDir: Option<string>, command: string): (cmds: seq<string>)
    ensures |cmds| == (if IsBlank(runDir) then 1 else 2)
    ensures cmds[|cmds| - 1] == command
    ensures cmds[..|cmds| - 1] == MaybeCdToRunDirCmd(runDir)
  {
    MaybeCdToRunDirCmd(runDir) + [command]
  }

  /** The command list of executeDownloadedScript: make the script executable, the optional cd, then run the script. */
  function ScriptCommands(runDir: Option<string>, scriptPath: string): (cmds: seq<string>)
    ensures |cmds| == (if IsBlank(runDir) then 2 else 3)
    ensures cmds[0] == "chmod u+x " + scriptPath
    ensures cmds[|cmds| - 1] == scriptPath
    ensures cmds[1..|cmds| - 1] == MaybeCdToRunDirCmd(runDir)
  {
    ["chmod u+x " + scriptPath] + MaybeCdToRunDirCmd(runDir) + [scriptPath]
  }

  /**
   * exitCodeAssertions: the configured exit-code assertions, or the default
   * "exit code is 0" when no assertion at all is configured.
   */
  function ExitCodeAssertions(assertStatus: seq<Assertion>, assertOut: seq<Assertion>, assertErr: seq<Assertion>): (r: seq<Assertion>)
    ensures assertStatus == [] && assertOut == [] && assertErr == [] ==> r == [DEFAULT_ASSERTION]
    ensures assertStatus != [] || assertOut != [] || assertErr != [] ==> r == assertStatus
  {
    if assertStatus == [] && assertOut == [] && assertErr == [] then [DEFAULT_ASSERTION] else assertStatus
  }

  /**
   * The exit code goes unchecked only when the configuration asserts on stdout or
   * stderr and sets no exit-code assertion; a configuration with no assertions
   * checks for exit code 0.
   */
  lemma ExitCodeUncheckedOnlyWithOutputAssertions(assertStatus: seq<Assertion>, assertOut: seq<Assertion>, assertErr: seq<Assertion>)
    ensures ExitCodeAssertions(assertStatus, assertOut, assertErr) == []
        <==> assertStatus == [] && (assertOut != [] || assertErr != [])
    ensures DEFAULT_ASSERTION in ExitCodeAssertions(assertStatus, assertOut, assertErr)
        <== (assertStatus == [] && assertOut == [] && assertErr == []) || DEFAULT_ASSERTION in assertStatus
  {
  }

  /** getLastPartOfPath, specified from the end of the path: the last non-blank part, else the default. */
  function LastPartOfPath(path: seq<string>, defaultName: string): string
    decreases |path|
  {
    if path == [] then defaultName
    else if !IsBlankText(path[|path| - 1]) then path[|path| - 1]
    else LastPartOfPath(path[..|path| - 1], defaultName)
  }

  /**
   * The script name is the last part of the path that is not blank (trailing "/"
   * give blank parts, which are skipped); when every part is blank, or there is
   * none, it is the default name.
   */
  lemma {:induction false} LastPartOfPathIsLastNonBlank(path: seq<string>, defaultName: string, k: int)
    requires -1 <= k < |path|
    requires k >= 0 ==> !IsBlankText(path[k])
    requires forall j :: k < j < |path| ==> IsBlankText(path[j])
    ensures LastPartOfPath(path, defaultName) == if k >= 0 then path[k] else defaultName
    decreases |path|
  {
    if path != [] && k < |path| - 1 {
      var init := path[..|path| - 1];
      assert forall j :: k < j < |init| ==> init[j] == path[j];
      LastPartOfPathIsLastNonBlank(init, defaultName, k);
    }
  }

  /**
   * getLastPartOfPath as the source runs it: reverse a copy of the parts, then take
   * parts from the front while the name taken so far is blank.
   */
  method GetLastPartOfPath(path: seq<string>, defaultName: string) returns (scriptName: string)
    ensures scriptName == LastPartOfPath(path, defaultName)
  {
    var parts := Reversed(path);
    var name: Option<string> := None;
    var i := 0;
    while IsBlank(name) && i < |parts|
      invariant 0 <= i <= |parts|
      invariant i == 0 <==> name == None
      invariant i > 0 ==> name == Some(parts[i - 1])
      invariant forall j :: 0 <= j < i - 1 ==> IsBlankText(parts[j])
    {
      name := Some(parts[i]);
      i := i + 1;
    }
    assert forall j :: 0 <= j < |path| ==> path[j] == parts[|path| - 1 - j];
    if IsBlank(name) {
      scriptName := defaultName;
      LastPartOfPathIsLastNonBlank(path, defaultName, -1);
    } else {
      scriptName := name.value;
      LastPartOfPathIsLastNonBlank(path, defaultName, |path| - i);
    }
  }

  /** Collections.reverse applied to a copy of the list. */
  function Reversed(s: seq<string>): (r: seq<string>)
    ensures |r| == |s| && forall i :: 0 <= i < |s| ==> r[i] == s[|s| - 1 - i]
  {
    seq(|s|, i requires 0 <= i < |s| => s[|s| - 1 - i])
  }

  /** The destination of a downloaded script: <directory>/test-<id>/<script name from the URL path>. */
  function DestPath(directory: string, randomId: string, urlPath: string): string {
    Join([directory, "test-" + randomId, LastPartOfPath(SplitAll(urlPath, '/'), DEFAULT_NAME)], '/')
  }

  /**
   * calculateDestPath: urlPath is the path of the parsed URL, None when the URL is
   * malformed; randomId stands for Identifiers.makeRandomId(8).
   */
  method CalculateDestPath(self: string, url: string, urlPath: Option<string>, directory: Option<string>, randomId: string)
    returns (r: Result<string, Failure>)
    ensures urlPath.None? ==> r == Err(Illegal(self, "Malformed URL:", [url]))
    ensures urlPath.Some? && directory.None? ==> r == Err(NullPointer)
    ensures urlPath.Some? && directory.Some? ==> r == Ok(DestPath(directory.value, randomId, urlPath.value))
  {
    if urlPath.None? {
      return Err(Illegal(self, "Malformed URL:", [url]));
    }
    var path := SplitAll(urlPath.value, '/');
    var scriptName := GetLastPartOfPath(path, DEFAULT_NAME);
    if directory.None? {
      return Err(NullPointer);
    }
    r := Ok(Join([directory.value, "test-" + randomId, scriptName], '/'));
  }

  /**
   * The destination path splits into the directory's own parts, then "test-<id>",
   * then a script name that is a part of the URL path or the default name; it is
   * never blank (the default name is not).
   */
  lemma DestPathParts(directory: string, randomId: string, urlPath: string)
    requires '/' !in randomId
    ensures var name := LastPartOfPath(SplitAll(urlPath, '/'), DEFAULT_NAME);
      && SplitAll(DestPath(directory, randomId, urlPath), '/') == SplitAll(directory, '/') + ["test-" + randomId, name]
      && !IsBlankText(name)
      && (name == DEFAULT_NAME || name in SplitAll(urlPath, '/'))
  {
    var path := SplitAll(urlPath, '/');
    var name := LastPartOfPath(path, DEFAULT_NAME);
    NameFromPathOrDefault(path);
    var t := "test-" + randomId;
    assert '/' !in t by {
      assert '/' !in "test-";
    }
    assert Join([t, name], '/') == t + ['/'] + name by {
      assert [t, name][1..] == [name];
    }
    assert DestPath(directory, randomId, urlPath) == directory + ['/'] + Join([t, name], '/') by {
      assert [directory, t, name][1..] == [t, name];
    }
    SplitAllJoin([t, name], '/');
    SplitAllAppend(directory, Join([t, name], '/'));
  }

  lemma {:induction false} NameFromPathOrDefault(path: seq<string>)
    requires forall i :: 0 <= i < |path| ==> '/' !in path[i]
    ensures var name := LastPartOfPath(path, DEFAULT_NAME);
      '/' !in name && !IsBlankText(name) && (name == DEFAULT_NAME || name in path)
    decreases |path|
  {
    assert !IsWhitespace(DEFAULT_NAME[0]);
    assert '/' !in DEFAULT_NAME;
    if path != [] && IsBlankText(path[|path| - 1]) {
      NameFromPathOrDefault(path[..|path| - 1]);
    }
  }

  /** Splitting "a/b" splits a, and b's parts continue after a's last part. */
  lemma {:induction false} SplitAllAppend(a: string, b: string)
    ensures SplitAll(a + ['/'] + b, '/') ==
      SplitAll(a, '/')[..|SplitAll(a, '/')| - 1] + [SplitAll(a, '/')[|SplitAll(a, '/')| - 1]] + SplitAll(b, '/')
    decreases |a|
  {
    var s := a + ['/'] + b;
    if |a| == 0 {
      assert s[0] == '/' && s[1..] == b;
    } else {
      assert s[0] == a[0] && s[1..] == a[1..] + ['/'] + b;
      SplitAllAppend(a[1..], b);
    }
  }

  /** The shell environment as executeCommand uses it: a null SHELL_ENVIRONMENT is the empty map. */
  function Environment(cfg: Config): (env: map<string, string>)
    ensures cfg.shellEnvironment.None? ==> env == map[]
    ensures cfg.shellEnvironment.Some? ==> env == cfg.shellEnvironment.value
  {
    if cfg.shellEnvironment.None? then map[] else cfg.shellEnvironment.value
  }

  /**
   * executeCommand up to the SSH calls: check that exactly one of the download URL
   * and the command is set, then build what runs on the machine. downloadKey and
   * commandKey are the names of the DOWNLOAD_URL and COMMAND config keys.
   */
  function Plan(self: string, cfg: Config, downloadKey: string, commandKey: string, urlPath: Option<string>, randomId: string)
    : Result<CommandPlan, Failure>
  {
    var env := Environment(cfg);
    if IsNonBlank(cfg.downloadUrl) == IsNonBlank(cfg.command) then
      Err(Illegal(self, "Must specify exactly one of", [downloadKey, "and", commandKey]))
    else if IsNonBlank(cfg.downloadUrl) then
      if urlPath.None? then Err(Illegal(self, "Malformed URL:", [cfg.downloadUrl.value]))
      else if cfg.scriptDir.None? then Err(NullPointer)
      else
        var scriptPath := DestPath(cfg.scriptDir.value, randomId, urlPath.value);
        Ok(CommandPlan(Some(Install(cfg.downloadUrl.value, scriptPath)), ScriptCommands(cfg.runDir, scriptPath), env))
    else
      Ok(CommandPlan(None, ShellCommands(cfg.runDir, cfg.command.value), env))
  }

  /**
   * The configuration is rejected with "Must specify exactly one of ..." exactly
   * when the download URL and the command are both set or both unset (null or
   * blank); no other failure carries that message.
   */
  lemma ExactlyOneOfUrlAndCommand(self: string, cfg: Config, downloadKey: string, commandKey: string, urlPath: Option<string>, randomId: string)
    ensures Plan(self, cfg, downloadKey, commandKey, urlPath, randomId) == Err(Illegal(self, "Must specify exactly one of", [downloadKey, "and", commandKey]))
        <==> (IsNonBlank(cfg.downloadUrl) <==> IsNonBlank(cfg.command))
  {
    var mustSpecify := Illegal(self, "Must specify exactly one of", [downloadKey, "and", commandKey]);
    if IsNonBlank(cfg.downloadUrl) && !IsNonBlank(cfg.command) && urlPath.None? {
      var malformed := Illegal(self, "Malformed URL:", [cfg.downloadUrl.value]);
      assert mustSpecify.message[|self| + 3] == 'u';
      assert malformed.message[|self| + 3] == 'a';
    }
  }

  /**
   * A valid configuration runs exactly one payload, last: the downloaded script
   * (fetched first, to its destination path, and made executable) when the
   * download URL is set, the command otherwise; the only command before the
   * payload other than chmod is the optional cd; a null environment becomes empty.
   */
  lemma PlanRunsPayloadLast(self: string, cfg: Config, downloadKey: string, commandKey: string, urlPath: Option<string>, randomId: string)
    requires Plan(self, cfg, downloadKey, commandKey, urlPath, randomId).Ok?
    ensures var p := Plan(self, cfg, downloadKey, commandKey, urlPath, randomId).value;
      && (IsNonBlank(cfg.downloadUrl) <==> !IsNonBlank(cfg.command))
      && (p.install.Some? <==> IsNonBlank(cfg.downloadUrl))
      && (p.install.Some? ==>
            && p.install.value.url == cfg.downloadUrl.value
            && p.commands == ["chmod u+x " + p.install.value.scriptPath] + MaybeCdToRunDirCmd(cfg.runDir) + [p.install.value.scriptPath])
      && (p.install.None? ==> p.commands == MaybeCdToRunDirCmd(cfg.runDir) + [cfg.command.value])
      && p.env == (if cfg.shellEnvironment.None? then map[] else cfg.shellEnvironment.value)
  {
  }

  /**
   * What execute() ends with: the failure it rethrows, the first of no machine, a
   * rejected configuration and a failure on the machine; otherwise the plan that ran.
   */
  function ExecuteOutcome(machineFound: bool, plan: Result<CommandPlan, Failure>, runOnMachine: CommandPlan -> bool)
    : (r: Result<CommandPlan, Failure>)
    ensures r.Ok? <==> machineFound && plan.Ok? && runOnMachine(plan.value)
    ensures r.Ok? ==> r == plan
    ensures !machineFound ==> r == Err(NoMachineLocation)
    ensures machineFound && plan.Err? ==> r == plan
    ensures machineFound && plan.Ok? && !runOnMachine(plan.value) ==> r == Err(RemoteFailure)
  {
    if !machineFound then Err(NoMachineLocation)
    else if plan.Err? then Err(plan.error)
    else if !runOnMachine(plan.value) then Err(RemoteFailure)
    else Ok(plan.value)
  }

  /** The entity: its configuration, and the sensor and expected state it writes. */
  class TestSshCommand {
    /** toString(), the prefix of every IllegalArgumentException message. */
    const name: string
    const config: Config
    /** The names of the DOWNLOAD_URL and COMMAND config keys. */
    const downloadKey: string
    const commandKey: string

    /** The SERVICE_UP sensor (None until first set). */
    var serviceUp: Option<bool>
    /** The expected lifecycle state (None until first set). */
    var expectedState: Option<Lifecycle>
    /** Every expected state set so far, oldest first. */
    ghost var stateHistory: seq<Lifecycle>

    /** The sensor agrees with the expected state once the entity has settled: up exactly when RUNNING. */
    ghost predicate Settled()
      reads this
    {
      expectedState.Some? && expectedState.value != STARTING && serviceUp == Some(expectedState.value == RUNNING)
    }

    constructor (name: string, config: Config, downloadKey: string, commandKey: string)
      ensures this.name == name && this.config == config
      ensures this.downloadKey == downloadKey && this.commandKey == commandKey
      ensures serviceUp == None && expectedState == None && stateHistory == []
    {
      this.name := name;
      this.config := config;
      this.downloadKey := downloadKey;
      this.commandKey := commandKey;
      serviceUp := None;
      expectedState := None;
      stateHistory := [];
    }

    /** ServiceStateLogic.setExpectedState. */
    method SetExpectedState(status: Lifecycle)
      modifies this
      ensures expectedState == Some(status) && serviceUp == old(serviceUp)
      ensures stateHistory == old(stateHistory) + [status]
    {
      expectedState := Some(status);
      stateHistory := stateHistory + [status];
    }

    /** setUpAndRunState: set SERVICE_UP, then the expected state. */
    method SetUpAndRunState(up: bool, status: Lifecycle)
      modifies this
      ensures serviceUp == Some(up) && expectedState == Some(status)
      ensures stateHistory == old(stateHistory) + [status]
    {
      serviceUp := Some(up);
      SetExpectedState(status);
    }

    /** executeCommand without the SSH calls: what it would run, or what it throws first. */
    method ExecuteCommand(urlPath: Option<string>, randomId: string) returns (r: Result<CommandPlan, Failure>)
      ensures r == Plan(name, config, downloadKey, commandKey, urlPath, randomId)
    {
      var downloadUrl := config.downloadUrl;
      var command := config.command;
      var env := Environment(config);
      if IsNonBlank(downloadUrl) == IsNonBlank(command) {
        return Err(Illegal(name, "Must specify exactly one of", [downloadKey, "and", commandKey]));
      }
      if IsNonBlank(downloadUrl) {
        var scriptPath := CalculateDestPath(name, downloadUrl.value, urlPath, config.scriptDir, randomId);
        if scriptPath.Err? {
          return Err(scriptPath.error);
        }
        var commands := ScriptCommands(config.runDir, scriptPath.value);
        r := Ok(CommandPlan(Some(Install(downloadUrl.value, scriptPath.value)), commands, env));
      }
      if IsNonBlank(command) {
        r := Ok(CommandPlan(None, ShellCommands(config.runDir, command.value), env));
      }
    }

    /**
     * execute: find the target's machine, run the command there and check the
     * result; RUNNING and up on success, ON_FIRE and down on any failure, which is
     * rethrown. machineFound stands for Machines.findUniqueMachineLocation,
     * runOnMachine for the install, the SSH run and the assertion checks.
     */
    method Execute(machineFound: bool, urlPath: Option<string>, randomId: string, runOnMachine: CommandPlan -> bool)
      returns (outcome: Result<CommandPlan, Failure>)
      modifies this
      ensures outcome == ExecuteOutcome(machineFound, Plan(name, config, downloadKey, commandKey, urlPath, randomId), runOnMachine)
      ensures outcome.Ok? ==> serviceUp == Some(true) && expectedState == Some(RUNNING)
      ensures outcome.Err? ==> serviceUp == Some(false) && expectedState == Some(ON_FIRE)
      ensures Settled()
      ensures stateHistory == old(stateHistory) + [if outcome.Ok? then RUNNING else ON_FIRE]
    {
      if !machineFound {
        outcome := Err(NoMachineLocation);
      } else {
        var plan := ExecuteCommand(urlPath, randomId);
        if plan.Err? {
          outcome := Err(plan.error);
        } else if !runOnMachine(plan.value) {
          outcome := Err(RemoteFailure);
        } else {
          outcome := Ok(plan.value);
        }
      }
      if outcome.Ok? {
        SetUpAndRunState(true, RUNNING);
      } else {
        SetUpAndRunState(false, ON_FIRE);
      }
    }

    /** start: expected state STARTING, then execute. */
    method Start(machineFound: bool, urlPath: Option<string>, randomId: string, runOnMachine: CommandPlan -> bool)
      returns (outcome: Result<CommandPlan, Failure>)
      modifies this
      ensures outcome == ExecuteOutcome(machineFound, Plan(name, config, downloadKey, commandKey, urlPath, randomId), runOnMachine)
      ensures outcome.Ok? <==> machineFound && Plan(name, config, downloadKey, commandKey, urlPath, randomId).Ok?
                                && runOnMachine(Plan(name, config, downloadKey, commandKey, urlPath, randomId).value)
      ensures serviceUp == Some(outcome.Ok?) && expectedState == Some(if outcome.Ok? then RUNNING else ON_FIRE)
      ensures Settled()
      ensures stateHistory == old(stateHistory) + [STARTING, if outcome.Ok? then RUNNING else ON_FIRE]
    {
      SetExpectedState(STARTING);
      outcome := Execute(machineFound, urlPath, randomId, runOnMachine);
    }

    /** restart: execute again. */
    method Restart(machineFound: bool, urlPath: Option<string>, randomId: string, runOnMachine: CommandPlan -> bool)
      returns (outcome: Result<CommandPlan, Failure>)
      modifies this
      ensures outcome == ExecuteOutcome(machineFound, Plan(name, config, downloadKey, commandKey, urlPath, randomId), runOnMachine)
      ensures outcome.Ok? <==> machineFound && Plan(name, config, downloadKey, commandKey, urlPath, randomId).Ok?
                                && runOnMachine(Plan(name, config, downloadKey, commandKey, urlPath, randomId).value)
      ensures serviceUp == Some(outcome.Ok?) && expectedState == Some(if outcome.Ok? then RUNNING else ON_FIRE)
      ensures Settled()
      ensures stateHistory == old(stateHistory) + [if outcome.Ok? then RUNNING else ON_FIRE]
    {
      outcome := Execute(machineFound, urlPath, randomId, runOnMachine);
    }

    /** stop: down and STOPPED; nothing runs on the machine. */
    method Stop()
      modifies this
      ensures serviceUp == Some(false) && expectedState == Some(STOPPED)
      ensures Settled()
      ensures stateHistory == old(stateHistory) + [STOPPED]
    {
      SetUpAndRunState(false, STOPPED);
    }
  }
}
