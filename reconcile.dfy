/**
 The reconciliation layer of ct.rb as functions over an abstract host: the
 files on disk, the package manager's installed and outdated lists, the log
 of commands run through `Kernel.system`, the log of predicate commands run
 through backticks, and the lines put on the terminal. Each declarer
 (`file`, `script`, `package`) and each step it is built from is a function
 from the host before the call to the host after it; the class in module Ct
 runs the same steps in place and is proved against these functions.
 */
module Reconcile {

  import opened Text

  datatype Tag = Do | Skip

  /** A line on the terminal: an `info` notice ("[DO] …" or "[SKIP] …") or plain output. */
  datatype Line = Notice(tag: Tag, text: string) | Out(text: string)

  datatype State = State(
    files: map<string, string>,   // a path that is not a key does not exist
    installed: set<string>,       // what `brew list` prints, one name per line
    outdated: set<string>,        // what `brew outdated` prints, one name per line
    executed: seq<string>,        // commands run by `sh_out` through `Kernel.system`
    queried: seq<string>,         // commands run by `sh_exitstatus` through backticks
    output: seq<Line>)

  /** A declarer call that raised an exception stops the script after it. */
  datatype Outcome = Outcome(state: State, raised: bool)

  /**
   The exit status of a predicate command other than the two package-list
   queries, run on the live host: it may depend on the files, the package
   lists and the commands run so far.
   */
  type Shell = (State, string) -> bool

  /**
   The settings every declarer reads: the no-op flag, written once from the
   command line and never again, and the two external tools the declarers
   consult: the diff of two texts, and the exit status of a shell command
   other than the two package-list queries.
   */
  datatype Config = Config(noop: bool, diff: (string, string) -> string, shell: Shell)

  /** The assumption made of the external diff tool: its output is empty exactly when the two texts are equal. */
  ghost predicate DiffContract(diff: (string, string) -> string)
  {
    forall a, b :: diff(a, b) == "" <==> a == b
  }

  /** The assumption can be met, so what is proved under it is not vacuous: a diff that reports any change will do. */
  lemma DiffContractSatisfiable()
    ensures exists diff :: DiffContract(diff)
  {
    var diff := (a: string, b: string) => if a == b then "" else "changed";
    assert DiffContract(diff);
  }

  /** What no-op mode protects: the files, the package lists and the log of executed commands. */
  predicate SameHost(a: State, b: State)
  {
    a.files == b.files && a.installed == b.installed && a.outdated == b.outdated && a.executed == b.executed
  }

  /** What `file` reads at `path`: the content of the file, or "" when it does not exist. */
  function Content(files: map<string, string>, path: string): string
  {
    if path in files then files[path] else ""
  }

  // ---------------------------------------------------------------------------
  // Command strings, and how the host answers them

  const InstallPrefix := "brew install "
  const UpgradePrefix := "brew upgrade "
  const ListQueryPrefix := "brew list | grep -q -e '^"
  const OutdatedQueryPrefix := "brew outdated | grep -q -e '^"
  const QuerySuffix := "$'"

  function InstallCommand(name: string): string { InstallPrefix + name }
  function UpgradeCommand(name: string): string { UpgradePrefix + name }
  function InstalledQuery(name: string): string { ListQueryPrefix + name + QuerySuffix }
  function OutdatedQuery(name: string): string { OutdatedQueryPrefix + name + QuerySuffix }

  /** The `arg` of a command written `prefix + arg + suffix`, if it has that form. */
  function Argument(cmd: string, prefix: string, suffix: string): (r: Option<string>)
    ensures r.Some? ==> cmd == prefix + r.value + suffix
  {
    if |prefix| + |suffix| <= |cmd| && cmd[..|prefix|] == prefix && cmd[|cmd| - |suffix|..] == suffix
    then
      var arg := cmd[|prefix|..|cmd| - |suffix|];
      assert cmd == cmd[..|prefix|] + arg + cmd[|cmd| - |suffix|..];
      Some(arg)
    else None
  }

  /**
   `sh_exitstatus(cmd)`: whether the command exits with status 0. The two
   package-list queries grep for a whole line equal to the name, so they
   succeed exactly when the name is in the list; every other command is
   answered by the shell oracle, run on the host as it is now.
   */
  function Succeeds(s: State, shell: Shell, cmd: string): bool
  {
    match Argument(cmd, ListQueryPrefix, QuerySuffix)
    case Some(name) => name in s.installed
    case None =>
      match Argument(cmd, OutdatedQueryPrefix, QuerySuffix)
      case Some(name) => name in s.outdated
      case None => shell(s, cmd)
  }

  /** Running a predicate command is recorded; it changes nothing else. */
  function Query(s: State, cmd: string): (r: State)
    ensures SameHost(r, s) && r.output == s.output
    ensures r.queried == s.queried + [cmd]
  {
    s.(queried := s.queried + [cmd])
  }

  /**
   `Kernel.system(cmd)`: the command is run. The package manager's effect is
   assumed: `brew install n` leaves `n` installed and current, `brew upgrade n`
   leaves `n` current. Any other command is assumed to leave the files and the
   package lists alone.
   */
  function Execute(s: State, cmd: string): (r: State)
    ensures r.executed == s.executed + [cmd]
    ensures r.files == s.files && r.queried == s.queried && r.output == s.output
  {
    var logged := s.(executed := s.executed + [cmd]);
    match Argument(cmd, InstallPrefix, "")
    case Some(name) => logged.(installed := s.installed + {name}, outdated := s.outdated - {name})
    case None =>
      match Argument(cmd, UpgradePrefix, "")
      case Some(name) => logged.(outdated := s.outdated - {name})
      case None => logged
  }

  // ---------------------------------------------------------------------------
  // The steps of ct.rb

  /** `info`: one notice line. */
  function Info(s: State, tag: Tag, text: string): (r: State)
    ensures SameHost(r, s) && r.queried == s.queried
    ensures r.output == s.output + [Notice(tag, text)]
  {
    s.(output := s.output + [Notice(tag, text)])
  }

  /** `_write_file`: nothing at all in no-op mode; otherwise the file holds `content`, and nothing else changes. */
  function WriteFile(s: State, noop: bool, path: string, content: string): (r: State)
    ensures noop ==> r == s
    ensures !noop ==> path in r.files && r.files[path] == content
    ensures forall p :: p != path ==> Content(r.files, p) == Content(s.files, p) && (p in r.files <==> p in s.files)
    ensures r.(files := s.files) == s
  {
    if noop then s else s.(files := s.files[path := content])
  }

  function Printed(lines: seq<string>): seq<Line>
  {
    seq(|lines|, i requires 0 <= i < |lines| => Out(lines[i]))
  }

  /**
   `sh_out`: the command is always printed, and run only outside no-op mode.
   Printing raises (after the `{` line) for a command of newlines only or one
   indented by more than `MaxRepeat` spaces, and then nothing is run.
   */
  function ShOut(s: State, noop: bool, commands: string): (o: Outcome)
    ensures o.raised <==> PrintRaises(commands)
    ensures noop ==> SameHost(o.state, s)
    ensures o.state.executed == s.executed + (if noop || o.raised then [] else [commands])
    ensures o.state.files == s.files && o.state.queried == s.queried
    ensures |s.output| < |o.state.output| && o.state.output[..|s.output|] == s.output
    ensures o.state.output[|s.output|] == Out("{")
    ensures !o.raised ==> o.state.output[|o.state.output| - 1] == Out("}")
  {
    PrintScriptFails(commands);
    match PrintScript(commands)
    case None => Outcome(s.(output := s.output + [Out("{")]), true)
    case Some(lines) =>
      var printed := s.(output := s.output + Printed(lines));
      Outcome(if noop then printed else Execute(printed, commands), false)
  }

  /** `file`: a missing file reads as empty; the file is written exactly when the diff is not empty. */
  function File(s: State, c: Config, path: string, content: string): (r: State)
    ensures c.noop ==> SameHost(r, s)
    ensures r.executed == s.executed && r.installed == s.installed && r.outdated == s.outdated && r.queried == s.queried
    ensures r.files == if !c.noop && c.diff(Content(s.files, path), content) != "" then s.files[path := content] else s.files
  {
    var original := Content(s.files, path);
    var diffText := c.diff(original, content);
    if diffText != "" then
      var logged := Info(s, Do, "Write " + path);
      WriteFile(logged.(output := logged.output + [Out(diffText)]), c.noop, path, content)
    else
      Info(s, Skip, "Write " + path)
  }

  /** `script`: the command is handed to `sh_out` only when the gate is true. */
  function Script(s: State, noop: bool, description: string, shouldRun: bool, commands: string): (o: Outcome)
    ensures noop ==> SameHost(o.state, s)
    ensures !shouldRun ==> !o.raised && SameHost(o.state, s)
    ensures o.raised <==> shouldRun && PrintRaises(commands)
    ensures o.state.executed == s.executed + (if shouldRun && !noop && !o.raised then [commands] else [])
    ensures |o.state.output| > |s.output|
    ensures o.state.output[|s.output|] == Notice(if shouldRun then Do else Skip, description)
  {
    if shouldRun then ShOut(Info(s, Do, description), noop, commands)
    else Outcome(Info(s, Skip, description), false)
  }

  /** `_install` */
  function Install(s: State, noop: bool, name: string): (r: State)
    ensures noop ==> SameHost(r, s)
    ensures r.executed == s.executed + (if noop then [] else [InstallCommand(name)])
    ensures !noop ==> name in r.installed && name !in r.outdated
    ensures r.files == s.files && r.queried == s.queried
    ensures |s.output| < |r.output| && r.output[..|s.output|] == s.output
  {
    var cmd := InstallCommand(name);
    assert cmd[0] == 'b';
    assert Argument(cmd, InstallPrefix, "") == Some(name) by {
      assert cmd == InstallPrefix + name + "";
    }
    ShOut(s, noop, cmd).state
  }

  /** `_upgrade` */
  function Upgrade(s: State, noop: bool, name: string): (r: State)
    ensures noop ==> SameHost(r, s)
    ensures r.executed == s.executed + (if noop then [] else [UpgradeCommand(name)])
    ensures !noop ==> name !in r.outdated
    ensures r.installed == s.installed
    ensures r.files == s.files && r.queried == s.queried
    ensures |s.output| < |r.output| && r.output[..|s.output|] == s.output
  {
    var cmd := UpgradeCommand(name);
    assert cmd[0] == 'b';
    assert cmd[5] == 'u';
    assert Argument(cmd, InstallPrefix, "").None?;
    assert Argument(cmd, UpgradePrefix, "") == Some(name) by {
      assert cmd == UpgradePrefix + name + "";
    }
    ShOut(s, noop, cmd).state
  }

  /** `package`: install when missing, upgrade when installed and outdated, skip otherwise. */
  function Package(s: State, c: Config, name: string): (r: State)
    ensures c.noop ==> SameHost(r, s)
    ensures !c.noop ==> name in r.installed && name !in r.outdated
    ensures r.files == s.files && s.executed <= r.executed
    ensures |r.output| > |s.output| && r.output[..|s.output|] == s.output
  {
    InstalledQueryIsMembership(s, c.shell, name);
    OutdatedQueryIsMembership(Query(s, InstalledQuery(name)), c.shell, name);
    var s1 := Query(s, InstalledQuery(name));
    if Succeeds(s, c.shell, InstalledQuery(name)) then
      var s2 := Query(s1, OutdatedQuery(name));
      if Succeeds(s1, c.shell, OutdatedQuery(name)) then
        Upgrade(Info(s2, Do, "Upgrade " + name), c.noop, name)
      else
        Info(s2, Skip, "Install " + name)
    else
      Install(Info(s1, Do, "Install " + name), c.noop, name)
  }

  // ---------------------------------------------------------------------------
  // The package manager's answers

  /** The installed query succeeds exactly when the name is in the installed list. */
  lemma InstalledQueryIsMembership(s: State, shell: Shell, name: string)
    ensures Succeeds(s, shell, InstalledQuery(name)) == (name in s.installed)
  {
    var cmd := InstalledQuery(name);
    assert Argument(cmd, ListQueryPrefix, QuerySuffix) == Some(name) by {
      assert cmd == ListQueryPrefix + name + QuerySuffix;
    }
  }

  /** The outdated query succeeds exactly when the name is in the outdated list. */
  lemma OutdatedQueryIsMembership(s: State, shell: Shell, name: string)
    ensures Succeeds(s, shell, OutdatedQuery(name)) == (name in s.outdated)
  {
    var cmd := OutdatedQuery(name);
    assert cmd[5] == 'o';
    assert Argument(cmd, ListQueryPrefix, QuerySuffix).None?;
    assert Argument(cmd, OutdatedQueryPrefix, QuerySuffix) == Some(name) by {
      assert cmd == OutdatedQueryPrefix + name + QuerySuffix;
    }
  }

  /**
   A predicate command runs on the live host: a `test -e p` whose shell answers
   by the files fails before `file(p, "x")` and succeeds after it.
   */
  lemma QuerySeesWrite(s: State, c: Config, p: string)
    requires DiffContract(c.diff) && !c.noop && p !in s.files
    requires forall h: State :: c.shell(h, "test -e " + p) == (p in h.files)
    ensures !Succeeds(s, c.shell, "test -e " + p)
    ensures Succeeds(File(s, c, p, "x"), c.shell, "test -e " + p)
  {
    var cmd := "test -e " + p;
    assert cmd[0] == 't';
    assert Argument(cmd, ListQueryPrefix, QuerySuffix).None?;
    assert Argument(cmd, OutdatedQueryPrefix, QuerySuffix).None?;
    assert c.diff("", "x") != "";
  }

  // ---------------------------------------------------------------------------
  // package

  /** The three states a package can be in, as `package` tells them apart. */
  datatype Action = InstallIt | UpgradeIt | KeepIt

  function Classify(installed: set<string>, outdated: set<string>, name: string): (a: Action)
    ensures a == InstallIt <==> name !in installed
    ensures a == UpgradeIt <==> name in installed && name in outdated
    ensures a == KeepIt <==> name in installed && name !in outdated
  {
    if name !in installed then InstallIt
    else if name in outdated then UpgradeIt
    else KeepIt
  }

  /** The commands an action runs outside no-op mode. */
  function Commands(a: Action, name: string): seq<string>
  {
    match a
    case InstallIt => [InstallCommand(name)]
    case UpgradeIt => [UpgradeCommand(name)]
    case KeepIt => []
  }

  /**
   One call of `package` takes exactly the branch its classification names: it
   runs that branch's command (none in no-op mode), prints that branch's notice,
   and asks whether the package is outdated only when it is installed.
   */
  lemma PackageFollowsClassification(s: State, c: Config, name: string)
    ensures var r := Package(s, c, name);
      var a := Classify(s.installed, s.outdated, name);
      && r.executed == s.executed + (if c.noop then [] else Commands(a, name))
      && r.queried == s.queried + [InstalledQuery(name)] + (if name in s.installed then [OutdatedQuery(name)] else [])
      && r.output[|s.output|] == (match a
                                   case InstallIt => Notice(Do, "Install " + name)
                                   case UpgradeIt => Notice(Do, "Upgrade " + name)
                                   case KeepIt => Notice(Skip, "Install " + name))
      && r.files == s.files
  {
    InstalledQueryIsMembership(s, c.shell, name);
    var s1 := Query(s, InstalledQuery(name));
    OutdatedQueryIsMembership(s1, c.shell, name);
  }

  /**
   Outside no-op mode a package is installed and current after `package`, so a
   second call runs nothing and prints a skip.
   */
  lemma PackageConverges(s: State, c: Config, name: string)
    requires !c.noop
    ensures var r := Package(s, c, name);
      var r2 := Package(r, c, name);
      && name in r.installed && name !in r.outdated
      && r2.executed == r.executed
      && SameHost(r2, r)
      && r2.output[|r.output|] == Notice(Skip, "Install " + name)
  {
    PackageFollowsClassification(s, c, name);
    var r := Package(s, c, name);
    PackageFollowsClassification(r, c, name);
    InstalledQueryIsMembership(s, c.shell, name);
    OutdatedQueryIsMembership(Query(s, InstalledQuery(name)), c.shell, name);
  }

  // ---------------------------------------------------------------------------
  // file

  /**
   With a diff tool that keeps its contract, `file` prints "[DO] Write" exactly
   when the current content (empty for a missing file) differs from the desired
   one; outside no-op mode the path then reads as the desired content.
   */
  lemma FileWritesExactlyWhenDifferent(s: State, c: Config, path: string, content: string)
    requires DiffContract(c.diff)
    ensures var r := File(s, c, path, content);
      && |r.output| > |s.output|
      && r.output[|s.output|] == Notice(if Content(s.files, path) != content then Do else Skip, "Write " + path)
      && (!c.noop ==> Content(r.files, path) == content)
      && (Content(s.files, path) == content ==> r == Info(s, Skip, "Write " + path))
  {
  }

  /** A missing file reads as empty: `file` with "" skips it and does not create it. */
  lemma FileMissingIsEmpty(s: State, c: Config, path: string)
    requires DiffContract(c.diff)
    requires path !in s.files
    ensures var r := File(s, c, path, "");
      path !in r.files && r.output == s.output + [Notice(Skip, "Write " + path)]
  {
    assert Content(s.files, path) == "";
  }

  /** Outside no-op mode a second identical `file` call is a skip that changes nothing on the host. */
  lemma FileIdempotent(s: State, c: Config, path: string, content: string)
    requires DiffContract(c.diff) && !c.noop
    ensures var r := File(s, c, path, content);
      var r2 := File(r, c, path, content);
      SameHost(r2, r) && r2.output == r.output + [Notice(Skip, "Write " + path)]
  {
    FileWritesExactlyWhenDifferent(s, c, path, content);
    var r := File(s, c, path, content);
    FileWritesExactlyWhenDifferent(r, c, path, content);
  }

  // ---------------------------------------------------------------------------
  // A script: the declarer calls its body makes, top to bottom

  datatype Declaration =
    | FileDecl(path: string, content: string)
    | ScriptDecl(description: string, shouldRun: bool, commands: string)
    | PackageDecl(name: string)

  /**
   One declarer call: only a `script` whose gate is open can raise, and it
   raises exactly when its command cannot be printed; no call takes back a
   command already run or a line already printed.
   */
  function Declare(s: State, c: Config, d: Declaration): (o: Outcome)
    ensures o.raised <==> d.ScriptDecl? && d.shouldRun && PrintRaises(d.commands)
    ensures s.executed <= o.state.executed
    ensures |s.output| < |o.state.output| && o.state.output[..|s.output|] == s.output
  {
    match d
    case FileDecl(path, content) => Outcome(File(s, c, path, content), false)
    case ScriptDecl(description, shouldRun, commands) => Script(s, c.noop, description, shouldRun, commands)
    case PackageDecl(name) => Outcome(Package(s, c, name), false)
  }

  /**
   The declarations run in order; the first one that raises ends the script, so
   a script raises only at a `script` call with an open gate whose command
   cannot be printed. The commands run and the lines printed only grow.
   */
  function Run(s: State, c: Config, body: seq<Declaration>): (o: Outcome)
    ensures o.raised ==> exists i :: 0 <= i < |body| && body[i].ScriptDecl? && body[i].shouldRun && PrintRaises(body[i].commands)
    ensures s.executed <= o.state.executed
    ensures |s.output| <= |o.state.output| && o.state.output[..|s.output|] == s.output
    decreases |body|
  {
    if body == [] then Outcome(s, false)
    else
      var o := Declare(s, c, body[0]);
      if o.raised then o else Run(o.state, c, body[1..])
  }

  /** A script body raises exactly when one of its calls is a `script` with an open gate whose command cannot be printed. */
  lemma {:induction false} RunRaisesIff(s: State, c: Config, body: seq<Declaration>)
    ensures Run(s, c, body).raised <==>
      exists i :: 0 <= i < |body| && body[i].ScriptDecl? && body[i].shouldRun && PrintRaises(body[i].commands)
    decreases |body|
  {
    if body != [] {
      var o := Declare(s, c, body[0]);
      if !o.raised {
        RunRaisesIff(o.state, c, body[1..]);
        if exists i :: 0 <= i < |body| && body[i].ScriptDecl? && body[i].shouldRun && PrintRaises(body[i].commands) {
          var i :| 0 <= i < |body| && body[i].ScriptDecl? && body[i].shouldRun && PrintRaises(body[i].commands);
          assert i != 0;
          assert body[1..][i - 1] == body[i];
        }
      }
    }
  }

  /** No-op invariant: no declarer changes the files, the package lists or the executed commands. */
  lemma DeclareNoop(s: State, c: Config, d: Declaration)
    requires c.noop
    ensures SameHost(Declare(s, c, d).state, s)
  {
  }

  /** No-op invariant for a whole script, whatever its declarations. */
  lemma {:induction false} RunNoop(s: State, c: Config, body: seq<Declaration>)
    requires c.noop
    ensures SameHost(Run(s, c, body).state, s)
    decreases |body|
  {
    if body != [] {
      var o := Declare(s, c, body[0]);
      DeclareNoop(s, c, body[0]);
      if !o.raised {
        RunNoop(o.state, c, body[1..]);
      }
    }
  }

  /** A script whose gate is false never runs its command. */
  lemma ScriptGateClosed(s: State, noop: bool, description: string, commands: string)
    ensures var o := Script(s, noop, description, false, commands);
      !o.raised && o.state == Info(s, Skip, description)
  {
  }
}
