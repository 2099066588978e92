/**
 The declarers of ct.rb as they run: a host object whose fields are the files,
 the package lists, the command logs and the terminal, changed in place step
 by step. The no-op flag and the two external tools are constants set when the
 host is made, as the option parser sets `@_settings.noop` once. Each method
 is proved to leave the host in the state the matching function of module
 Reconcile computes from the host before the call.
 */
module Ct {

  import opened Text
  import opened Reconcile

  class Host {
    const noop: bool
    const diff: (string, string) -> string
    const shell: Shell

    var files: map<string, string>
    var installed: set<string>
    var outdated: set<string>
    var executed: seq<string>
    var queried: seq<string>
    var output: seq<Line>

    /** The diff tool keeps its contract. */
    ghost predicate Valid()
    {
      DiffContract(diff)
    }

    function Setup(): Config
    {
      Config(noop, diff, shell)
    }

    function Snapshot(): State
      reads this
    {
      State(files, installed, outdated, executed, queried, output)
    }

    /** Settings are fixed once, before any declarer runs; nothing has been run or printed yet. */
    constructor (noop: bool, diff: (string, string) -> string, shell: Shell,
                 files: map<string, string>, installed: set<string>, outdated: set<string>)
      requires DiffContract(diff)
      ensures Valid()
      ensures this.noop == noop && this.diff == diff && this.shell == shell
      ensures Snapshot() == State(files, installed, outdated, [], [], [])
    {
      this.noop := noop;
      this.diff := diff;
      this.shell := shell;
      this.files := files;
      this.installed := installed;
      this.outdated := outdated;
      this.executed := [];
      this.queried := [];
      this.output := [];
    }

    method Info(tag: Tag, text: string)
      modifies this
      ensures Snapshot() == Reconcile.Info(old(Snapshot()), tag, text)
    {
      output := output + [Notice(tag, text)];
    }

    method WriteFile(path: string, content: string)
      modifies this
      ensures Snapshot() == Reconcile.WriteFile(old(Snapshot()), noop, path, content)
      ensures !noop ==> path in files && files[path] == content
      ensures noop ==> unchanged(this)
    {
      if noop {
        return;
      }
      files := files[path := content];
    }

    /** `Kernel.system(commands)`, with the package manager's assumed effect. */
    method Execute(commands: string)
      modifies this
      ensures Snapshot() == Reconcile.Execute(old(Snapshot()), commands)
    {
      executed := executed + [commands];
      match Argument(commands, InstallPrefix, "")
      case Some(name) =>
        installed := installed + {name};
        outdated := outdated - {name};
      case None =>
        match Argument(commands, UpgradePrefix, "")
        case Some(name) =>
          outdated := outdated - {name};
        case None =>
    }

    method ShOut(commands: string) returns (raised: bool)
      modifies this
      ensures Outcome(Snapshot(), raised) == Reconcile.ShOut(old(Snapshot()), noop, commands)
      ensures raised <==> PrintRaises(commands)
      ensures noop ==> SameHost(Snapshot(), old(Snapshot()))
    {
      var printed := PrintScript(commands);
      if printed.None? {
        output := output + [Out("{")];
        return true;
      }
      output := output + Printed(printed.value);
      raised := false;
      if !noop {
        Execute(commands);
      }
    }

    method ShExitStatus(commands: string) returns (ok: bool)
      modifies this
      ensures ok == Succeeds(old(Snapshot()), shell, commands)
      ensures Snapshot() == Query(old(Snapshot()), commands)
    {
      ok := Succeeds(Snapshot(), shell, commands);
      queried := queried + [commands];
    }

    method File(path: string, content: string)
      requires Valid()
      modifies this
      ensures Snapshot() == Reconcile.File(old(Snapshot()), Setup(), path, content)
      ensures !noop ==> Content(files, path) == content
      ensures noop ==> SameHost(Snapshot(), old(Snapshot()))
    {
      var original := "";
      if path in files {
        original := files[path];
      }
      var diffText := diff(original, content);
      if diffText != "" {
        Info(Do, "Write " + path);
        output := output + [Out(diffText)];
        WriteFile(path, content);
      } else {
        Info(Skip, "Write " + path);
      }
    }

    method Script(description: string, shouldRun: bool, commands: string) returns (raised: bool)
      modifies this
      ensures Outcome(Snapshot(), raised) == Reconcile.Script(old(Snapshot()), noop, description, shouldRun, commands)
      ensures !shouldRun ==> executed == old(executed) && !raised
      ensures noop ==> SameHost(Snapshot(), old(Snapshot()))
    {
      if shouldRun {
        Info(Do, description);
        raised := ShOut(commands);
      } else {
        Info(Skip, description);
        raised := false;
      }
    }

    method IsInstalled(name: string) returns (b: bool)
      modifies this
      ensures b == (name in old(installed))
      ensures b == Succeeds(old(Snapshot()), shell, InstalledQuery(name))
      ensures Snapshot() == Query(old(Snapshot()), InstalledQuery(name))
    {
      InstalledQueryIsMembership(Snapshot(), shell, name);
      b := ShExitStatus(InstalledQuery(name));
    }

    method IsOutdated(name: string) returns (b: bool)
      modifies this
      ensures b == (name in old(outdated))
      ensures b == Succeeds(old(Snapshot()), shell, OutdatedQuery(name))
      ensures Snapshot() == Query(old(Snapshot()), OutdatedQuery(name))
    {
      OutdatedQueryIsMembership(Snapshot(), shell, name);
      b := ShExitStatus(OutdatedQuery(name));
    }

    method Install(name: string)
      modifies this
      ensures Snapshot() == Reconcile.Install(old(Snapshot()), noop, name)
      ensures !noop ==> name in installed && name !in outdated
    {
      var raised := ShOut(InstallCommand(name));
    }

    method Upgrade(name: string)
      modifies this
      ensures Snapshot() == Reconcile.Upgrade(old(Snapshot()), noop, name)
      ensures !noop ==> name !in outdated
    {
      var raised := ShOut(UpgradeCommand(name));
    }

    method Package(name: string)
      modifies this
      ensures Snapshot() == Reconcile.Package(old(Snapshot()), Setup(), name)
      ensures executed == old(executed) + (if noop then [] else Commands(Classify(old(installed), old(outdated), name), name))
      ensures !noop ==> name in installed && name !in outdated
    {
      PackageFollowsClassification(Snapshot(), Setup(), name);
      var isInstalled := IsInstalled(name);
      if isInstalled {
        var isOutdated := IsOutdated(name);
        if isOutdated {
          Info(Do, "Upgrade " + name);
          Upgrade(name);
        } else {
          Info(Skip, "Install " + name);
        }
      } else {
        Info(Do, "Install " + name);
        Install(name);
      }
    }
  }
}
