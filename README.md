# ct: a model of the reconciliation layer

ct is a small provisioning script. A user writes a script body that calls three
declarers: `file(path, content)`, `script(description, should_run, commands)`
and `package(name)`. Each declarer compares the live host with the desired
state. It then writes the file, runs the command, or installs or upgrades the
package with brew. A no-op flag (`-n`) makes every declarer report what it
would do without doing it.

This project models that layer in Dafny, in three modules:

- `Text` (text.dfy) models `_print_script`. It covers Ruby's `split("\n")`,
  which drops empty trailing pieces, the leading spaces of the first line, and
  the per-line `gsub(/^.{n}/, '  ')`. These are pure functions with lemmas.
- `Reconcile` (reconcile.dfy) models the host as a value. The value holds the
  files (a missing key is a missing file), the installed and outdated package
  lists, the commands run by `sh_out`, the commands run by `sh_exitstatus` and
  the terminal lines. Every step of ct.rb is a function from the host before
  the call to the host after it. The lemmas state the no-op invariant, file
  idempotence, the three-way package classification and package convergence.
  `Run` plays a script body given as a list of declarer calls, and stops at
  the first call that raises.
- `Ct` (ct.dfy) has a class `Host`. Its fields are the host state. The no-op
  flag and the two external tools are constants, set once like
  `@_settings.noop`. Its methods mirror `file`, `script`, `package`,
  `sh_out`, `sh_exitstatus`, `_write_file`, `_installed?`, `_outdated?`,
  `_install`, `_upgrade` and `info`, and they change the fields step by step.
  Each method is proved to leave the host in the state that the matching
  `Reconcile` function computes. `noop?` (ct.rb:80-82) is the constant field
  `Host.noop`.

The external tools are replaced by stated assumptions:

- `_diff` is the `diff` field of `Config`. `DiffContract` states what is
  assumed of it: the diff is empty exactly when the two texts are equal. The
  `Host` constructor and the file lemmas require this contract.
- `_installed?` and `_outdated?` grep `brew list` and `brew outdated` for a
  whole line equal to the name. In `Succeeds`, these two query commands succeed
  exactly when the name is in the installed or outdated set. Every other
  predicate command is answered by the `shell` oracle, which is given the
  host as it is at the call, so a command such as `test -e p` can see a file
  written earlier (`QuerySeesWrite`).
- `sh_out` runs a command through `Kernel.system`, modelled by `Execute`. This
  appends the command to the executed log. It is assumed that
  `brew install n` leaves `n` installed and current, that `brew upgrade n`
  leaves `n` current, and that no other command touches the files or the
  package lists.
- `sh_exitstatus` records its command in the separate `queried` log, even in
  no-op mode. It changes nothing else.

Behaviour of the code worth knowing:

- `sh_out` raises `NoMethodError` for a command made only of newlines (the
  empty command included), because `split` returns no line and
  `lines.first` is nil. The `{` line has already been printed. Nothing is run,
  and the model reports the raise.
- `sh_out` also raises for a command indented by more than 100000 spaces
  (`MaxRepeat`). The indentation goes into the repeat count of
  `/^.{n}/`, and Ruby's regular expression engine refuses a count above that
  bound with a `RegexpError`. The first line is indented exactly as the
  command itself (`FirstLineIndentation`). `PrintRaises` names both cases.
- `file(path, "")` on a missing path is a skip. The diff of "" against "" is
  empty, so the file is not created.
- The re-indentation cuts the first `indentation` characters of every line
  long enough, spaces or not. A line indented less deeply than the first line
  loses text in the display (`PrintScriptCutsShallowerLine`).

## Model

| member | source | states |
|---|---|---|
| `Text.Fields` | ct.rb:71 | the pieces between newlines: at least one piece, none containing a newline |
| `Text.FieldsJoin` | ct.rb:71 | gluing the pieces back with newlines gives the original string |
| `Text.Split` | ct.rb:71 | `split` gives lines without newlines whose last line is not empty; its partner `SplitSpec` adds that joined they are the string minus trailing newlines |
| `Text.DropTrailingEmpty` | ct.rb:71 | `split` keeps a prefix of the pieces whose last piece is non-empty; every dropped piece is empty |
| `Text.SplitSpec` | ct.rb:71 | `split` gives lines without newlines, the last one non-empty; joined, they are the string minus only trailing newlines |
| `Text.SplitEmptyIff` | ct.rb:71-72 | `split` returns no line exactly when the string is all newlines, so `lines.first` is nil exactly then |
| `Text.FirstLineStart` | ct.rb:72 | a script not starting with a newline has a first line that starts with the script's first character |
| `Text.FirstLineEmpty` | ct.rb:72 | a script starting with a newline, not all newlines, has an empty first line |
| `Text.LeadingSpaces` | ct.rb:72 | the indentation is the position of the first non-space: every character before it is a space, and it is the end or not a space |
| `Text.FirstLineIndentation` | ct.rb:71-72 | for a script not all newlines, the first line of `split` has exactly the leading spaces of the script itself |
| `Text.Reindent` | ct.rb:75 | the `gsub` keeps a line free of newlines; a line at least `n` long starts with at least two spaces and keeps everything after its first `n` characters; a shorter line is not matched and stays as it is |
| `Text.ReindentKeepsRelativeIndentation` | ct.rb:75 | a line with at least `n` leading spaces gets `n` of them replaced by two; the text after the indentation is kept |
| `Text.PrintScript` | ct.rb:69-78 | when it prints, the output has at least one line between a `{` line and a `}` line |
| `Text.PrintScriptFails` | ct.rb:69-75 | `_print_script` raises exactly for a script of newlines only (the empty script among them) or a script indented by more than 100000 spaces |
| `Text.PrintScriptLines` | ct.rb:69-78 | otherwise: `{`, one line per `split` line, `}`; with the script's own indentation, a line at least that long has its first `indentation` characters replaced by two spaces; a shorter line is unchanged |
| `Text.PrintScriptZeroIndentation` | ct.rb:72-76 | a script not starting with a space has indentation 0, so every line is printed with two spaces in front |
| `Text.PrintScriptDedents` | ct.rb:72-76 | the first line is printed at indentation two; lines indented at least as deeply keep their relative indentation and their text |
| `Text.PrintScriptCutsShallowerLine` | ct.rb:75 | `"  a\nbc"` prints `{`, `  a`, two spaces, `}`: the shallower line loses `bc` |
| `Reconcile.DiffContract` | ct.rb:43-60 | the assumption made of `_diff`: its output is empty exactly when the two texts are equal; `DiffContractSatisfiable` shows a diff meeting it exists |
| `Reconcile.Succeeds` | ct.rb:97-100 | the exit status of a predicate command on the host as it is at the call (the shell oracle reads the host state); its partners `InstalledQueryIsMembership` and `OutdatedQueryIsMembership` state that the two greps succeed exactly on membership |
| `Reconcile.QuerySeesWrite` | ct.rb:97-100 | a predicate command runs on the live host: with a shell answering `test -e p` by the files, it fails before `file(p, "x")` creates `p` and succeeds after |
| `Reconcile.Query` | ct.rb:97-100 | running a predicate command is logged in `queried`; files, packages, executed log and output are unchanged |
| `Reconcile.Execute` | ct.rb:94 | `Kernel.system` appends the command to the executed log; it leaves files, queries and output alone |
| `Reconcile.Info` | ct.rb:84-86 | `info` appends one notice and changes nothing on the host |
| `Reconcile.WriteFile` | ct.rb:62-67 | in no-op mode the state is unchanged; otherwise the path holds `content` and no other path or field changes |
| `Reconcile.ShOut` | ct.rb:92-95 | always prints (`{` first, `}` last unless it raised); of the exceptions modelled, raises exactly for an all-newline command or one indented by more than 100000 spaces; runs the command exactly when not no-op and not raised |
| `Reconcile.File` | ct.rb:102-116 | never runs a command; the files become `files[path := content]` exactly when not no-op and the diff of current (missing = "") against desired is non-empty |
| `Reconcile.Script` | ct.rb:118-125 | first prints `[DO]` or `[SKIP]` according to the gate; runs the command exactly when the gate is true, not no-op and not raised; a false gate never raises and leaves the files, package lists and executed log unchanged |
| `Reconcile.Install` | ct.rb:131-133 | runs `brew install name` unless no-op; assuming brew succeeds, the name is afterwards installed and current; the printed lines only grow |
| `Reconcile.Upgrade` | ct.rb:139-141 | runs `brew upgrade name` unless no-op; outside no-op, assuming brew succeeds, the name is afterwards current; the installed list is unchanged |
| `Reconcile.InstalledQueryIsMembership` | ct.rb:127-129 | the `brew list` grep succeeds exactly when the name is in the installed set |
| `Reconcile.OutdatedQueryIsMembership` | ct.rb:135-137 | the `brew outdated` grep succeeds exactly when the name is in the outdated set |
| `Reconcile.Classify` | ct.rb:143-155 | the three package states: install iff not installed, upgrade iff installed and outdated, keep iff installed and current |
| `Reconcile.Package` | ct.rb:143-155 | in no-op mode the files, package lists and executed log are unchanged; outside it, assuming brew succeeds, the package ends installed and current; files are never touched; commands run and lines printed only grow |
| `Reconcile.PackageFollowsClassification` | ct.rb:143-155 | one `package` call runs exactly the command of its class (none in no-op mode), prints that class's notice, and asks about outdatedness only when the package is installed |
| `Reconcile.PackageConverges` | ct.rb:143-155 | outside no-op mode, assuming brew succeeds, the package is installed and current afterwards, and a second call runs nothing and prints `[SKIP] Install` |
| `Reconcile.FileWritesExactlyWhenDifferent` | ct.rb:102-116 | `[DO] Write` is printed exactly when current (missing = "") differs from desired; outside no-op the path then reads as desired; equal content only prints the skip |
| `Reconcile.FileMissingIsEmpty` | ct.rb:103-106 | a missing file reads as empty: `file(path, "")` skips and does not create it |
| `Reconcile.FileIdempotent` | ct.rb:108-115 | outside no-op mode, a second identical `file` call changes nothing and prints `[SKIP] Write` |
| `Reconcile.Declare` | ct.rb:102-155 | of the exceptions modelled, one declarer call raises exactly when it is a `script` with an open gate whose command cannot be printed; it takes back no command run and no line printed |
| `Reconcile.Run` | ct.rb:198 | of the exceptions modelled, a script body raises only at a `script` call with an open gate whose command cannot be printed; the executed log and the output only grow |
| `Reconcile.RunRaisesIff` | ct.rb:198 | of the exceptions modelled, a script body raises exactly when one of its calls is a `script` with an open gate whose command cannot be printed |
| `Reconcile.DeclareNoop` | ct.rb:102-155 | in no-op mode no declarer changes the files, package lists or executed log |
| `Reconcile.RunNoop` | ct.rb:102-155 | in no-op mode a whole script body of declarer calls leaves the files, package lists and executed log unchanged (lines are still printed and queries still logged) |
| `Reconcile.ScriptGateClosed` | ct.rb:118-125 | with a false gate, `script` prints `[SKIP]` and does nothing else |
| `Ct.Host.constructor` | ct.rb:160-162 | the no-op flag and the tools are fixed once; nothing has been run, queried or printed yet |
| `Ct.Host.Info` | ct.rb:84-86 | the host after `info` is `Reconcile.Info` of the host before |
| `Ct.Host.WriteFile` | ct.rb:62-67 | in no-op mode the object is unchanged; otherwise the path holds the content |
| `Ct.Host.Execute` | ct.rb:94 | the host after running a command is `Reconcile.Execute` of the host before |
| `Ct.Host.ShOut` | ct.rb:92-95 | matches `Reconcile.ShOut`; of the exceptions modelled, raises exactly for an all-newline command or one indented by more than 100000 spaces; in no-op mode the files, package lists and executed log are unchanged |
| `Ct.Host.ShExitStatus` | ct.rb:97-100 | returns whether the command succeeds on the host before the call, and logs the query even in no-op mode |
| `Ct.Host.File` | ct.rb:102-116 | matches `Reconcile.File`; outside no-op the path reads as the desired content; in no-op the files, package lists and executed log are unchanged |
| `Ct.Host.Script` | ct.rb:118-125 | matches `Reconcile.Script`; a false gate runs nothing; in no-op the files, package lists and executed log are unchanged |
| `Ct.Host.IsInstalled` | ct.rb:127-129 | returns membership of the name in the installed list, and logs the query |
| `Ct.Host.IsOutdated` | ct.rb:135-137 | returns membership of the name in the outdated list, and logs the query |
| `Ct.Host.Install` | ct.rb:131-133 | matches `Reconcile.Install`; outside no-op the name is installed and current |
| `Ct.Host.Upgrade` | ct.rb:139-141 | matches `Reconcile.Upgrade`; outside no-op, assuming brew succeeds, the name is current |
| `Ct.Host.Package` | ct.rb:143-155 | matches `Reconcile.Package`; the executed log grows by exactly the commands of the package's class; outside no-op the package ends installed and current |

## Left out

- `_diff`'s temporary files, the `git diff --color | sed 1,4d` pipeline and its cleanup (ct.rb:43-60): external tool and I/O. The diff is an oracle bound by `DiffContract`. Its output format is not modelled, including the removed-line and added-line markers. The assumption fails for content git treats as binary: git then prints a three-line header that `sed 1,4d` removes entirely, so `_diff` returns "" for two different binary texts, and `file` skips a changed binary file and never creates a missing one.
- The `tput` colour constants (ct.rb:32-37) and the ANSI formatting of `info` and `error` (ct.rb:84-90): terminal output only. A notice is a tag (`Do` or `Skip`) and a text. `error` is not modelled, because no declarer calls it.
- Reconcile.Script: the notice text is the description as given, not `description.capitalize`. Capitalization is a library detail.
- Ct.Host.Script: the same as above.
- Reconcile.ShOut: exceptions from starting a process are not modelled. `Kernel.system` raises `ArgumentError` for a command containing a NUL byte, so nothing runs, but the model records the command as run and reports no raise. The raise condition covers only the two `_print_script` failures.
- Ct.Host.ShOut: the same as above.
- Reconcile.Declare: exceptions from starting a process or checking a path are not modelled. A NUL byte in a command, a package name or a path makes backticks, `Kernel.system` or `File.exists?` raise `ArgumentError`; backticks raise `Errno::ENOENT` for a program that does not exist. The raise condition covers only an open-gate `script` whose command cannot be printed.
- Reconcile.Run: the same as above, for each call of the script body.
- Reconcile.RunRaisesIff: the same as above.
- Reconcile.Install: the result of `brew install` is assumed to succeed. ct.rb ignores what `Kernel.system` returns, so a failed install leaves the package missing and the script goes on; the model does not represent that failure.
- Reconcile.Upgrade: the same as above, for `brew upgrade`.
- Reconcile.Package: its "installed and current afterwards" rests on the same brew assumption.
- Reconcile.PackageConverges: the same as above.
- Reconcile.Script: exceptions from `Kernel.system` are not modelled either, as for `Reconcile.ShOut`.
- Text.PrintScriptFails: commands are modelled as Unicode text. A command that is not valid UTF-8 makes `slice(/^ +/)` (ct.rb:72) or `gsub` (ct.rb:75) raise `ArgumentError`; such a value cannot be written as a Dafny `string`.
- The real behaviour of `brew`, `grep` and the shell (ct.rb:127-141): only the two grep queries, the exit-status oracle for other commands and the assumed effect of `brew install` and `brew upgrade` are modelled. Shell quoting and regex metacharacters in names are not modelled.
- Reconcile.Query: running a predicate command through backticks is taken to have no effect on the host besides the `queried` log. A command with side effects is not modelled.
- The value `Kernel.system` returns, which `sh_out` and `script` pass back to the script author: not modelled.
- Filesystem errors: `File.read` on a directory and `File.open` failing in `_write_file` raise in Ruby. The model does not raise there.
- Option parsing, the interactive flag, `--help` and `--version` (ct.rb:157-174): a library wrapper. Only the resulting `noop` boolean is modelled, as a constant.
- The IRB loop, the SIGINT trap and `eval ARGF.read` (ct.rb:176-198): interactive I/O and dynamic evaluation. A script body is modelled only as the list of declarer calls it makes (`Reconcile.Run`). The `should_run` gates are already-computed booleans.
