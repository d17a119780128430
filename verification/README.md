# GRSMS privileged-command orchestration in Dafny

GRSMS ships two small desktop tools. GRPI installs one local RPM file, and
GRPU runs the system's update commands one after another. Both decide which
package manager and which privilege-escalation helper (`pkexec`, `kdesu`,
`sudo`) to use. Both build an escalated command line, run it, relay its
output line by line, and judge the outcome by its exit code. This project
models that orchestration as pure functions and proves what it promises.

Two things from the outside world become parameters:

- `Resolver.Availability` (`string -> bool`) stands in for the `which` probe.
- `Spawn.Spawner` maps an argument vector to a `Spawn.Process`: the raw
  output lines, then either an exit code or a raised exception. A binary that
  cannot be started is an exception with no lines.

Modules:

- `Common`: `Option`, and an order-preserving `Filter` with its reference
  predicate `Subsequence`.
- `Text`: Python's `isspace`, `rstrip`/`strip`, `splitlines`, `isdigit`
  and `int` on the characters the programs handle.
- `Resolver`: priority-order tool selection, and the escalation prefix with
  its `kdesu --` separator.
- `Spawn`: how a process's output is relayed, and the `ERROR:` line for an
  exception.
- `Settings`: the installer's settings, defaults overridden by the file.
- `Install`: the installer's worker (`InstallThread`) and its success test.
- `RpmInfo`: the header fields read from `rpm -qip` output, and the size
  shown in kilobytes.
- `Tasks`: the updater's task list and one task run (`UpdateThread.run`) as
  an event trace.
- `Scheduler`: the updater's FIFO session as a recursive fold. It runs one
  task at a time, records one result per task without stopping on failure,
  and ends with a verdict. The fold takes the worker as a parameter and
  relies only on the shape of each task's events (section, output lines,
  one finish event). `Scheduler.StartUpdates` plugs in the update worker
  `Tasks.RunTask`.

The updater counts exit code 100 as success for every task, not just for
`dnf`. The comment next to that test mentions only dnf commands. The
model follows the code.

## Model

| member | source | states |
|---|---|---|
| Settings.Load | grpi.py:23-30 | The result always holds both default keys. A settings object from the file overrides exactly the keys it names; the other defaults survive. A missing, unreadable or non-object file yields exactly the defaults. |
| Settings.LoadIsStable | grpi.py:23-35 | Settings that were loaded, then saved and loaded back, come back unchanged. |
| Resolver.FirstAvailable | grpi.py:54-57 | The choice is an available candidate with no available candidate before it. The result is `None` exactly when no candidate is available. |
| Resolver.PickEscalation | grpi.py:59-63 | The helper is `pkexec` if available, else `kdesu`, else `sudo`, else none. The updater's `find_escalation` (grpu.py lines 19-23) is the same loop. |
| Resolver.WithEscalation | grpi.py:92 | The escalated command splits back into exactly the helper and the unchanged wrapped command. `kdesu` is followed by `--`, and every other helper is followed by nothing. |
| Install.PickPackageManager | grpi.py:50-57 | The call raises exactly when the stored preference is not a string. A chosen manager is always available. An available non-`auto` preference wins. Otherwise the choice is the first available of dnf, zypper, yum, rpm, and none exactly when none of them is available. |
| Install.InstallCommand | grpi.py:75-90 | A command exists exactly for the four known managers. It has four arguments: the manager's name, its install flags (`install -y`, `--non-interactive install`, or rpm's `-ivh --replacepkgs`), then the RPM path. The notice is a `WARNING:` line exactly for rpm; each other manager announces that it resolves dependencies. |
| Install.Run | grpi.py:65-103 | A command is spawned exactly when the preference is a string, a helper exists and one of the four managers was chosen. It is then the chosen helper wrapped around that manager's install command, the first line is the manager's notice, the process's relayed lines follow, and the finish code is the relayed code. Every other run reports exactly one `ERROR:` line and code 1. A missing escalation helper is reported before a missing manager, and an unknown or missing manager is reported as "No package manager found". |
| Install.NoSpawnIsIndependent | grpi.py:70-90 | When nothing is spawned, the reported run does not depend on the process oracle at all. |
| Install.SucceededIffExitedZero | grpi.py:352 | The install is reported successful exactly when a command was spawned and its process exited with code 0. An exception or a missing tool is never a success. |
| Spawn.Drain | grpi.py:94-103 | Every output line is relayed in order, without its trailing whitespace and with nothing else removed. An exception adds one `ERROR:` line with its message and finishes with code 1. A normal exit passes its return code through. |
| Text.RstripPadded | grpi.py:97 | Stripping trailing whitespace from a line recovers the line's text exactly. |
| Text.StripPadded | grpi.py:307 | Stripping a trimmed value padded on both sides with whitespace gives the value back. |
| Text.SplitTerminated | grpi.py:304 | Splitting the printed form of break-free lines gives back exactly those lines. |
| Text.SplitFirstLine | grpi.py:304 | A break-free line ended by any terminator (one line-boundary character, or "\r\n" taken as one) is split off as the first line, and the rest is split on its own. A lone "\r" followed by "\n" is the one case excluded, because together they form a single "\r\n". |
| Text.SplitLastLine | grpi.py:304 | Non-empty text without a line boundary is one line, so an unterminated last line is kept. |
| Text.SplitJoined | grpi.py:304 | Splitting lines joined with any mix of terminators returns exactly those lines. "\r\n" ends one line, not two, and a non-empty last line without a terminator is kept. The only texts excluded are those where a lone "\r" ends a line and the next line is empty and ended by "\n", since that pair reads back as one "\r\n". |
| RpmInfo.ShowSizeZeroPadded | grpi.py:313 | A zero-padded size shows the same kilobytes as the unpadded one, since `int` ignores leading zeros. |
| RpmInfo.LabelledValue | grpi.py:307 | A line of the form key, padding, colon, padding, value, padding records exactly the value. |
| RpmInfo.UnlabelledValue | grpi.py:307 | With no colon after the key, the substitution removes nothing, and the whole stripped line is recorded, key included. |
| RpmInfo.ApplyKeys | grpi.py:305-307 | Processing one line sets every key that the line starts with (key followed by a space) to that line's value and leaves every other field as it was. |
| RpmInfo.ParseFields | grpi.py:304-307 | A field is present exactly when some line starts with its key and a space. Its value comes from the last such line, so later lines overwrite earlier ones. |
| RpmInfo.Parse | grpi.py:304-307 | On the `splitlines` lines of the whole output, with the seven header keys and the substitution-then-strip value: a field is present exactly when some line starts with its key and a space, and its value is read from the last such line. |
| RpmInfo.ShowSize | grpi.py:312-313 | A size is shown in kilobytes exactly when it is a non-empty digit string. The figure is the byte count divided by 1024 and rounded down. |
| Tasks.BuildTaskList | grpu.py:207-220 | The task list is the fixed catalogue (dnf upgrade, zypper refresh, zypper update, yum update, flatpak update, snap refresh) restricted to the ticked sources, in catalogue order. |
| Tasks.TaskListContents | grpu.py:207-220 | The task list is an ordered subsequence of the catalogue. It contains every catalogue task of a ticked source and nothing else. |
| Tasks.TaskListEscalation | grpu.py:207-220 | A listed task runs without escalation exactly when it is the flatpak task. |
| Tasks.TaskListZypperPair | grpu.py:209-211 | Zypper is ticked exactly when its refresh task appears with its update task right after it. |
| Tasks.TaskListEmpty | grpu.py:207-227 | The list is empty, so nothing starts, exactly when no source is ticked. |
| Tasks.RunTask | grpu.py:46-69 | A task emits its section first, then output lines only, then one finish event naming it, on every path. It spawns nothing exactly when it needs escalation and no helper exists, and then it emits one `ERROR:` line and finishes with 1. Without escalation, the command is the task's argv unchanged. With escalation, it splits into the chosen helper and the unchanged argv. The relayed lines and code are those of the process. |
| Tasks.NoSpawnIsIndependent | grpu.py:49-54 | A task that spawns nothing emits the same events whatever the process oracle would have done. |
| Scheduler.UpdateWorker | grpu.py:46-69 | Every task run of the update worker has the section, outputs, finish shape the window relies on. |
| Scheduler.Failures | grpu.py:271 | Failures are the results with a code outside {0, 100}, in result order, and none is missing. The list is empty exactly when every result is 0 or 100. |
| Scheduler.FailuresConcat | grpu.py:271 | The failures of a longer history are those of its earlier part followed by those of its later part. |
| Scheduler.AllDone | grpu.py:267-272 | The session is complete. Its verdict is success exactly when every recorded code is 0 or 100. The log gains one final event carrying the verdict and the failures. |
| Scheduler.RunNext | grpu.py:238-248 | Starting from any state, the session ends with an empty queue. Each remaining task is taken from the head and run in FIFO order, with its own result appended and its events logged in queue order. The verdict is computed only after the queue is empty. |
| Scheduler.TaskFinished | grpu.py:257-265 | The finished task's result is recorded whatever its code, and every remaining task still runs: there is no fail-fast. |
| Scheduler.StartSession | grpu.py:223-236 | An empty task list leaves the window state exactly as it was. Otherwise the results and log are cleared, the start banner is logged, every task runs, and the results are exactly what each task reports on its own, in order. |
| Scheduler.StartUpdates | grpu.py:223-236 | With no source ticked, nothing changes. Otherwise the session completes with one result per listed task, in list order, each exactly the name and finish code `Tasks.RunTask` reports for that task. The log is the start banner, the tasks' events back to back, then the verdict. The session succeeds exactly when every code is 0 or 100. |
| Scheduler.TraceSequential | grpu.py:238-265 | Tasks never overlap. The trace starts with a section and ends with a finish event, and every later section comes directly after the previous task's finish event. |
| Scheduler.TaskTraceMarkers | grpu.py:46-69 | One task's events hold exactly one section event and exactly one finish event. |
| Scheduler.TraceSections | grpu.py:238-248 | The section events of a session are one per task, in queue order. |
| Scheduler.TraceFinishes | grpu.py:257-265 | The finish events of a session are one per task, in queue order, each carrying the result recorded for its task. |
| Scheduler.SessionResults | grpu.py:257-272 | A session records, for every queued task in order, exactly the result that task reports. The verdict is success exactly when there are no failures. |

## Left out

- Qt widgets, dialogs, the status label, the progress bar and the HTML formatting of log lines are presentation only. The "Nothing selected" warning box is left out too; the model keeps only the fact that the window state does not change.
- The `which` subprocess and the updater's `AVAILABLE` cache are foreign calls. They are replaced by the availability parameter, which is fixed for a whole run or session. The model does not capture a binary appearing or disappearing mid-session.
- `subprocess.Popen`, reading the merged output stream and `wait` are process I/O. They are replaced by the process oracle, which answers per argument vector, so two identical commands behave the same.
- QThread, signals and the keep-alive `threads` list are concurrency plumbing. The worker's completion signal is modelled as a direct call, which gives the sequential fold.
- The updater's `closeEvent` three-second wait is a timeout on a running thread and cannot be stated sequentially.
- File I/O is left out: reading and writing the settings file, and `_save_log` with its timestamped file name. `Settings.Load` takes the parsed file, or `None` when the file cannot be read or parsed.
- The `rpm -qip` invocation in `_query_rpm_info`, its non-zero return path and the `result.stdout[:500]` fallback are left out. Only the parsing of a given output string and the size figure are modelled.
- RpmInfo.ShowSize: `str.isdigit` also accepts non-ASCII digits; the model accepts ASCII digits only.
- Settings.Load: JSON numbers are integers only, and floats are not modelled. A top-level JSON array of key/value pairs, which `dict.update` would accept, is treated as an unusable file.
- Install.PickPackageManager: the raised message for a non-string preference follows the wording of the standard library's type error. Embedded NUL characters in a string preference, which raise a different error, are not modelled.
