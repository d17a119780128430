/** The process oracle and the relaying of its output, common to the install
    and update workers: lines are forwarded in order with trailing whitespace
    removed, and any exception ends the run with one `ERROR:` line and code 1. */
module Spawn {
  import opened Text

  /** How a spawn attempt ended: the process exited with a return code, or an
      exception was raised (the binary could not be started, or reading its
      output failed) carrying a message. */
  datatype End = Exited(code: int) | Raised(message: string)

  /** What the outside world reports for one command line: the raw lines read
      from the merged stdout/stderr stream, then how it ended. A failure to
      start is a `Raised` end with no lines. */
  datatype Process = Process(lines: seq<string>, end: End)

  /** The process oracle: what running a given argument vector produces. */
  type Spawner = seq<string> -> Process

  /** The diagnostic line emitted for an exception. */
  function ErrorLine(message: string): string { "ERROR: " + message }

  /** The line both workers emit when escalation is needed but no helper exists. */
  const NoEscalationLine: string := ErrorLine("No privilege escalation tool found.")

  /** What the worker relays for one process: its output lines and finish code. */
  datatype Drained = Drained(lines: seq<string>, code: int)

  /** Relays a process: every raw line right-stripped, in order; then for an
      exception one error line and code 1, for an exit its return code. */
  function Drain(p: Process): (d: Drained)
    ensures |d.lines| == |p.lines| + (if p.end.Raised? then 1 else 0)
    ensures forall i :: 0 <= i < |p.lines| ==>
      d.lines[i] <= p.lines[i] && AllSpace(p.lines[i][|d.lines[i]|..]) &&
      (d.lines[i] == [] || !IsSpace(d.lines[i][|d.lines[i]| - 1]))
    ensures p.end.Raised? ==> d.lines[|p.lines|] == ErrorLine(p.end.message) && d.code == 1
    ensures p.end.Exited? ==> d.code == p.end.code
  {
    var relayed := seq(|p.lines|, i requires 0 <= i < |p.lines| => Rstrip(p.lines[i]));
    match p.end
    case Exited(code) => Drained(relayed, code)
    case Raised(message) => Drained(relayed + [ErrorLine(message)], 1)
  }
}
