/** Tool discovery shared by the installer and the updater: choosing the first
    available binary from a fixed priority list, and wrapping a command with
    the chosen privilege-escalation helper. */
module Resolver {
  import opened Common

  /** Stand-in for the `which` probe: whether a binary of that name is on the
      executable search path. */
  type Availability = string -> bool

  /** Package managers the installer falls back to, most preferred first. */
  const PackageManagers: seq<string> := ["dnf", "zypper", "yum", "rpm"]

  /** Escalation helpers, most preferred first: the polkit prompt, the KDE
      helper, then the terminal tool. */
  const EscalationTools: seq<string> := ["pkexec", "kdesu", "sudo"]

  /** `c` is available and every candidate listed before it is not. */
  predicate IsFirstAvailable(candidates: seq<string>, avail: Availability, c: string)
  {
    exists i :: 0 <= i < |candidates| && candidates[i] == c && avail(c) &&
      forall j :: 0 <= j < i ==> !avail(candidates[j])
  }

  /** The priority-order probe loop of `_pick_pm`, `_pick_escalation` and
      `find_escalation`: the first available candidate, or `None`. */
  function FirstAvailable(candidates: seq<string>, avail: Availability): (r: Option<string>)
    ensures r.Some? ==> IsFirstAvailable(candidates, avail, r.value)
    ensures r.None? <==> forall i :: 0 <= i < |candidates| ==> !avail(candidates[i])
  {
    if candidates == [] then None
    else if avail(candidates[0]) then
      Some(candidates[0])
    else
      var r := FirstAvailable(candidates[1..], avail);
      if r.Some? then
        var i :| 0 <= i < |candidates[1..]| && candidates[1..][i] == r.value && avail(r.value) &&
          forall j :: 0 <= j < i ==> !avail(candidates[1..][j]);
        assert candidates[i + 1] == r.value;
        assert forall j :: 1 <= j < i + 1 ==> candidates[j] == candidates[1..][j - 1];
        r
      else
        assert forall i :: 1 <= i < |candidates| ==> candidates[i] == candidates[1..][i - 1];
        r
  }

  /** The escalation helper both programs use. */
  function PickEscalation(avail: Availability): (r: Option<string>)
    ensures r == if avail("pkexec") then Some("pkexec")
                 else if avail("kdesu") then Some("kdesu")
                 else if avail("sudo") then Some("sudo")
                 else None
  {
    var r := FirstAvailable(EscalationTools, avail);
    assert EscalationTools[0] == "pkexec" && EscalationTools[1] == "kdesu" && EscalationTools[2] == "sudo";
    r
  }

  /** Recovers the helper and the wrapped command from an escalated command
      line; `kdesu` is recognised only together with its `--` separator. */
  function SplitEscalation(cmd: seq<string>): Option<(string, seq<string>)>
  {
    if cmd == [] then None
    else if cmd[0] == "kdesu" then
      if |cmd| >= 2 && cmd[1] == "--" then Some(("kdesu", cmd[2..])) else None
    else Some((cmd[0], cmd[1..]))
  }

  /** The escalated command line: `kdesu` needs a `--` separator so that the
      wrapped command's flags are not read as its own; other helpers take the
      command directly. */
  function WithEscalation(esc: string, argv: seq<string>): (cmd: seq<string>)
    ensures SplitEscalation(cmd) == Some((esc, argv))
    ensures cmd[0] == esc && cmd[|cmd| - |argv|..] == argv
    ensures |cmd| == |argv| + (if esc == "kdesu" then 2 else 1)
  {
    (if esc == "kdesu" then ["kdesu", "--"] else [esc]) + argv
  }
}
