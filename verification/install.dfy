/** The installer's worker (`InstallThread`): choose a package manager and an
    escalation helper, build the install command for one RPM file, run it and
    relay its output, and judge the outcome by its exit code. */
module Install {
  import opened Common
  import opened Resolver
  import opened Spawn
  import opened Settings

  /** Outcome of `_pick_pm`: a choice (possibly none), or the exception the
      `which` probe raises when the stored preference is not a string. */
  datatype PmPick = Picked(pm: Option<string>) | ProbeRaised(message: string)

  /** Python's type name for a JSON value, as it appears in a type error. */
  function TypeName(j: Json): string
  {
    match j
    case JNull => "NoneType"
    case JBool(_) => "bool"
    case JNum(_) => "int"
    case JStr(_) => "str"
    case JArray(_) => "list"
    case JObject(_) => "dict"
  }

  /** The message of the type error raised when a non-string is passed as a
      command-line argument. */
  function ArgumentTypeError(j: Json): string
  {
    "expected str, bytes or os.PathLike object, not " + TypeName(j)
  }

  /** The stored preference, `"auto"` when the key is missing. */
  function Preference(s: Settings): Json
  {
    Get(s, "preferred_pm", JStr("auto"))
  }

  /** `_pick_pm`: an available non-`auto` preference wins; otherwise the first
      available of dnf, zypper, yum, rpm; otherwise none. */
  function PickPackageManager(pref: Json, avail: Availability): (r: PmPick)
    ensures r.ProbeRaised? <==> !pref.JStr?
    ensures r.Picked? && r.pm.Some? ==> avail(r.pm.value)
    ensures pref.JStr? && pref.s != "auto" && avail(pref.s) ==> r == Picked(Some(pref.s))
    ensures pref.JStr? && (pref.s == "auto" || !avail(pref.s)) ==>
      && r.Picked?
      && (r.pm.Some? ==> IsFirstAvailable(PackageManagers, avail, r.pm.value))
      && (r.pm.None? <==> forall i :: 0 <= i < |PackageManagers| ==> !avail(PackageManagers[i]))
  {
    match pref
    case JStr(p) =>
      if p != "auto" && avail(p) then Picked(Some(p))
      else Picked(FirstAvailable(PackageManagers, avail))
    case _ => ProbeRaised(ArgumentTypeError(pref))
  }

  /** A warning line of the installer's log. */
  function WarningLine(message: string): string { "WARNING: " + message }

  /** The notice of a manager that resolves dependencies itself. */
  function ResolvingNotice(pm: string): string { "Using " + pm + " (dependency resolution enabled)..." }

  /** The unescalated install command for a manager and the notice line the
      worker emits before running it. */
  datatype InstallPlan = InstallPlan(argv: seq<string>, notice: string)

  /** The install command of each known package manager; `None` for any other
      name (including a preferred binary that is not one of the four). */
  function InstallCommand(pm: string, rpmPath: string): (r: Option<InstallPlan>)
    ensures r.Some? <==> pm in PackageManagers
    ensures r.Some? ==> |r.value.argv| == 4 && r.value.argv[0] == pm && r.value.argv[3] == rpmPath
    ensures r.Some? ==>
      r.value.argv[1..3] == (if pm == "zypper" then ["--non-interactive", "install"]
                             else if pm == "rpm" then ["-ivh", "--replacepkgs"]
                             else ["install", "-y"])
    // only the bare rpm fallback warns that dependencies are not resolved
    ensures r.Some? ==> ("WARNING: " <= r.value.notice <==> pm == "rpm")
    ensures r.Some? && pm != "rpm" ==> r.value.notice == ResolvingNotice(pm)
  {
    assert ResolvingNotice(pm)[0] == 'U';
    if pm == "dnf" then
      var argv := ["dnf", "install", "-y", rpmPath];
      assert "dnf"[0] != "zypper"[0] && "dnf"[0] != "rpm"[0];
      assert argv[1..3] == ["install", "-y"];
      Some(InstallPlan(argv, ResolvingNotice("dnf")))
    else if pm == "zypper" then
      var argv := ["zypper", "--non-interactive", "install", rpmPath];
      assert argv[1..3] == ["--non-interactive", "install"];
      Some(InstallPlan(argv, ResolvingNotice("zypper")))
    else if pm == "yum" then
      var argv := ["yum", "install", "-y", rpmPath];
      assert "yum"[0] != "zypper"[0] && "yum"[0] != "rpm"[0];
      assert argv[1..3] == ["install", "-y"];
      Some(InstallPlan(argv, ResolvingNotice("yum")))
    else if pm == "rpm" then
      var argv := ["rpm", "-ivh", "--replacepkgs", rpmPath];
      assert "rpm"[0] != "zypper"[0];
      assert argv[1..3] == ["-ivh", "--replacepkgs"];
      Some(InstallPlan(argv, WarningLine("Using rpm directly - no automatic dependency resolution.")))
    else None
  }

  const NoManagerLine: string := ErrorLine("No package manager found.")

  /** Everything one install run reports: the output lines in order, the
      finish code, and the command line handed to the spawn primitive, if any. */
  datatype InstallRun = InstallRun(lines: seq<string>, code: int, spawned: Option<seq<string>>)

  /** `InstallThread.run`. */
  function Run(settings: Settings, rpmPath: string, avail: Availability, spawn: Spawner): (r: InstallRun)
    // every path that spawns nothing reports exactly one error line and code 1
    ensures r.spawned.None? ==> |r.lines| == 1 && "ERROR: " <= r.lines[0] && r.code == 1
    // a non-string preference raises inside the probe, before anything else
    ensures !Preference(settings).JStr? ==>
      r == InstallRun([ErrorLine(ArgumentTypeError(Preference(settings)))], 1, None)
    // the missing-helper check comes first, so it wins when the manager is missing too
    ensures Preference(settings).JStr? && PickEscalation(avail).None? ==>
      r == InstallRun([NoEscalationLine], 1, None)
    ensures Preference(settings).JStr? && PickEscalation(avail).Some? ==>
      var pm := PickPackageManager(Preference(settings), avail).pm;
      (pm.None? || pm.value !in PackageManagers) ==> r == InstallRun([NoManagerLine], 1, None)
    // a command is spawned exactly when a helper and one of the four managers were found
    ensures r.spawned.Some? <==>
      && Preference(settings).JStr?
      && PickEscalation(avail).Some?
      && PickPackageManager(Preference(settings), avail).pm.Some?
      && PickPackageManager(Preference(settings), avail).pm.value in PackageManagers
    // and then it is the escalated install command, announced by its notice,
    // followed by the process's relayed output and finish code
    ensures r.spawned.Some? ==>
      var plan := InstallCommand(PickPackageManager(Preference(settings), avail).pm.value, rpmPath).value;
      && r.spawned.value == WithEscalation(PickEscalation(avail).value, plan.argv)
      && |r.lines| >= 1 && r.lines[0] == plan.notice
      && r.lines[1..] == Drain(spawn(r.spawned.value)).lines
      && r.code == Drain(spawn(r.spawned.value)).code
  {
    match PickPackageManager(Preference(settings), avail)
    case ProbeRaised(message) => InstallRun([ErrorLine(message)], 1, None)
    case Picked(pm) =>
      match PickEscalation(avail)
      case None => InstallRun([NoEscalationLine], 1, None)
      case Some(esc) =>
        var plan := if pm.Some? then InstallCommand(pm.value, rpmPath) else None;
        match plan
        case None => InstallRun([NoManagerLine], 1, None)
        case Some(InstallPlan(argv, notice)) =>
          var cmd := WithEscalation(esc, argv);
          var out := Drain(spawn(cmd));
          InstallRun([notice] + out.lines, out.code, Some(cmd))
  }

  /** When a run spawns nothing, what it reports does not depend on the spawn
      primitive at all: no process is started behind the caller's back. */
  lemma NoSpawnIsIndependent(settings: Settings, rpmPath: string, avail: Availability, spawn: Spawner, other: Spawner)
    requires Run(settings, rpmPath, avail, spawn).spawned.None?
    ensures Run(settings, rpmPath, avail, other) == Run(settings, rpmPath, avail, spawn)
  {
  }

  /** `_install_finished`: the install succeeded only on exit code 0. */
  predicate InstallSucceeded(code: int) { code == 0 }

  /** An install is reported successful exactly when a command was spawned
      and that process exited with code 0. */
  lemma SucceededIffExitedZero(settings: Settings, rpmPath: string, avail: Availability, spawn: Spawner)
    ensures var r := Run(settings, rpmPath, avail, spawn);
      InstallSucceeded(r.code) <==> r.spawned.Some? && spawn(r.spawned.value).end == Exited(0)
  {
  }
}
