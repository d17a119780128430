/** The updater's units of work: the task list built from the ticked update
    sources, and what the worker (`UpdateThread.run`) reports for one task. */
module Tasks {
  import opened Common
  import opened Resolver
  import opened Spawn

  /** The update sources offered as check boxes. */
  datatype Source = Dnf | Zypper | Yum | Flatpak | Snap

  /** One external command: a label, its argument vector, and whether it has
      to run through an escalation helper. */
  datatype TaskSpec = TaskSpec(name: string, argv: seq<string>, needsRoot: bool)

  const DnfUpgrade: TaskSpec := TaskSpec("DNF \U{2014} Upgrade packages", ["dnf", "upgrade", "-y"], true)
  const ZypperRefresh: TaskSpec := TaskSpec("Zypper \U{2014} Refresh repos", ["zypper", "refresh"], true)
  const ZypperUpdate: TaskSpec := TaskSpec("Zypper \U{2014} Update packages", ["zypper", "--non-interactive", "update"], true)
  const YumUpdate: TaskSpec := TaskSpec("YUM \U{2014} Update packages", ["yum", "update", "-y"], true)
  const FlatpakUpdate: TaskSpec := TaskSpec("Flatpak \U{2014} Update all", ["flatpak", "update", "-y"], false)
  const SnapRefresh: TaskSpec := TaskSpec("Snap \U{2014} Refresh all", ["snap", "refresh"], true)

  /** Every task the updater knows, in the order it appends them. */
  const Catalogue: seq<TaskSpec> := [DnfUpgrade, ZypperRefresh, ZypperUpdate, YumUpdate, FlatpakUpdate, SnapRefresh]

  /** The source a task belongs to, read from the binary it runs. */
  function SourceOf(t: TaskSpec): Option<Source>
  {
    if t.argv == [] then None
    else if t.argv[0] == "dnf" then Some(Dnf)
    else if t.argv[0] == "zypper" then Some(Zypper)
    else if t.argv[0] == "yum" then Some(Yum)
    else if t.argv[0] == "flatpak" then Some(Flatpak)
    else if t.argv[0] == "snap" then Some(Snap)
    else None
  }

  /** Whether a task belongs to one of the ticked sources. */
  function Selected(checked: Source -> bool): TaskSpec -> bool
  {
    t => SourceOf(t).Some? && checked(SourceOf(t).value)
  }

  /** `_build_task_list`: for each ticked source, in a fixed order, its tasks.
      The list is the catalogue restricted to the ticked sources. */
  function BuildTaskList(checked: Source -> bool): (tasks: seq<TaskSpec>)
    ensures tasks == Filter(Catalogue, Selected(checked))
  {
    CatalogueSelection(checked);
    (if checked(Dnf) then [DnfUpgrade] else [])
    + (if checked(Zypper) then [ZypperRefresh, ZypperUpdate] else [])
    + (if checked(Yum) then [YumUpdate] else [])
    + (if checked(Flatpak) then [FlatpakUpdate] else [])
    + (if checked(Snap) then [SnapRefresh] else [])
  }

  /** Restricting the catalogue to the ticked sources keeps, block by block,
      the tasks of each ticked source. */
  lemma CatalogueSelection(checked: Source -> bool)
    ensures Filter(Catalogue, Selected(checked)) ==
      (if checked(Dnf) then [DnfUpgrade] else [])
      + (if checked(Zypper) then [ZypperRefresh, ZypperUpdate] else [])
      + (if checked(Yum) then [YumUpdate] else [])
      + (if checked(Flatpak) then [FlatpakUpdate] else [])
      + (if checked(Snap) then [SnapRefresh] else [])
  {
    var sel := Selected(checked);
    CatalogueBlocks(sel);
    CatalogueSources();
    FilterSingle(DnfUpgrade, sel);
    FilterPair(ZypperRefresh, ZypperUpdate, sel);
    FilterSingle(YumUpdate, sel);
    FilterSingle(FlatpakUpdate, sel);
    FilterSingle(SnapRefresh, sel);
  }

  /** Each catalogue task belongs to the source that lists it. */
  lemma CatalogueSources()
    ensures SourceOf(DnfUpgrade) == Some(Dnf)
    ensures SourceOf(ZypperRefresh) == Some(Zypper) && SourceOf(ZypperUpdate) == Some(Zypper)
    ensures SourceOf(YumUpdate) == Some(Yum)
    ensures SourceOf(FlatpakUpdate) == Some(Flatpak)
    ensures SourceOf(SnapRefresh) == Some(Snap)
  {
    assert DnfUpgrade.argv[0] == "dnf";
    assert ZypperRefresh.argv[0] == "zypper" && ZypperUpdate.argv[0] == "zypper";
    assert YumUpdate.argv[0] == "yum";
    assert FlatpakUpdate.argv[0] == "flatpak";
    assert SnapRefresh.argv[0] == "snap";
  }

  /** Filtering the catalogue filters each source's block in turn. */
  lemma CatalogueBlocks(keep: TaskSpec -> bool)
    ensures Filter(Catalogue, keep) ==
      Filter([DnfUpgrade], keep) + Filter([ZypperRefresh, ZypperUpdate], keep) + Filter([YumUpdate], keep)
      + Filter([FlatpakUpdate], keep) + Filter([SnapRefresh], keep)
  {
    var a, b, c, d, e := [DnfUpgrade], [ZypperRefresh, ZypperUpdate], [YumUpdate], [FlatpakUpdate], [SnapRefresh];
    assert Catalogue == (((a + b) + c) + d) + e;
    FilterConcat(((a + b) + c) + d, e, keep);
    FilterConcat((a + b) + c, d, keep);
    FilterConcat(a + b, c, keep);
    FilterConcat(a, b, keep);
  }

  lemma FilterPair(x: TaskSpec, y: TaskSpec, keep: TaskSpec -> bool)
    requires keep(x) == keep(y)
    ensures Filter([x, y], keep) == if keep(x) then [x, y] else []
  {
    assert [x, y] == [x] + [y];
    FilterConcat([x], [y], keep);
    FilterSingle(x, keep);
    FilterSingle(y, keep);
  }

  /** The task list holds exactly the catalogue tasks of the ticked sources,
      in catalogue order. */
  lemma TaskListContents(checked: Source -> bool)
    ensures var tasks := BuildTaskList(checked);
      && Subsequence(tasks, Catalogue)
      && (forall i :: 0 <= i < |tasks| ==> tasks[i] in Catalogue && Selected(checked)(tasks[i]))
      && (forall i :: 0 <= i < |Catalogue| && Selected(checked)(Catalogue[i]) ==> Catalogue[i] in tasks)
  {
  }

  /** Only the flatpak task runs without escalation. */
  lemma TaskListEscalation(checked: Source -> bool)
    ensures var tasks := BuildTaskList(checked);
      forall i :: 0 <= i < |tasks| ==> (!tasks[i].needsRoot <==> SourceOf(tasks[i]) == Some(Flatpak))
  {
    var tasks := BuildTaskList(checked);
    CatalogueSources();
    forall i | 0 <= i < |tasks|
      ensures !tasks[i].needsRoot <==> SourceOf(tasks[i]) == Some(Flatpak)
    {
      assert tasks[i] in Catalogue;
    }
  }

  /** Zypper is ticked exactly when its refresh task appears, and then its
      update task comes right after it. */
  lemma TaskListZypperPair(checked: Source -> bool)
    ensures var tasks := BuildTaskList(checked);
      checked(Zypper) <==> exists i :: 0 <= i < |tasks| - 1 && tasks[i] == ZypperRefresh && tasks[i + 1] == ZypperUpdate
  {
    var tasks := BuildTaskList(checked);
    CatalogueSources();
    if checked(Zypper) {
      var front := if checked(Dnf) then [DnfUpgrade] else [];
      var i := |front|;
      assert tasks[i] == ZypperRefresh && tasks[i + 1] == ZypperUpdate;
    } else {
      assert !Selected(checked)(ZypperRefresh);
      assert ZypperRefresh !in tasks;
    }
  }

  /** The list is empty (the "Nothing selected" case) exactly when no source
      is ticked. */
  lemma TaskListEmpty(checked: Source -> bool)
    ensures BuildTaskList(checked) == [] <==> forall s: Source :: !checked(s)
  {
    if BuildTaskList(checked) == [] {
      forall s: Source ensures !checked(s) {
        match s
        case Dnf =>
        case Zypper =>
        case Yum =>
        case Flatpak =>
        case Snap =>
      }
    }
  }

  /** A task's outcome as the scheduler records it. */
  datatype TaskResult = TaskResult(name: string, code: int)

  /** What a subscriber observes. */
  datatype Event =
    | SessionStarted
    | Section(name: string)
    | Output(text: string)
    | Finished(code: int, name: string)
    | SessionFinished(ok: bool, failures: seq<TaskResult>)

  /** Output lines as events. */
  function Outputs(lines: seq<string>): (evs: seq<Event>)
    ensures |evs| == |lines|
    ensures forall i :: 0 <= i < |lines| ==> evs[i] == Output(lines[i])
  {
    seq(|lines|, i requires 0 <= i < |lines| => Output(lines[i]))
  }

  /** The shape of one task's events: its section first, then output lines
      only, then exactly one finish event naming the task. */
  predicate TaskTrace(events: seq<Event>, name: string)
  {
    && |events| >= 2
    && events[0] == Section(name)
    && events[|events| - 1].Finished?
    && events[|events| - 1].name == name
    && forall i :: 0 < i < |events| - 1 ==> events[i].Output?
  }

  /** The events of one task run and the command line handed to the spawn
      primitive, if any. */
  datatype TaskRun = TaskRun(events: seq<Event>, spawned: Option<seq<string>>)

  /** `UpdateThread.run`: announce the task, then either report the missing
      helper without spawning anything, or spawn the (possibly escalated)
      command and relay its output and exit code. */
  function RunTask(t: TaskSpec, avail: Availability, spawn: Spawner): (r: TaskRun)
    ensures TaskTrace(r.events, t.name)
    ensures r.spawned.None? <==> t.needsRoot && PickEscalation(avail).None?
    ensures r.spawned.None? ==> r.events == [Section(t.name), Output(NoEscalationLine), Finished(1, t.name)]
    ensures r.spawned.Some? && !t.needsRoot ==> r.spawned.value == t.argv
    ensures r.spawned.Some? && t.needsRoot ==>
      SplitEscalation(r.spawned.value) == Some((PickEscalation(avail).value, t.argv))
    ensures r.spawned.Some? ==>
      var out := Drain(spawn(r.spawned.value));
      && r.events[1..|r.events| - 1] == Outputs(out.lines)
      && r.events[|r.events| - 1] == Finished(out.code, t.name)
  {
    var cmd :=
      if !t.needsRoot then Some(t.argv)
      else match PickEscalation(avail)
        case None => None
        case Some(esc) => Some(WithEscalation(esc, t.argv));
    match cmd
    case None => TaskRun([Section(t.name), Output(NoEscalationLine), Finished(1, t.name)], None)
    case Some(c) =>
      var out := Drain(spawn(c));
      var events := [Section(t.name)] + Outputs(out.lines) + [Finished(out.code, t.name)];
      assert events[1..|events| - 1] == Outputs(out.lines);
      TaskRun(events, Some(c))
  }

  /** The exit code the finish event of a run carries. */
  function FinishCode(r: TaskRun): int
    requires |r.events| > 0 && r.events[|r.events| - 1].Finished?
  {
    r.events[|r.events| - 1].code
  }

  /** A task that spawns nothing reports the same events whatever the spawn
      primitive would have done. */
  lemma NoSpawnIsIndependent(t: TaskSpec, avail: Availability, spawn: Spawner, other: Spawner)
    requires RunTask(t, avail, spawn).spawned.None?
    ensures RunTask(t, avail, other) == RunTask(t, avail, spawn)
  {
  }
}
