/** The phase order of install, upgrade, removal and the self-upgrade handoff
    (wpm/archive.c) on top of the plan protocol.  What the system answers in
    between is left open.  */
module Drivers {
  import opened JsonFields
  import opened Operations

  /** Item `i` is executed and has finished the first `k` phases of its action. */
  ghost predicate Working(op: Operation, i: nat, action: string, k: nat)
    reads op
  {
    && op.Valid() && op.active && !op.collecting && op.executing == Some(i)
    && KnownAction(action) && k <= |Phases(action)|
    && var it := op.items[i];
       && it.plan.action == action && it.completed == Phases(action)[..k] && Tracked(op.history, i, it)
       && !it.failed && !it.journalFailed && LastRecord(op.history, i).Some?
  }

  /** The item has stopped; what it did is on record. */
  ghost predicate Stopped(op: Operation, i: nat)
    reads op
  {
    op.Valid() && op.active && !op.collecting && op.executing == Some(i) && Tracked(op.history, i, op.items[i])
  }

  /** The records are faithful, and so is the item in execution. */
  ghost predicate Sane(op: Operation)
    reads op
  {
    && op.Valid() && op.active && Faithful(op.history)
    && (op.executing.Some? ==> !op.collecting && Tracked(op.history, op.executing.value, op.items[op.executing.value]))
  }

  lemma PrefixNext(action: string, k: nat)
    requires k < |Phases(action)|
    ensures Phases(action)[..k] + [Phases(action)[k]] == Phases(action)[..k + 1] <= Phases(action)
  {}

  /** What a record writing keeps of the item. */
  predicate Same(a: Item, b: Item) {
    a.plan == b.plan && a.external == b.external && a.exit == b.exit
  }

  method Begin(op: Operation, phase: string, ghost i: nat, ghost action: string, ghost k: nat) returns (ok: bool)
    requires Working(op, i, action, k) && PhaseName(phase)
    modifies op`items, op`history
    ensures Quiet(old(op.history), op.history)
    ensures if ok then Working(op, i, action, k) && op.items[i].phase == phase && Same(op.items[i], old(op.items[i])) else Stopped(op, i)
  {
    hide Phases, Faithful, LastRecord, Written, Authorised, After, Running, Fresh, Quiet;
    ghost var it, h := op.items[i], op.history;
    ok := op.PhaseStart(phase);
    WrittenTracked(true, i, it, op.items[i], h, op.history, op.approvedPlan, phase, "in-progress", ok);
    WrittenIsQuiet(i, it, op.items[i], h, op.history, op.approvedPlan, phase, "in-progress", ok);
  }

  method Finish(op: Operation, phase: string, ghost i: nat, ghost action: string, ghost k: nat) returns (ok: bool)
    requires Working(op, i, action, k) && op.items[i].phase == phase && PhaseName(phase) && k < |Phases(action)| < PHASE_LIMIT && Phases(action)[k] == phase
    modifies op`items, op`history
    ensures Quiet(old(op.history), op.history)
    ensures if ok then Working(op, i, action, k + 1) && Same(op.items[i], old(op.items[i])) else Stopped(op, i)
  {
    hide Phases, Faithful, LastRecord, Written, Authorised, After, Running, Fresh, Quiet;
    ghost var it, h := op.items[i], op.history;
    PrefixNext(action, k);
    ok := op.PhaseFinish(phase);
    FinishTracked(true, i, it, op.items[i], h, op.history, op.approvedPlan, phase, ok);
    WrittenIsQuiet(i, it.(completed := it.completed + [phase]), op.items[i], h, op.history, op.approvedPlan, phase, "in-progress", ok);
  }

  lemma Announces(h: seq<Event>, i: nat, it: Item, phase: string)
    requires Tracked(h, i, it) && Announced(h, i, phase)
    ensures Tracked(h + [Process(i, phase)], i, it) && LastRecord(h + [Process(i, phase)], i) == LastRecord(h, i)
  {
    hide Phases;
    FaithfulNext(h, Process(i, phase));
  }

  /** The record says that external state may change before the process exists. */
  method StartExternal(op: Operation, phase: string, ghost i: nat, ghost action: string, ghost k: nat) returns (ok: bool)
    requires Working(op, i, action, k) && PhaseName(phase) && (phase == "script" ==> After(op.history).checked)
    modifies op`items, op`history
    ensures old(op.history) <= op.history
    ensures Ran(op.history, i) == old(Ran(op.history, i)) || Ran(op.history, i) == old(Ran(op.history, i)) + [phase]
    ensures Outcomes(op.history) == old(Outcomes(op.history))
    ensures if ok then
              && Working(op, i, action, k) && op.items[i].phase == phase && op.items[i].external && op.items[i].exit == None
              && Ran(op.history, i) == old(Ran(op.history, i)) + [phase]
            else Stopped(op, i)
  {
    hide Phases, Faithful, LastRecord, Written, Authorised, After, Running, Fresh, Announced, Ran, Quiet, Outcomes;
    ghost var it, h := op.items[i], op.history;
    ghost var unsure := it.(external := true, exit := None);
    TrackedSame(h, i, it, unsure);
    ok := op.ExternalStart(phase);
    WrittenTracked(true, i, unsure, op.items[i], h, op.history, op.approvedPlan, phase, "in-progress", ok);
    WrittenIsQuiet(i, unsure, op.items[i], h, op.history, op.approvedPlan, phase, "in-progress", ok);
    QuietKeeps(h, op.history, i);
    QuietExtends(h, op.history);
    if !ok { return; }
    h := op.history;
    Announces(h, i, op.items[i], phase);
    RanNext(h, Process(i, phase), i);
    OutcomesNext(h, Process(i, phase));
    ok := op.CreateProcess(phase);
  }

  lemma QuietExtends(h: seq<Event>, g: seq<Event>)
    requires Quiet(h, g)
    ensures h <= g
  {}

  method TakeResult(op: Operation, exit: ExitCode, ghost i: nat, ghost action: string, ghost k: nat) returns (ok: bool)
    requires Working(op, i, action, k) && op.items[i].phase == "script" && k < |Phases(action)| < PHASE_LIMIT && Phases(action)[k] == "script"
    modifies op`items, op`history
    ensures Quiet(old(op.history), op.history)
    ensures if ok && exit == 0 then
              Working(op, i, action, k + 1) && op.items[i].external == old(op.items[i].external) && op.items[i].exit == Some(0)
            else Stopped(op, i)
  {
    hide Phases, Faithful, LastRecord, Written, Authorised, After, Running, Fresh, Announced, Quiet;
    ghost var it, h := op.items[i], op.history;
    ghost var ended := it.(exit := Some(exit));
    TrackedSame(h, i, it, ended);
    PrefixNext(action, k);
    ok := op.ScriptResult(exit);
    if exit != 0 {
      TrackedSame(h, i, ended, ended.(failed := true));
      WrittenTracked(true, i, ended.(failed := true), op.items[i], h, op.history, op.approvedPlan, "script", "failed", ok);
      WrittenIsQuiet(i, ended.(failed := true), op.items[i], h, op.history, op.approvedPlan, "script", "failed", ok);
    } else {
      FinishTracked(true, i, ended, op.items[i], h, op.history, op.approvedPlan, "script", ok);
      WrittenIsQuiet(i, ended.(completed := ended.completed + ["script"]), op.items[i], h, op.history, op.approvedPlan, "script", "in-progress", ok);
    }
  }

  /** The script a package brings for the action, and how its run ends. */
  datatype Script = NoScript | Script(exit: ExitCode)

  function ExitOf(script: Script): Option<ExitCode> {
    if script.Script? then Some(0) else None
  }

  /** What must have run for an item. */
  function Expects(script: Script): seq<string> {
    if script.Script? then ["script"] else []
  }

  /** The outcome of the script is on the item: it ran and ended well, or there was none. */
  predicate Noted(it: Item, script: Script) {
    it.external == script.Script? && it.exit == ExitOf(script) && (script.Script? ==> script.exit == 0)
  }

  /** Working, and what has run so far is this script. */
  ghost predicate Ahead(op: Operation, i: nat, action: string, k: nat, script: Script)
    reads op
  {
    Working(op, i, action, k) && Ran(op.history, i) == Expects(script) && Noted(op.items[i], script)
  }

  /** `run_package_script`: a script that exists is run, once, after the checks and
      with the uncertainty on record; a missing one finishes the phase. */
  method RunPackageScript(op: Operation, script: Script, ghost i: nat, ghost action: string, ghost k: nat) returns (ok: bool)
    requires Ahead(op, i, action, k, NoScript) && k < |Phases(action)| < PHASE_LIMIT && Phases(action)[k] == "script"
    modifies op`items, op`history
    ensures old(op.history) <= op.history
    ensures Ran(op.history, i) == [] || Ran(op.history, i) == Expects(script)
    ensures Outcomes(op.history) == old(Outcomes(op.history))
    ensures if ok then Ahead(op, i, action, k + 1, script) else Stopped(op, i)
  {
    hide Phases, Faithful, LastRecord, Written, Authorised, After, Running, Fresh, Announced, Ran, Quiet, Tracked, Outcomes;
    ok := Check(op, i, action, k);
    if !ok { return; }
    ghost var h := op.history;
    ok := Begin(op, "script", i, action, k);
    QuietExtends(h, op.history);
    QuietKeeps(h, op.history, i);
    if !ok { return; }
    var named: bool, logged: bool := *, *;
    if !named { WorkingCanStop(op, i, action, k); return false; }
    h := op.history;
    if script.NoScript? {
      ok := Finish(op, "script", i, action, k);
      QuietExtends(h, op.history);
      QuietKeeps(h, op.history, i);
      return;
    }
    if !logged { WorkingCanStop(op, i, action, k); return false; }
    ok := StartExternal(op, "script", i, action, k);
    if !ok { return; }
    h := op.history;
    ok := TakeResult(op, script.exit, i, action, k);
    QuietExtends(h, op.history);
    QuietKeeps(h, op.history, i);
    ok := ok && script.exit == 0;
  }

  /** Input and controlled state are those that were approved. */
  method Check(op: Operation, ghost i: nat, ghost action: string, ghost k: nat) returns (ok: bool)
    requires Working(op, i, action, k)
    modifies op`history
    ensures old(op.history) <= op.history && Ran(op.history, i) == old(Ran(op.history, i))
    ensures Outcomes(op.history) == old(Outcomes(op.history))
    ensures if ok then Working(op, i, action, k) && After(op.history).checked else Stopped(op, i)
  {
    hide Phases, Faithful, LastRecord, Authorised, Running, Fresh, Announced, Ran, Outcomes;
    ghost var h := op.history;
    var fingerprint: Option<Digest>, file: Option<string>, state: Option<Digest> := *, *, *;
    ok := op.BeforeScript(fingerprint, file, state);
    if ok {
      ghost var e := Checked(i, fingerprint.value, file.value, state.value);
      FaithfulNext(h, e);
      Extended(h, e);
      RanNext(h, e, i);
      OutcomesNext(h, e);
    }
  }

  /** The last item has completed with its whole phase list on record, and with
      what ran for it. */
  predicate Done(h: seq<Event>, action: string, ran: seq<string>, external: bool, exit: Option<ExitCode>) {
    && |h| >= 2 && h[|h| - 1].Complete? && h[|h| - 2].Commit? && h[|h| - 2].i == h[|h| - 1].i
    && Ran(h, h[|h| - 1].i) == ran
    && var r := h[|h| - 2].record;
       && r.plan.action == action && Final(r.status) && r.completed == Phases(action)
       && r.external == external && r.exit == exit
  }

  /** An item of a package with this script has completed. */
  predicate DoneWith(h: seq<Event>, action: string, script: Script) {
    Done(h, action, Expects(script), script.Script?, ExitOf(script))
  }

  /** The last commit of the whole phase list, and the completion behind it. */
  lemma ConcludedRecord(i: nat, it: Item, now: Item, h: seq<Event>, g: seq<Event>, planDigest: string, state: Digest)
    requires it.completed == Phases(it.plan.action)
    requires Written(i, it, now, h, g, planDigest, FinalPhase(it.plan.action), FinalStatus(it.plan.action), true)
    ensures Done(g + [Complete(i, state)], it.plan.action, Ran(h, i), it.external, it.exit)
  {
    hide Phases, Ran;
    WrittenIsQuiet(i, it, now, h, g, planDigest, FinalPhase(it.plan.action), FinalStatus(it.plan.action), true);
    QuietKeeps(h, g, i);
    RanNext(g, Complete(i, state), i);
  }

  method Conclude(op: Operation, ghost i: nat, ghost action: string) returns (ok: bool)
    requires Working(op, i, action, |Phases(action)|) && (action == "self-upgrade" ==> op.items[i].external)
    requires op.items[i].external <==> Ran(op.history, i) != []
    modifies op`items, op`history, op`approvedState, op`executing
    ensures Sane(op) && !op.collecting && old(op.history) <= op.history
    ensures if ok then
              && op.executing == None && Done(op.history, action, old(Ran(op.history, i)), old(op.items[i].external), old(op.items[i].exit))
              && Outcomes(op.history) == old(Outcomes(op.history)) + [(action, old(Ran(op.history, i)))]
            else op.executing == Some(i) && Outcomes(op.history) == old(Outcomes(op.history))
  {
    hide Faithful, LastRecord, Authorised, After, Running, Fresh, Announced, Phases, Written, Done, Ran, Quiet, Outcomes;
    ghost var it, h := op.items[i], op.history;
    assert it.completed == Phases(action);
    var state: Option<Digest> := *;
    ok := op.Completed(state);
    ghost var g := if ok && op.history != [] then op.history[..|op.history| - 1] else op.history;
    WrittenFaithful(i, it, op.items[i], h, g, op.approvedPlan, FinalPhase(action), FinalStatus(action), ok);
    WrittenExtends(i, it, op.items[i], h, g, op.approvedPlan, FinalPhase(action), FinalStatus(action), ok);
    WrittenIsQuiet(i, it, op.items[i], h, g, op.approvedPlan, FinalPhase(action), FinalStatus(action), ok);
    QuietKeeps(h, g, i);
    if ok {
      OutcomesNext(g, Complete(i, StateOr(state)));
      FaithfulNext(g, Complete(i, StateOr(state)));
      ConcludedRecord(i, it, op.items[i], h, g, op.approvedPlan, StateOr(state));
    }
  }

  lemma WrittenExtends(i: nat, it: Item, now: Item, h: seq<Event>, g: seq<Event>, planDigest: string, phase: string, status: string, ok: bool)
    requires Written(i, it, now, h, g, planDigest, phase, status, ok)
    ensures h <= g && (Faithful(g) && !ok && Tracked(h, i, it) ==> Tracked(g, i, now))
  {}

  lemma PhasesAreNames(action: string, k: nat)
    requires KnownAction(action) && k < |Phases(action)|
    ensures PhaseName(Phases(action)[k])
  {}

  /** A phase: start it, do the work, finish it. */
  method Phase(op: Operation, phase: string, ghost i: nat, ghost action: string, ghost k: nat, ghost script: Script) returns (ok: bool)
    requires Ahead(op, i, action, k, script)
    requires k < |Phases(action)| < PHASE_LIMIT && Phases(action)[k] == phase
    modifies op`items, op`history
    ensures old(op.history) <= op.history && Ran(op.history, i) == Expects(script) && Outcomes(op.history) == old(Outcomes(op.history))
    ensures if ok then Ahead(op, i, action, k + 1, script) else Stopped(op, i)
  {
    hide Phases, Tracked, LastRecord, Authorised, After, Running, Fresh, PhaseName, Quiet, Ran, Outcomes;
    PhasesAreNames(action, k);
    ghost var h := op.history;
    ok := Begin(op, phase, i, action, k);
    QuietExtends(h, op.history);
    QuietKeeps(h, op.history, i);
    if !ok { return; }
    var worked: bool := *;
    if !worked { WorkingCanStop(op, i, action, k); return false; }
    h := op.history;
    ok := Finish(op, phase, i, action, k);
    QuietExtends(h, op.history);
    QuietKeeps(h, op.history, i);
  }

  lemma WorkingCanStop(op: Operation, i: nat, action: string, k: nat)
    requires Working(op, i, action, k)
    ensures Stopped(op, i)
  {}

  lemma StoppedIsSane(op: Operation, i: nat)
    requires Stopped(op, i)
    ensures Sane(op)
  {}

  /** Collection added a plan for the action, or nothing. */
  predicate Added(old0: seq<Item>, now: seq<Item>, ok: bool, action: string) {
    if ok then |now| == |old0| + 1 && now[..|old0|] == old0 && now[|old0|].plan.action == action else now == old0
  }

  /** Begin or refuse an item; during collection only plan it. */
  method Enter(op: Operation, action: string) returns (ok: bool)
    requires Sane(op) && KnownAction(action)
    modifies op`items, op`history, op`executing
    ensures Sane(op) && old(op.history) <= op.history
    ensures op.collecting ==> Added(old(op.items), op.items, ok, action)
    ensures op.collecting || old(op.executing).Some? ==> op.history == old(op.history) && op.executing == old(op.executing)
    ensures old(op.executing).Some? ==> !ok
    ensures !op.collecting && ok ==>
              old(op.executing) == None && op.executing.Some? && Ahead(op, op.executing.value, action, 1, NoScript)
    ensures Outcomes(op.history) == old(Outcomes(op.history))
    ensures !op.collecting && !ok && op.executing.None? ==> op.history == old(op.history)
  {
    hide Faithful, LastRecord, Authorised, After, Running, Fresh, Announced, Ran, Outcomes, Quiet;
    var oldVersion: Option<string>, source: Option<string>, seen: Seen := *, *, *;
    ghost var h, i := op.history, op.executing;
    ok := op.Archive(action, oldVersion, source, seen);
    if i.None? && op.executing.Some? {
      var e := Start(op.executing.value, op.approvedState);
      OutcomesNext(h, e);
      QuietKeeps(h + [e], op.history, op.executing.value);
      QuietExtends(h + [e], op.history);
    }
    if ok { FirstPhase(action); }
  }

  lemma FirstPhase(action: string)
    requires KnownAction(action)
    ensures |Phases(action)| >= 1 && Phases(action)[..1] == ["retain-input"]
  {
    var p := Phases(action);
    assert p[0] == "retain-input" && p[..1] == [p[0]];
  }

  /** `wpm_archive_install` and `wpm_archive_upgrade` go through the same phases. */
  method Deploy(op: Operation, action: string, script: Script) returns (ok: bool)
    requires action == "install" || action == "upgrade"
    requires Sane(op)
    modifies op`items, op`history, op`executing, op`approvedState
    ensures Sane(op) && old(op.history) <= op.history
    ensures op.collecting ==> Added(old(op.items), op.items, ok, action)
    ensures op.collecting || old(op.executing).Some? ==> op.history == old(op.history) && op.executing == old(op.executing)
    ensures old(op.executing).Some? ==> !ok
    ensures !op.collecting && ok ==> op.executing == None && DoneWith(op.history, action, script)
    ensures Outcomes(op.history) == old(Outcomes(op.history)) + if ok && !op.collecting then [(action, Expects(script))] else []
    ensures !op.collecting && !ok && op.executing.None? ==> op.history == old(op.history)
  {
    hide Faithful, LastRecord, Authorised, After, Running, Fresh, Tracked, Done, Ran, Outcomes;
    ok := Enter(op, action);
    if !ok || op.collecting { return; }
    ghost var i := op.executing.value;
    var prepared: bool := *;
    if !prepared { WorkingCanStop(op, i, action, 1); StoppedIsSane(op, i); return false; }
    ok := DeployPhases(op, script, i, action);
    if !ok { StoppedIsSane(op, i); return; }
    assert op.items[i].external == script.Script? && op.items[i].exit == ExitOf(script);
    ok := Conclude(op, i, action);
  }

  method DeployPhases(op: Operation, script: Script, ghost i: nat, ghost action: string) returns (ok: bool)
    requires action == "install" || action == "upgrade"
    requires Ahead(op, i, action, 1, NoScript)
    modifies op`items, op`history
    ensures old(op.history) <= op.history && |Phases(action)| == 8
    ensures Ran(op.history, i) == [] || Ran(op.history, i) == Expects(script)
    ensures Outcomes(op.history) == old(Outcomes(op.history))
    ensures if ok then Ahead(op, i, action, 8, script) else Stopped(op, i)
  {
    hide Ahead, Stopped, Ran, Outcomes;
    ok := Phase(op, "stage", i, action, 1, NoScript);
    if !ok { return; }
    ok := Phase(op, "extract", i, action, 2, NoScript);
    if !ok { return; }
    ok := Phase(op, "validate", i, action, 3, NoScript);
    if !ok { return; }
    ok := RunPackageScript(op, script, i, action, 4);
    if !ok { return; }
    ok := Phase(op, "retain-archive", i, action, 5, script);
    if !ok { return; }
    ok := Phase(op, "audit", i, action, 6, script);
    if !ok { return; }
    ok := Phase(op, "cleanup", i, action, 7, script);
  }

  /** `wpm_archive_remove` */
  method Remove(op: Operation, script: Script) returns (ok: bool)
    requires Sane(op)
    modifies op`items, op`history, op`executing, op`approvedState
    ensures Sane(op) && old(op.history) <= op.history
    ensures op.collecting ==> Added(old(op.items), op.items, ok, "remove")
    ensures op.collecting || old(op.executing).Some? ==> op.history == old(op.history) && op.executing == old(op.executing)
    ensures !op.collecting && ok ==> op.executing == None && DoneWith(op.history, "remove", script)
    ensures Outcomes(op.history) == old(Outcomes(op.history)) + if ok && !op.collecting then [("remove", Expects(script))] else []
    ensures !op.collecting && !ok && op.executing.None? ==> op.history == old(op.history)
  {
    hide Faithful, LastRecord, Authorised, After, Running, Fresh, Tracked, Done, Ran, Outcomes;
    var named: bool := *;
    if !named { return false; }
    ok := Enter(op, "remove");
    if !ok || op.collecting { return; }
    ghost var i := op.executing.value;
    ok := RemovePhases(op, script, i);
    if !ok { StoppedIsSane(op, i); return; }
    assert op.items[i].external == script.Script? && op.items[i].exit == ExitOf(script);
    ok := Conclude(op, i, "remove");
  }

  method RemovePhases(op: Operation, script: Script, ghost i: nat) returns (ok: bool)
    requires Ahead(op, i, "remove", 1, NoScript)
    modifies op`items, op`history
    ensures old(op.history) <= op.history && |Phases("remove")| == 7
    ensures Ran(op.history, i) == [] || Ran(op.history, i) == Expects(script)
    ensures Outcomes(op.history) == old(Outcomes(op.history))
    ensures if ok then Ahead(op, i, "remove", 7, script) else Stopped(op, i)
  {
    hide Ahead, Stopped, Ran, Outcomes;
    ok := Phase(op, "stage", i, "remove", 1, NoScript);
    if !ok { return; }
    ok := Phase(op, "extract", i, "remove", 2, NoScript);
    if !ok { return; }
    ok := Phase(op, "validate", i, "remove", 3, NoScript);
    if !ok { return; }
    ok := RunPackageScript(op, script, i, "remove", 4);
    if !ok { return; }
    ok := Phase(op, "remove-record", i, "remove", 5, script);
    if !ok { return; }
    ok := Phase(op, "cleanup", i, "remove", 6, script);
  }

  /** `wpm_archive_schedule_self_upgrade`: the handoff process finishes the work. */
  method ScheduleSelfUpgrade(op: Operation) returns (ok: bool)
    requires Sane(op)
    modifies op`items, op`history, op`executing, op`approvedState
    ensures Sane(op) && old(op.history) <= op.history
    ensures op.collecting ==> Added(old(op.items), op.items, ok, "self-upgrade")
    ensures op.collecting || old(op.executing).Some? ==> op.history == old(op.history) && op.executing == old(op.executing)
    ensures !op.collecting && ok ==> op.executing == None && Done(op.history, "self-upgrade", ["handoff"], true, None)
    ensures Outcomes(op.history) == old(Outcomes(op.history)) + if ok && !op.collecting then [("self-upgrade", ["handoff"])] else []
    ensures !op.collecting && !ok && op.executing.None? ==> op.history == old(op.history)
  {
    hide Faithful, LastRecord, Authorised, After, Running, Fresh, Tracked, Done, Ran, Outcomes;
    ok := Enter(op, "self-upgrade");
    if !ok || op.collecting { return; }
    ghost var i := op.executing.value;
    var staged: bool := *;
    if op.readOnly || !staged { WorkingCanStop(op, i, "self-upgrade", 1); StoppedIsSane(op, i); return false; }
    ok := StartExternal(op, "handoff", i, "self-upgrade", 1);
    if !ok { StoppedIsSane(op, i); return; }
    var removed: bool := *;
    if !removed { WorkingCanStop(op, i, "self-upgrade", 1); StoppedIsSane(op, i); return false; }
    assert Ran(op.history, i) == ["handoff"] && op.items[i].external == true && op.items[i].exit == None;
    ok := Conclude(op, i, "self-upgrade");
  }

  // ----- what faithful records say -----

  lemma {:induction false} FaithfulPrefix(h: seq<Event>, n: nat)
    requires Faithful(h) && n <= |h|
    ensures Faithful(h[..n]) && (n < |h| ==> Tells(h[..n], h[n]))
    decreases |h|
  {
    if n < |h| {
      var init := h[..|h| - 1];
      FaithfulPrefix(init, n);
      assert init[..n] == h[..n];
      if n + 1 < |h| { assert init[n] == h[n]; }
    } else {
      assert h[..n] == h;
    }
  }

  /** No script or handoff process exists before its uncertainty is on record. */
  lemma ProcessesAreAnnounced(h: seq<Event>, q: nat)
    requires Faithful(h) && q < |h| && h[q].Process?
    ensures q > 0 && h[q - 1].Commit? && h[q - 1].i == h[q].i
    ensures h[q - 1].record.external && h[q - 1].record.status == "in-progress" && h[q - 1].record.phase == h[q].phase
  {
    FaithfulPrefix(h, q);
    assert Announced(h[..q], h[q].i, h[q].phase);
    assert h[..q][q - 1] == h[q - 1];
  }

  /** The records of an item only grow, keep the uncertainty, and a final one is
      the last. */
  lemma {:induction false} RecordsGrow(h: seq<Event>, p: nat, q: nat)
    requires Faithful(h) && p < q < |h| && h[p].Commit? && h[q].Commit? && h[p].i == h[q].i
    ensures h[p].record.completed <= h[q].record.completed && !Final(h[p].record.status)
    ensures h[p].record.external ==> h[q].record.external
    decreases q
  {
    FaithfulPrefix(h, q);
    var m := RecordBefore(h, q, p);
    if m != p { RecordsGrow(h, p, m); }
  }

  lemma {:induction false} RecordBefore(h: seq<Event>, q: nat, p: nat) returns (m: nat)
    requires p < q <= |h| && h[p].Commit?
    ensures p <= m < q && h[m].Commit? && h[m].i == h[p].i && LastRecord(h[..q], h[p].i) == Some(h[m].record)
    decreases q
  {
    var t := h[..q];
    assert t[..q - 1] == h[..q - 1] && t[q - 1] == h[q - 1];
    if h[q - 1].Commit? && h[q - 1].i == h[p].i {
      m := q - 1;
    } else {
      m := RecordBefore(h, q - 1, p);
    }
  }

  /** The last record of an item names a prefix of its action's phases, and says
      "completed" only with all of them. */
  lemma {:induction false} LastRecordIsHonest(h: seq<Event>, i: nat)
    requires Faithful(h) && LastRecord(h, i).Some?
    ensures var r := LastRecord(h, i).value;
            && r.completed <= Phases(r.plan.action)
            && (r.status == "completed" ==> r.completed == Phases(r.plan.action))
  {
    if !(h[|h| - 1].Commit? && h[|h| - 1].i == i) { LastRecordIsHonest(h[..|h| - 1], i); }
  }

  /** The last record of an item that ran a process says that external state may
      have changed. */
  lemma UncertaintyStays(h: seq<Event>, q: nat)
    requires Faithful(h) && q < |h| && h[q].Process?
    ensures LastRecord(h, h[q].i).Some? && LastRecord(h, h[q].i).value.external
  {
    hide Faithful, LastRecord;
    ProcessesAreAnnounced(h, q);
    var m := RecordBefore(h, |h|, q - 1);
    assert h[..|h|] == h;
    if m > q - 1 { RecordsGrow(h, q - 1, m); }
  }

  /** The last record of an item that completed is its final one; it tells exactly
      whether a process had been created for the item. */
  lemma CompletionStays(h: seq<Event>, q: nat)
    requires Faithful(h) && q < |h| && h[q].Complete?
    ensures LastRecord(h, h[q].i).Some? && Final(LastRecord(h, h[q].i).value.status)
    ensures LastRecord(h, h[q].i).value.external <==> Ran(h[..q], h[q].i) != []
  {
    hide Faithful, LastRecord, Final, Ran;
    FaithfulPrefix(h, q);
    FinalStays(h, q, |h|, h[q].i);
    assert h[..|h|] == h;
  }

  lemma {:induction false} FinalStays(h: seq<Event>, p: nat, q: nat, i: nat)
    requires Faithful(h) && p <= q <= |h| && LastRecord(h[..p], i).Some? && Final(LastRecord(h[..p], i).value.status)
    ensures LastRecord(h[..q], i) == LastRecord(h[..p], i)
    decreases q - p
  {
    hide Faithful, LastRecord, Final, Honest, Announced;
    if p < q {
      FinalStays(h, p, q - 1, i);
      FaithfulPrefix(h, q - 1);
      assert h[..q] == h[..q - 1] + [h[q - 1]];
      FaithfulNext(h[..q - 1], h[q - 1]);
    }
  }

  lemma {:induction false} LastCommit(h: seq<Event>, i: nat) returns (q: nat)
    requires LastRecord(h, i).Some?
    ensures q < |h| && h[q].Commit? && h[q].i == i && LastRecord(h, i).value == h[q].record
  {
    if h[|h| - 1].Commit? && h[|h| - 1].i == i { q := |h| - 1; } else { q := LastCommit(h[..|h| - 1], i); }
  }

  // ----- a whole invocation -----

  /** What a command does for one package; `source` is the locator of a package
      that was selected from a repository, and otherwise "". */
  datatype Command =
    | InstallPackage(source: string, script: Script)
    | UpgradePackage(source: string, script: Script)
    | UpgradeSelf(source: string)
    | RemovePackage(script: Script)

  /** What the command achieves when it succeeds. */
  function Wanted(command: Command): (string, seq<string>) {
    match command
    case InstallPackage(_, script) => ("install", Expects(script))
    case UpgradePackage(_, script) => ("upgrade", Expects(script))
    case UpgradeSelf(_) => ("self-upgrade", ["handoff"])
    case RemovePackage(script) => ("remove", Expects(script))
  }

  function AllWanted(commands: seq<Command>): seq<(string, seq<string>)> {
    seq(|commands|, n requires 0 <= n < |commands| => Wanted(commands[n]))
  }

  method RunCommand(op: Operation, command: Command) returns (ok: bool)
    requires Sane(op)
    modifies op`items, op`history, op`executing, op`approvedState, op`selectedSource
    ensures Sane(op) && old(op.history) <= op.history
    ensures op.collecting && old(op.executing).None? ==> op.executing.None? && op.history == old(op.history)
    ensures op.collecting ==> Added(old(op.items), op.items, ok, Wanted(command).0)
    ensures Outcomes(op.history) == old(Outcomes(op.history)) + if ok && !op.collecting then [Wanted(command)] else []
  {
    hide Sane, Faithful, Done, Authorised, After, Ran, Outcomes;
    var found: bool := *;
    if !found { return false; }
    match command {
      case InstallPackage(source, script) =>
        SelectSource(op, source);
        ok := Deploy(op, "install", script);
        SelectSource(op, "");
      case UpgradePackage(source, script) =>
        SelectSource(op, source);
        ok := Deploy(op, "upgrade", script);
        SelectSource(op, "");
      case UpgradeSelf(source) =>
        SelectSource(op, source);
        ok := ScheduleSelfUpgrade(op);
        SelectSource(op, "");
      case RemovePackage(script) => ok := Remove(op, script);
    }
  }

  method SelectSource(op: Operation, source: string)
    requires Sane(op)
    modifies op`selectedSource
    ensures Sane(op) && op.selectedSource == source
  {
    hide Faithful, Authorised, After, Tracked, LastRecord;
    op.SetSource(source);
  }

  /** Collection added a plan for every command, in order. */
  predicate AllAdded(old0: seq<Item>, now: seq<Item>, commands: seq<Command>) {
    && |now| == |old0| + |commands| && now[..|old0|] == old0
    && forall n :: 0 <= n < |commands| ==> now[|old0| + n].plan.action == Wanted(commands[n]).0
  }

  lemma NothingPlanned(items: seq<Item>, none: seq<Command>)
    requires none == []
    ensures AllAdded(items, items, none)
  {}

  lemma PlannedNext(a: seq<Item>, b: seq<Item>, c: seq<Item>, commands: seq<Command>, n: nat)
    requires n < |commands| && AllAdded(a, b, commands[..n]) && Added(b, c, true, Wanted(commands[n]).0)
    ensures AllAdded(a, c, commands[..n + 1])
  {
    hide Wanted;
    assert c[..|b|] == b;
    assert c[..|a|] == b[..|a|];
  }

  /** The commands one after the other.  Whether a failure ends the loop, as for
      install and remove, or not, as for upgrade, is left open. */
  method Dispatch(op: Operation, commands: seq<Command>) returns (ok: bool)
    requires Sane(op)
    modifies op`items, op`history, op`executing, op`approvedState, op`selectedSource
    ensures Sane(op) && old(op.history) <= op.history
    ensures op.collecting && old(op.executing).None? ==> op.executing.None? && op.history == old(op.history)
    ensures ok && !op.collecting ==> Outcomes(op.history) == old(Outcomes(op.history)) + AllWanted(commands)
    ensures ok && op.collecting ==> AllAdded(old(op.items), op.items, commands)
  {
    hide Sane, Faithful, Done, Outcomes, Wanted, AllAdded, Added;
    ok := true;
    NothingPlanned(op.items, commands[..0]);
    assert old(Outcomes(op.history)) + AllWanted(commands[..0]) == old(Outcomes(op.history));
    for n := 0 to |commands|
      invariant Sane(op) && old(op.history) <= op.history
      invariant op.collecting && old(op.executing).None? ==> op.executing.None? && op.history == old(op.history)
      invariant ok && !op.collecting ==> Outcomes(op.history) == old(Outcomes(op.history)) + AllWanted(commands[..n])
      invariant ok && op.collecting ==> AllAdded(old(op.items), op.items, commands[..n])
    {
      assert AllWanted(commands[..n + 1]) == AllWanted(commands[..n]) + [Wanted(commands[n])];
      ghost var before := op.items;
      var done := RunCommand(op, commands[n]);
      if ok && done && op.collecting { PlannedNext(old(op.items), before, op.items, commands, n); }
      if !done {
        ok := false;
        var ends: bool := *;
        if ends { return; }
      }
    }
    assert commands[..|commands|] == commands;
  }

  /** Ask for approval, with the result of `wpm_operation_confirm`; whatever the
      answer, the records stay faithful. */
  method Ask(op: Operation, planHash: (seq<Plan>, Digest) -> string, checks: Plan -> (Option<Digest>, Option<string>)) returns (r: int)
    requires Sane(op) && op.collecting
    modifies op`collecting, op`history, op`approvedState, op`approvedPlan
    ensures Sane(op) && (r == 1 ==> !op.collecting && !op.readOnly)
    ensures r != 1 ==> op.history == old(op.history)
    ensures r == 1 ==> exists state :: op.history == old(op.history) + [Approve(PlansOf(op.items), state, planHash(PlansOf(op.items), state))]
  {
    hide Faithful, Authorised, After, Running, Fresh, Tracked;
    var state: Option<Digest>, current: Option<Digest>, rooted: bool, answer: Option<string> := *, *, *, *;
    ghost var before := op.history;
    r := op.Confirm(state, rooted, planHash, answer, current, checks);
    if r == 1 { FaithfulNext(before, op.history[|before|]); }
  }

  method Open(yes: bool, readOnly: bool) returns (op: Operation)
    ensures fresh(op) && Sane(op) && op.collecting && op.items == [] && op.executing == None && op.readOnly == readOnly
    ensures op.history == if readOnly then [ReadOnly] else []
  {
    op := new Operation(yes);
    if readOnly { op.SetReadOnly(); }
    StartsFaithful(op.history);
  }

  /** An invocation plans, asks, executes and closes.  The command is dispatched
      a second time for execution and may then select other packages.  Whatever
      the system answers, its history is authorised and its records are faithful;
      success means that everything selected for execution has completed, in
      order, and that exactly the scripts that exist have run, or that nothing was
      approved.  What is approved has the actions that were planned. */
  method Invocation(yes: bool, readOnly: bool, planned: seq<Command>, executed: seq<Command>, planHash: (seq<Plan>, Digest) -> string,
                    checks: Plan -> (Option<Digest>, Option<string>)) returns (ok: bool, ghost h: seq<Event>)
    ensures Authorised(h) && Faithful(h)
    ensures forall q :: 0 <= q < |h| && h[q].Approve? ==> h[q].digest == planHash(h[q].plans, h[q].state)
    ensures readOnly ==> h == [ReadOnly]
    ensures ok ==> Outcomes(h) == AllWanted(executed) || forall q :: 0 <= q < |h| ==> h[q].ReadOnly?
    ensures forall q :: 0 <= q < |h| && h[q].Approve? ==>
              |h[q].plans| == |planned| && forall n :: 0 <= n < |planned| ==> h[q].plans[n].action == Wanted(planned[n]).0
  {
    hide Sane, Faithful, Authorised, Outcomes, AllWanted, Wanted;
    var op := Open(yes, readOnly);
    StartOutcomes(op.history);
    ok := Dispatch(op, planned);
    if ok {
      assert op.items[..|op.items|] == op.items;
      var answer := Ask(op, planHash, checks);
      ghost var g := op.history;
      if answer == 1 {
        OutcomesNext(g[..|g| - 1], g[|g| - 1]);
        assert g == g[..|g| - 1] + [g[|g| - 1]];
        ok := Dispatch(op, executed);
        assert [] + AllWanted(executed) == AllWanted(executed);
      } else {
        ok := answer == 0;
      }
      Close(op);
      ValidIsAuthorised(op);
      h := op.history;
      if answer == 1 { OneApproval(h, |g| - 1); }
    } else {
      Close(op);
      ValidIsAuthorised(op);
      h := op.history;
    }
  }

  lemma StartOutcomes(h: seq<Event>)
    requires h == [] || h == [ReadOnly]
    ensures Outcomes(h) == []
  {}

  /** There is at most one approval. */
  lemma OneApproval(h: seq<Event>, p: nat)
    requires Authorised(h) && p < |h| && h[p].Approve?
    ensures forall q :: 0 <= q < |h| && h[q].Approve? ==> q == p
  {
    hide Authorised, After;
    forall q | 0 <= q < |h| && h[q].Approve? ensures q == p {
      var i, j := if q < p then q else p, if q < p then p else q;
      if i < j {
        Prefix(h, i);
        Prefix(h, j);
        Advances(h, i + 1, j);
      }
    }
  }

  lemma ValidIsAuthorised(op: Operation)
    requires op.Valid()
    ensures Authorised(op.history)
  {}

  lemma StartsFaithful(h: seq<Event>)
    requires h == [] || h == [ReadOnly]
    ensures Faithful(h)
  {}

  method Close(op: Operation)
    requires Sane(op)
    modifies op
    ensures op.Valid() && Faithful(op.history) && old(op.history) <= op.history && Outcomes(op.history) == old(Outcomes(op.history))
    ensures old(op.executing).None? ==> op.history == old(op.history)
  {
    hide Faithful, LastRecord, Phases, Authorised, After, Outcomes;
    ghost var e, items, h, digest := op.executing, op.items, op.history, op.approvedPlan;
    op.CloseOperation();
    if e.Some? && items[e.value].started && !items[e.value].journalFailed {
      ghost var it := items[e.value];
      ghost var now, ok :| Written(e.value, it, now, h, op.history, digest, it.phase, "failed", ok);
      WrittenFaithful(e.value, it, now, h, op.history, digest, it.phase, "failed", ok);
      WrittenExtends(e.value, it, now, h, op.history, digest, it.phase, "failed", ok);
      WrittenIsQuiet(e.value, it, now, h, op.history, digest, it.phase, "failed", ok);
      QuietKeeps(h, op.history, e.value);
    }
  }
}
