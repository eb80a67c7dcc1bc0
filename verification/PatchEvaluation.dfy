/**
 One patch-evaluation run (tools/patch_evaluation_sidecar_hardening.py over
 tools/patch_evaluation_sidecar_legacy.py): set up, apply the patch, run the declared commands
 between fingerprint checks, clean up, roll the records up into a status and publish.

 What the surroundings answer at each step is a script; a run is a function of the request and
 the script, so a statement about every script is a statement about every pattern of failures.
 */
module PatchEvaluation {
  import opened Wrappers

  /**
   A step's answer.  `Failed` is an error that the program catches around the evaluation;
   `Crashed` is any other exception, which passes through after the cleanup.
   */
  datatype Reply<+T> = Done(value: T) | Failed | Crashed

  datatype Status = Passed | FailedStatus | Timeout | Error | Skipped

  datatype Record = Record(command: string, status: Status, exitCode: Option<int>)

  /** How a sandboxed command ended: whether its payload started, whether time ran out, its code. */
  datatype Ending = Ending(ready: bool, timedOut: bool, code: int)

  datatype CommandScript = CommandScript(expired: bool, preflight: Reply<string>, run: Reply<Ending>,
                                         readback: Reply<string>)

  datatype Script = Script(
    makeRuntime: Reply<()>,        // workspace root, runtime root and the directories inside it
    snapshotPatch: Reply<()>,
    makeWorkspace: Reply<()>,      // the workspace directory and its identity
    fillWorkspace: Reply<()>,      // init, pack, import and checkout
    isIsolated: Reply<bool>,
    checkPatch: Reply<bool>,
    applyPatch: Reply<bool>,
    changedFiles: Reply<()>,
    fingerprint: Reply<string>,
    makeLogs: Reply<()>,
    commands: seq<CommandScript>,
    removeWorkspace: Reply<()>, workspaceExists: Reply<bool>,
    removeSnapshot: Reply<()>, snapshotExists: Reply<bool>,
    removeRuntime: Reply<()>, runtimeExists: Reply<bool>,
    sourceUnchanged: Reply<bool>,
    producerUnchanged: Reply<bool>,
    buildArtifact: Reply<()>,
    linked: bool)                  // the artifact's file appears at the output path

  datatype Request = Request(commands: seq<string>, failFast: bool)

  datatype State = State(
    snapshot: bool, isolated: bool, applied: bool, fingerprint: Option<string>, records: seq<Record>,
    infrastructureError: bool, workspaceCreated: bool, workspaceCleaned: bool, sourceUnchanged: bool)
  {
    function Mark(): State { this.(infrastructureError := true) }
    function Append(rs: seq<Record>): State { this.(records := records + rs) }
  }

  const START := State(false, false, false, None, [], false, false, false, false)

  /** A state and how the step that led to it ended. */
  datatype Step = Step(st: State, end: Reply<()>)

  // ----- commands -----

  function RunStatus(e: Ending): Status {
    if !e.ready then Error else if e.timedOut then Timeout else if e.code == 0 then Passed else FailedStatus
  }

  function RunRecord(command: string, e: Ending): Record {
    Record(command, RunStatus(e), if !e.ready || e.timedOut then None else Some(e.code))
  }

  function SkippedRecords(commands: seq<string>): seq<Record> {
    seq(|commands|, i requires 0 <= i < |commands| => Record(commands[i], Skipped, None))
  }

  /** Whether the workspace still has the fingerprint taken after the patch; `Failed` counts as no. */
  predicate IsIntact(st: State, observed: Reply<string>) {
    st.fingerprint.Some? && observed == Done(st.fingerprint.value)
  }

  /** An exception other than those caught in the check, raised while it looks at the workspace. */
  predicate CheckCrashes(st: State, observed: Reply<string>) {
    st.fingerprint.Some? && observed.Crashed?
  }

  /** After one command the loop either ends or goes on to the next. */
  datatype Turn = Stop(last: Step) | Go(st: State)

  /** The first of `commands`; stops at the deadline, an error, or fail-fast, skipping the others. */
  function RunCommand(st: State, commands: seq<string>, c: CommandScript, failFast: bool): Turn
    requires commands != []
  {
    if c.expired then Stop(Step(st.Append(SkippedRecords(commands)), Done(())))
    else if CheckCrashes(st, c.preflight) then Stop(Step(st, Crashed))
    else if !IsIntact(st, c.preflight) then StopAt(st.Mark(), Record(commands[0], Error, None), commands)
    else
      match c.run
      case Failed => Stop(Step(st, Failed))
      case Crashed => Stop(Step(st, Crashed))
      case Done(ending) =>
        if CheckCrashes(st, c.readback) then Stop(Step(st, Crashed))
        else if !IsIntact(st, c.readback) then StopAt(st.Mark(), Record(commands[0], Error, None), commands)
        else
          var record := RunRecord(commands[0], ending);
          if record.status == Error then StopAt(st.Mark(), record, commands)
          else if failFast && record.status != Passed then StopAt(st, record, commands)
          else Go(st.Append([record]))
  }

  function StopAt(st: State, record: Record, commands: seq<string>): Turn
    requires commands != []
  {
    Stop(Step(st.Append([record] + SkippedRecords(commands[1..])), Done(())))
  }

  function RunCommands(st: State, commands: seq<string>, script: seq<CommandScript>, failFast: bool): Step
    requires |commands| == |script|
    decreases commands
  {
    if commands == [] then Step(st, Done(()))
    else
      match RunCommand(st, commands, script[0], failFast)
      case Stop(last) => last
      case Go(next) => RunCommands(next, commands[1..], script[1..], failFast)
  }

  // ----- the evaluation -----

  function Perform(st: State, request: Request, script: Script): Step
    requires |request.commands| == |script.commands|
  {
    if !script.makeRuntime.Done? then Step(st, script.makeRuntime)
    else if !script.snapshotPatch.Done? then Step(st, script.snapshotPatch)
    else
      var s1 := st.(snapshot := true);
      if !script.makeWorkspace.Done? then Step(s1, script.makeWorkspace)
      else
        var s2 := s1.(workspaceCreated := true);
        if !script.fillWorkspace.Done? then Step(s2, script.fillWorkspace)
        else if !script.isIsolated.Done? then Step(s2, if script.isIsolated.Failed? then Failed else Crashed)
        else if !script.isIsolated.value then Step(s2, Failed)
        else ApplyAndRun(s2.(isolated := true), request, script)
  }

  function ApplyAndRun(st: State, request: Request, script: Script): Step
    requires |request.commands| == |script.commands|
  {
    if script.checkPatch == Crashed then Step(st, Crashed)
    else if script.checkPatch != Done(true) then Step(st, Failed)
    else if script.applyPatch == Crashed then Step(st, Crashed)
    else if script.applyPatch != Done(true) then Step(st, Failed)
    else
      var s1 := st.(applied := true);
      if !script.changedFiles.Done? then Step(s1, script.changedFiles)
      else if !script.fingerprint.Done? then Step(s1, if script.fingerprint.Failed? then Failed else Crashed)
      else
        var s2 := s1.(fingerprint := Some(script.fingerprint.value));
        if request.commands != [] && !script.makeLogs.Done? then Step(s2, script.makeLogs)
        else RunCommands(s2, request.commands, script.commands, request.failFast)
  }

  // ----- cleanup -----

  function CleanWorkspace(st: State, removed: Reply<()>, stillThere: Reply<bool>): Step {
    if removed == Crashed || (removed.Done? && stillThere == Crashed) then Step(st, Crashed)
    else
      var cleaned := removed.Done? && stillThere == Done(false);
      var s := st.(workspaceCleaned := cleaned);
      Step(if cleaned then s else s.Mark(), Done(()))
  }

  /** The last look at the path is not guarded: if it raises, the run ends there. */
  function CleanPath(st: State, removed: Reply<()>, stillThere: Reply<bool>): Step {
    if removed == Crashed || !stillThere.Done? then Step(st, Crashed)
    else Step(if stillThere.value then st.Mark() else st, Done(()))
  }

  function CleanSnapshot(st: State, removed: Reply<()>, stillThere: Reply<bool>): Step {
    if !st.snapshot then Step(st, Done(())) else CleanPath(st, removed, stillThere)
  }

  function VerifySource(st: State, same: Reply<bool>): Step {
    if same == Crashed then Step(st, Crashed)
    else
      var s := st.(sourceUnchanged := same == Done(true));
      Step(if same == Done(true) then s else s.Mark(), Done(()))
  }

  function VerifyProducer(st: State, same: Reply<bool>): Step {
    if same == Crashed then Step(st, Crashed)
    else Step(if same == Done(true) then st else st.Mark(), Done(()))
  }

  function CleanUp(st: State, script: Script): Step {
    var w := CleanWorkspace(st, script.removeWorkspace, script.workspaceExists);
    if !w.end.Done? then w
    else
      var p := CleanSnapshot(w.st, script.removeSnapshot, script.snapshotExists);
      if !p.end.Done? then p
      else
        var r := CleanPath(p.st, script.removeRuntime, script.runtimeExists);
        if !r.end.Done? then r
        else
          var v := VerifySource(r.st, script.sourceUnchanged);
          if !v.end.Done? then v else VerifyProducer(v.st, script.producerUnchanged)
  }

  // ----- the artifact -----

  datatype Rollup = RolledError | RolledIncomplete | RolledMixed | RolledFailed | RolledPassed

  predicate HasStatus(records: seq<Record>, s: Status) {
    exists r <- records :: r.status == s
  }

  function RollUp(records: seq<Record>, applied: bool, infrastructureError: bool): Rollup {
    if infrastructureError || !applied then RolledError
    else if records == [] then RolledIncomplete
    else if HasStatus(records, Error) || HasStatus(records, Timeout) then RolledError
    else if HasStatus(records, FailedStatus) then if HasStatus(records, Passed) then RolledMixed else RolledFailed
    else if HasStatus(records, Skipped) then RolledIncomplete
    else RolledPassed
  }

  datatype Artifact = Artifact(status: Rollup, applied: bool, isolated: bool, records: seq<Record>)

  /** What a run leaves behind: the artifact at the output path, if any, and the final state. */
  datatype Outcome = Outcome(published: Option<Artifact>, st: State)

  function ArtifactOf(st: State): Artifact {
    Artifact(RollUp(st.records, st.applied, st.infrastructureError), st.applied, st.isolated, st.records)
  }

  function Evaluate(request: Request, script: Script): Outcome
    requires |request.commands| == |script.commands|
  {
    var e := Perform(START, request, script);
    var c := CleanUp(if e.end == Failed then e.st.Mark() else e.st, script);
    if e.end == Crashed || c.end == Crashed || !script.buildArtifact.Done? || !script.linked then Outcome(None, c.st)
    else Outcome(Some(ArtifactOf(c.st)), c.st)
  }

  // ----- the run as the program performs it -----

  class Evaluation {
    var snapshot: bool
    var isolated: bool
    var applied: bool
    var fingerprint: Option<string>
    var records: seq<Record>
    var infrastructureError: bool
    var workspaceCreated: bool
    var workspaceCleaned: bool
    var sourceUnchanged: bool

    ghost function View(): State
      reads this
    {
      State(snapshot, isolated, applied, fingerprint, records, infrastructureError, workspaceCreated, workspaceCleaned,
            sourceUnchanged)
    }

    constructor ()
      ensures View() == START
    {
      snapshot, isolated, applied, fingerprint, records := false, false, false, None, [];
      infrastructureError, workspaceCreated, workspaceCleaned, sourceUnchanged := false, false, false, false;
    }

    method Mark()
      modifies this`infrastructureError
      ensures View() == old(View()).Mark()
    {
      infrastructureError := true;
    }

    /** `None` if the look at the workspace raises an exception that nothing catches. */
    method WorkspaceIsIntact(observed: Reply<string>) returns (intact: Option<bool>)
      modifies this`infrastructureError
      ensures intact.None? <==> CheckCrashes(old(View()), observed)
      ensures intact.Some? ==> intact.value == IsIntact(old(View()), observed)
      ensures View() == if intact == Some(false) then old(View()).Mark() else old(View())
    {
      if fingerprint.None? {
        Mark();
        return Some(false);
      }
      match observed
      case Crashed => return None;
      case Failed =>
        Mark();
        return Some(false);
      case Done(current) =>
        if current != fingerprint.value {
          Mark();
          return Some(false);
        }
        return Some(true);
    }

    method RunDeclaredCommands(commands: seq<string>, script: seq<CommandScript>, failFast: bool)
        returns (end: Reply<()>)
      requires |commands| == |script|
      modifies this
      ensures Step(View(), end) == RunCommands(old(View()), commands, script, failFast)
    {
      for i := 0 to |commands|
        invariant RunCommands(View(), commands[i..], script[i..], failFast)
               == RunCommands(old(View()), commands, script, failFast)
      {
        assert commands[i..][1..] == commands[i + 1..] && script[i..][1..] == script[i + 1..];
        if script[i].expired {
          records := records + SkippedRecords(commands[i..]);
          return Done(());
        }
        var intact := WorkspaceIsIntact(script[i].preflight);
        if intact.None? { return Crashed; }
        if !intact.value {
          records := records + ([Record(commands[i], Error, None)] + SkippedRecords(commands[i + 1..]));
          return Done(());
        }
        if script[i].run == Failed { return Failed; }
        if script[i].run == Crashed { return Crashed; }
        var record := RunRecord(commands[i], script[i].run.value);
        intact := WorkspaceIsIntact(script[i].readback);
        if intact.None? { return Crashed; }
        if !intact.value {
          record := record.(status := Error, exitCode := None);
          records := records + ([record] + SkippedRecords(commands[i + 1..]));
          return Done(());
        }
        if record.status == Error {
          Mark();
          records := records + ([record] + SkippedRecords(commands[i + 1..]));
          return Done(());
        }
        if failFast && record.status != Passed {
          records := records + ([record] + SkippedRecords(commands[i + 1..]));
          return Done(());
        }
        records := records + [record];
      }
      end := Done(());
    }

    method PerformEvaluation(request: Request, script: Script) returns (end: Reply<()>)
      requires |request.commands| == |script.commands|
      modifies this
      ensures Step(View(), end) == Perform(old(View()), request, script)
    {
      if !script.makeRuntime.Done? { return script.makeRuntime; }
      if !script.snapshotPatch.Done? { return script.snapshotPatch; }
      snapshot := true;
      if !script.makeWorkspace.Done? { return script.makeWorkspace; }
      workspaceCreated := true;
      if !script.fillWorkspace.Done? { return script.fillWorkspace; }
      if !script.isIsolated.Done? { return if script.isIsolated.Failed? then Failed else Crashed; }
      isolated := script.isIsolated.value || isolated;
      if !script.isIsolated.value { return Failed; }
      end := ApplyPatchAndRun(request, script);
    }

    method ApplyPatchAndRun(request: Request, script: Script) returns (end: Reply<()>)
      requires |request.commands| == |script.commands|
      modifies this
      ensures Step(View(), end) == ApplyAndRun(old(View()), request, script)
    {
      if script.checkPatch == Crashed { return Crashed; }
      if script.checkPatch != Done(true) { return Failed; }
      if script.applyPatch == Crashed { return Crashed; }
      if script.applyPatch != Done(true) { return Failed; }
      applied := true;
      if !script.changedFiles.Done? { return script.changedFiles; }
      if !script.fingerprint.Done? { return if script.fingerprint.Failed? then Failed else Crashed; }
      fingerprint := Some(script.fingerprint.value);
      if request.commands != [] && !script.makeLogs.Done? { return script.makeLogs; }
      end := RunDeclaredCommands(request.commands, script.commands, request.failFast);
    }

    method RemoveWorkspace(removed: Reply<()>, stillThere: Reply<bool>) returns (end: Reply<()>)
      modifies this
      ensures Step(View(), end) == CleanWorkspace(old(View()), removed, stillThere)
    {
      if removed == Crashed || (removed.Done? && stillThere == Crashed) { return Crashed; }
      workspaceCleaned := removed.Done? && stillThere == Done(false);
      if !workspaceCleaned { Mark(); }
      end := Done(());
    }

    method RemovePath(removed: Reply<()>, stillThere: Reply<bool>) returns (end: Reply<()>)
      modifies this
      ensures Step(View(), end) == CleanPath(old(View()), removed, stillThere)
    {
      if removed == Crashed || !stillThere.Done? { return Crashed; }
      if stillThere.value { Mark(); }
      end := Done(());
    }

    method RemoveSnapshot(removed: Reply<()>, stillThere: Reply<bool>) returns (end: Reply<()>)
      modifies this
      ensures Step(View(), end) == CleanSnapshot(old(View()), removed, stillThere)
    {
      if !snapshot { return Done(()); }
      end := RemovePath(removed, stillThere);
    }

    method VerifySourceUnchanged(same: Reply<bool>) returns (end: Reply<()>)
      modifies this
      ensures Step(View(), end) == VerifySource(old(View()), same)
    {
      if same == Crashed { return Crashed; }
      sourceUnchanged := same == Done(true);
      if !sourceUnchanged { Mark(); }
      end := Done(());
    }

    method VerifyProducerUnchanged(same: Reply<bool>) returns (end: Reply<()>)
      modifies this
      ensures Step(View(), end) == VerifyProducer(old(View()), same)
    {
      if same == Crashed { return Crashed; }
      if same != Done(true) { Mark(); }
      end := Done(());
    }

    method CleanUpEvaluation(script: Script) returns (end: Reply<()>)
      modifies this
      ensures Step(View(), end) == CleanUp(old(View()), script)
    {
      end := RemoveWorkspace(script.removeWorkspace, script.workspaceExists);
      if !end.Done? { return; }
      end := RemoveSnapshot(script.removeSnapshot, script.snapshotExists);
      if !end.Done? { return; }
      end := RemovePath(script.removeRuntime, script.runtimeExists);
      if !end.Done? { return; }
      end := VerifySourceUnchanged(script.sourceUnchanged);
      if !end.Done? { return; }
      end := VerifyProducerUnchanged(script.producerUnchanged);
    }
  }

  method EvaluatePatch(request: Request, script: Script) returns (published: Option<Artifact>)
    requires |request.commands| == |script.commands|
    ensures published == Evaluate(request, script).published
  {
    var state := new Evaluation();
    var end := state.PerformEvaluation(request, script);
    if end == Failed { state.Mark(); }
    var cleaned := state.CleanUpEvaluation(script);
    if end == Crashed || cleaned == Crashed || !script.buildArtifact.Done? || !script.linked { return None; }
    published := Some(Artifact(RollUp(state.records, state.applied, state.infrastructureError), state.applied,
                               state.isolated, state.records));
  }
}
